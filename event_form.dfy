/** frontend/src/components/event/EventForm.tsx: the handlers that edit
    the form's list of translations. Each builds a new form value from the
    old one (spread, `filter`, `map`), so they are functions here. */
module EventForm {
  import opened Common

  datatype FormTranslation = FormTranslation(language: string, name: string, description: string, venue: string)

  /** The form data: every field may still be undefined (None). */
  datatype FormData = FormData(name: Option<string>, description: Option<string>, category: Option<string>,
                               date: Option<string>, venue: Option<string>, price: Option<int>,
                               image: Option<string>, translations: Option<seq<FormTranslation>>)

  /** `keyof EventTranslation`. */
  datatype Field = Language | Name | Description | Venue

  const Blank: FormTranslation := FormTranslation("", "", "", "")

  /** `{ ...t, [field]: value }` */
  function SetField(t: FormTranslation, field: Field, value: string): (r: FormTranslation)
    ensures Get(r, field) == value
    ensures forall other :: other != field ==> Get(r, other) == Get(t, other)
  {
    match field
    case Language => t.(language := value)
    case Name => t.(name := value)
    case Description => t.(description := value)
    case Venue => t.(venue := value)
  }

  function Get(t: FormTranslation, field: Field): string {
    match field
    case Language => t.language
    case Name => t.name
    case Description => t.description
    case Venue => t.venue
  }

  /** handleAddTranslation: `[...(data.translations || []), blank]`. */
  function AddTranslation(d: FormData): (r: FormData)
    ensures r.translations.Some?
    ensures var before := if d.translations.Some? then d.translations.value else [];
      && |r.translations.value| == |before| + 1
      && r.translations.value[..|before|] == before
      && r.translations.value[|before|] == Blank
    ensures r.(translations := d.translations) == d
  {
    d.(translations := Some((if d.translations.Some? then d.translations.value else []) + [Blank]))
  }

  /** `ts.filter((_, i) => i !== index)`, walking the list with the index
      of its first element. */
  function DropIndex(ts: seq<FormTranslation>, index: int, from: int): (r: seq<FormTranslation>)
    ensures from <= index < from + |ts| ==> r == ts[..index - from] + ts[index - from + 1..]
    ensures !(from <= index < from + |ts|) ==> r == ts
    decreases |ts|
  {
    if ts == [] then []
    else (if from == index then [] else [ts[0]]) + DropIndex(ts[1..], index, from + 1)
  }

  /** handleRemoveTranslation: drop the item at `index`; an undefined list
      stays undefined. */
  function RemoveTranslation(d: FormData, index: int): (r: FormData)
    ensures d.translations.None? ==> r == d
    ensures d.translations.Some? ==>
      var ts := d.translations.value;
      && r.translations.Some?
      && (0 <= index < |ts| ==> r.translations.value == ts[..index] + ts[index + 1..])
      && (!(0 <= index < |ts|) ==> r == d)
    ensures r.(translations := d.translations) == d
  {
    match d.translations
    case None => d
    case Some(ts) => d.(translations := Some(DropIndex(ts, index, 0)))
  }

  /** `ts.map((t, i) => i === index ? { ...t, [field]: value } : t)` */
  function MapAt(ts: seq<FormTranslation>, index: int, field: Field, value: string): (r: seq<FormTranslation>)
    ensures |r| == |ts|
    ensures forall i :: 0 <= i < |ts| ==> r[i] == if i == index then SetField(ts[i], field, value) else ts[i]
  {
    seq(|ts|, i requires 0 <= i < |ts| => if i == index then SetField(ts[i], field, value) else ts[i])
  }

  /** handleTranslationChange: only `field` of item `index` changes. */
  function ChangeTranslation(d: FormData, index: int, field: Field, value: string): (r: FormData)
    ensures d.translations.None? ==> r == d
    ensures d.translations.Some? ==> r.translations == Some(MapAt(d.translations.value, index, field, value))
    ensures r.(translations := d.translations) == d
  {
    match d.translations
    case None => d
    case Some(ts) => d.(translations := Some(MapAt(ts, index, field, value)))
  }

  /** Adding to an undefined list gives the list of one blank translation. */
  lemma AddToUndefined(d: FormData)
    requires d.translations.None?
    ensures AddTranslation(d).translations == Some([Blank])
  {
  }

  /** Removing the translation just added gives the form back. */
  lemma {:induction false} RemoveUndoesAdd(d: FormData)
    requires d.translations.Some?
    ensures RemoveTranslation(AddTranslation(d), |d.translations.value|) == d
  {
    var ts := d.translations.value;
    var added := ts + [Blank];
    assert added[..|ts|] + added[|ts| + 1..] == ts;
  }

  /** After a change, item `index` reads back `value` in `field`, keeps its
      other fields, and every other item and the length are as before; an
      index outside the list changes nothing. */
  lemma ChangeReadsBack(d: FormData, index: int, field: Field, value: string)
    requires d.translations.Some?
    ensures var ts := d.translations.value;
            var r := ChangeTranslation(d, index, field, value).translations.value;
      && |r| == |ts|
      && (0 <= index < |ts| ==>
            && Get(r[index], field) == value
            && forall other :: other != field ==> Get(r[index], other) == Get(ts[index], other))
      && (forall j :: 0 <= j < |ts| && j != index ==> r[j] == ts[j])
      && (!(0 <= index < |ts|) ==> r == ts)
  {
  }
}
