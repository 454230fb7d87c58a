/** The collection persisted under the 'editCodeList' key, already parsed,
    and onCodeChange, which updates one field of the record of an item in
    place or appends a new record for it. */
module Store {
  import opened Wrappers

  /** The identity the list assigns to an editor item. */
  type Id = int

  /** The record keys onCodeChange writes: 'html', 'css', 'js', 'title'. */
  datatype Field = HtmlField | CssField | JsField | TitleField

  /** One element of the stored array: a JSON null or a record with an id
      and some of the four fields. */
  datatype Entry = Null | Record(id: Id, fields: map<Field, string>)

  /** `item?.id === id` */
  predicate Matches(e: Entry, id: Id) {
    e.Record? && e.id == id
  }

  /** The test `editCodeList.filter(item => item?.id === id)[0]` is truthy. */
  predicate HasRecord(list: seq<Entry>, id: Id) {
    exists i :: 0 <= i < |list| && Matches(list[i], id)
  }

  /** The index of the first record carrying `id`, with a null-safe test. */
  function FindIndex(list: seq<Entry>, id: Id): (r: Option<nat>)
    ensures r.Some? ==> r.value < |list| && Matches(list[r.value], id)
    ensures r.Some? ==> forall j :: 0 <= j < r.value ==> !Matches(list[j], id)
    ensures r.None? <==> !HasRecord(list, id)
  {
    if list == [] then None
    else if Matches(list[0], id) then Some(0)
    else match FindIndex(list[1..], id)
      case None =>
        assert forall i :: 1 <= i < |list| ==> list[i] == list[1..][i - 1];
        None
      case Some(i) => Some(i + 1)
  }

  /** The record `{id, [f]: code}` that onCodeChange appends. */
  function NewRecord(id: Id, f: Field, code: string): Entry {
    Record(id, map[f := code])
  }

  /** The collection after onCodeChange(code, f) of item `id`: the first
      record of `id` gets field `f` set to `code`; without one, a new record is
      appended. (The lookup is the null-safe one; see UpdateOrAppendAsWritten.) */
  function UpdateOrAppend(list: seq<Entry>, id: Id, f: Field, code: string): seq<Entry> {
    match FindIndex(list, id)
    case Some(i) => list[i := list[i].(fields := list[i].fields[f := code])]
    case None => list + [NewRecord(id, f, code)]
  }

  /** An item with a record: the length is kept, the first record of `id`
      has field `f` set to `code` and its other fields unchanged, and every
      other element, later records of `id` included, is unchanged. */
  lemma UpdateExisting(list: seq<Entry>, id: Id, f: Field, code: string)
    requires HasRecord(list, id)
    ensures var r := UpdateOrAppend(list, id, f, code);
            var i := FindIndex(list, id).value;
            && |r| == |list|
            && r[i].Record? && r[i].id == id
            && f in r[i].fields && r[i].fields[f] == code
            && (forall g :: g != f ==> (g in r[i].fields <==> g in list[i].fields))
            && (forall g :: g != f && g in list[i].fields ==> r[i].fields[g] == list[i].fields[g])
            && (forall j :: 0 <= j < |list| && j != i ==> r[j] == list[j])
  {
  }

  /** An item without a record: exactly one element is appended, the record
      holding `id` and field `f` only, and the existing prefix is unchanged. */
  lemma AppendMissing(list: seq<Entry>, id: Id, f: Field, code: string)
    requires !HasRecord(list, id)
    ensures var r := UpdateOrAppend(list, id, f, code);
            && |r| == |list| + 1
            && r[..|list|] == list
            && r[|list|].Record? && r[|list|].id == id
            && r[|list|].fields.Keys == {f} && r[|list|].fields[f] == code
  {
  }

  /** After the call the first record of `id`, the one any later lookup
      finds, holds `code` in field `f`. */
  lemma UpdateOrAppendStores(list: seq<Entry>, id: Id, f: Field, code: string)
    ensures var r := UpdateOrAppend(list, id, f, code);
            && HasRecord(r, id)
            && var i := FindIndex(r, id).value;
               f in r[i].fields && r[i].fields[f] == code
  {
    FindIndexAfterUpdate(list, id, f, code);
  }

  /** FindIndex is determined by its contract: the first matching index. */
  lemma FindIndexIs(list: seq<Entry>, id: Id, i: nat)
    requires i < |list| && Matches(list[i], id)
    requires forall j :: 0 <= j < i ==> !Matches(list[j], id)
    ensures FindIndex(list, id) == Some(i)
  {
    if i > 0 {
      assert forall j :: 0 <= j < i - 1 ==> list[1..][j] == list[j + 1];
      FindIndexIs(list[1..], id, i - 1);
    }
  }

  /** The lookup finds the same record after an edit of that item. */
  lemma FindIndexAfterUpdate(list: seq<Entry>, id: Id, f: Field, code: string)
    ensures FindIndex(UpdateOrAppend(list, id, f, code), id) ==
              Some(if HasRecord(list, id) then FindIndex(list, id).value else |list|)
  {
    var r := UpdateOrAppend(list, id, f, code);
    match FindIndex(list, id)
    case Some(i) =>
      assert forall j :: 0 <= j < i ==> r[j] == list[j];
      FindIndexIs(r, id, i);
    case None =>
      assert forall j :: 0 <= j < |list| ==> r[j] == list[j];
      FindIndexIs(r, id, |list|);
  }

  /** Writing the same field twice keeps only the second value. */
  lemma {:induction false} LastWriteWins(list: seq<Entry>, id: Id, f: Field, a: string, b: string)
    ensures UpdateOrAppend(UpdateOrAppend(list, id, f, a), id, f, b) == UpdateOrAppend(list, id, f, b)
  {
    FindIndexAfterUpdate(list, id, f, a);
    var r := UpdateOrAppend(list, id, f, a);
    match FindIndex(list, id)
    case Some(i) =>
      assert r[i].fields[f := b] == list[i].fields[f := b];
    case None =>
      assert r[|list|].fields[f := b] == map[f := b];
  }

  lemma UpdateAtIndex(list: seq<Entry>, id: Id, f: Field, code: string, i: nat)
    requires FindIndex(list, id) == Some(i)
    ensures UpdateOrAppend(list, id, f, code) == list[i := Record(id, list[i].fields[f := code])]
  {
  }

  lemma AppendAtEnd(list: seq<Entry>, id: Id, f: Field, code: string)
    requires FindIndex(list, id) == None
    ensures UpdateOrAppend(list, id, f, code) == list + [Record(id, map[f := code])]
  {
  }

  /** Edits of two different fields of one item commute. */
  lemma FieldEditsCommute(list: seq<Entry>, id: Id, f: Field, g: Field, a: string, b: string)
    requires f != g
    ensures UpdateOrAppend(UpdateOrAppend(list, id, f, a), id, g, b) ==
            UpdateOrAppend(UpdateOrAppend(list, id, g, b), id, f, a)
  {
    var rf := UpdateOrAppend(list, id, f, a);
    var rg := UpdateOrAppend(list, id, g, b);
    FindIndexAfterUpdate(list, id, f, a);
    FindIndexAfterUpdate(list, id, g, b);
    var i := if HasRecord(list, id) then FindIndex(list, id).value else |list|;
    var m := if HasRecord(list, id) then list[i].fields else map[];
    if HasRecord(list, id) {
      UpdateAtIndex(list, id, f, a, i);
      UpdateAtIndex(list, id, g, b, i);
    } else {
      AppendAtEnd(list, id, f, a);
      AppendAtEnd(list, id, g, b);
    }
    assert rf[i] == Record(id, m[f := a]) && rg[i] == Record(id, m[g := b]);
    UpdateAtIndex(rf, id, g, b, i);
    UpdateAtIndex(rg, id, f, a, i);
    assert m[f := a][g := b] == m[g := b][f := a];
  }

  /** Persistence example: item 1 holding html "A",
      edited with css "B", is stored as {id: 1, html: "A", css: "B"}. */
  lemma PersistRoundTrip()
    ensures UpdateOrAppend([Record(1, map[HtmlField := "A"])], 1, CssField, "B") ==
            [Record(1, map[HtmlField := "A", CssField := "B"])]
  {
    assert FindIndex([Record(1, map[HtmlField := "A"])], 1) == Some(0);
  }

  // ---------------------------------------------------------------------
  // onCodeChange as written: `findIndex(item => item.id === id)` reads `.id`
  // of every element before the match, which throws on a null element,
  // although the test before it (`item?.id`) tolerates nulls.

  /** What `findIndex(item => item.id === id)` does: an index, -1, or a TypeError. */
  datatype Lookup = Found(index: nat) | NotFound | TypeError

  function FindIndexAsWritten(list: seq<Entry>, id: Id): (r: Lookup)
    ensures r.Found? ==> r.index < |list| && Matches(list[r.index], id)
  {
    if list == [] then NotFound
    else if list[0].Null? then TypeError
    else if list[0].id == id then Found(0)
    else match FindIndexAsWritten(list[1..], id)
      case Found(i) => Found(i + 1)
      case NotFound => NotFound
      case TypeError => TypeError
  }

  /** onCodeChange as written; None when it throws, so that nothing is saved. */
  function UpdateOrAppendAsWritten(list: seq<Entry>, id: Id, f: Field, code: string): Option<seq<Entry>> {
    if |list| > 0 && HasRecord(list, id) then
      match FindIndexAsWritten(list, id)
      case Found(i) => Some(list[i := list[i].(fields := list[i].fields[f := code])])
      case NotFound => None      // `editCodeList[-1][type]` throws as well
      case TypeError => None
    else Some(list + [NewRecord(id, f, code)])
  }

  /** A null element stands before the first record of `id`. */
  predicate NullBeforeMatch(list: seq<Entry>, id: Id) {
    match FindIndex(list, id)
    case None => false
    case Some(i) => exists j :: 0 <= j < i && list[j].Null?
  }

  lemma {:induction false} FindIndexAsWrittenIff(list: seq<Entry>, id: Id)
    requires HasRecord(list, id)
    ensures FindIndexAsWritten(list, id) ==
              if NullBeforeMatch(list, id) then TypeError else Found(FindIndex(list, id).value)
  {
    if list[0].Record? && list[0].id != id {
      var i :| 0 <= i < |list| && Matches(list[i], id);
      assert Matches(list[1..][i - 1], id);
      FindIndexAsWrittenIff(list[1..], id);
      var k := FindIndex(list[1..], id).value;
      assert FindIndex(list, id) == Some(k + 1);
      if NullBeforeMatch(list[1..], id) {
        var j :| 0 <= j < k && list[1..][j].Null?;
        assert list[j + 1].Null?;
      }
      if NullBeforeMatch(list, id) {
        var j :| 0 <= j < k + 1 && list[j].Null?;
        assert j > 0 && list[1..][j - 1].Null?;
      }
    }
  }

  /** The as-written onCodeChange saves what the corrected one saves, except
      that it throws, saving nothing, when a null precedes the item's record. */
  lemma AsWrittenIff(list: seq<Entry>, id: Id, f: Field, code: string)
    ensures UpdateOrAppendAsWritten(list, id, f, code) ==
              if NullBeforeMatch(list, id) then None else Some(UpdateOrAppend(list, id, f, code))
  {
    if HasRecord(list, id) {
      FindIndexAsWrittenIff(list, id);
    }
  }

  /** The input that shows it: [null, {id: 7}] edited for item 7 throws
      instead of storing the html. */
  lemma AsWrittenLosesEdit()
    ensures UpdateOrAppendAsWritten([Null, Record(7, map[])], 7, HtmlField, "x") == None
    ensures UpdateOrAppend([Null, Record(7, map[])], 7, HtmlField, "x") ==
              [Null, Record(7, map[HtmlField := "x"])]
  {
    var list := [Null, Record(7, map[])];
    assert Matches(list[1], 7);
    assert FindIndex(list, 7) == Some(1);
  }

  /** The storage slot holding the collection. Reading it and writing it back
      stand for the JSON parse and stringify of the source. */
  class CodeStore {
    var entries: seq<Entry>

    constructor (saved: seq<Entry>)
      ensures entries == saved
    {
      entries := saved;
    }

    /** onCodeChange(code, f) of item `id`. */
    method OnCodeChange(id: Id, f: Field, code: string)
      modifies this
      ensures entries == UpdateOrAppend(old(entries), id, f, code)
    {
      var editCodeList := entries;
      var found := FindIndex(editCodeList, id);
      if found.Some? {
        var i := found.value;
        editCodeList := editCodeList[i := editCodeList[i].(fields := editCodeList[i].fields[f := code])];
      } else {
        editCodeList := editCodeList + [NewRecord(id, f, code)];
      }
      entries := editCodeList;
    }
  }
}
