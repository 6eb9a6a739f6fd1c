/** The owner's dashboard (src/pages/DashboardPage.tsx): the filtered note
    list, deletion, drag-and-drop reordering by two `splice` calls on a copy
    of the list, and the per-category counts. */
module DashboardPage {
  import opened Common
  import opened Types
  import Api

  /** A filter choice: 'all' or one value. */
  datatype Choice<T> = All | Only(value: T)

  // ---------------------------------------------------------------------
  // Request parameters

  /** The parameters `fetchNotes` sends: no category or status for 'all',
      no search for an empty search text. */
  function FetchParams(category: Choice<Category>, status: Choice<Status>, search: string): (p: map<string, Api.ParamValue>)
    ensures "category" in p <==> category.Only?
    ensures category.Only? ==> p["category"] == Api.Str(CategoryName(category.value))
    ensures "status" in p <==> status.Only?
    ensures status.Only? ==> p["status"] == Api.Str(StatusName(status.value))
    ensures "search" in p <==> search != ""
    ensures search != "" ==> p["search"] == Api.Str(search)
    ensures p.Keys <= {"category", "status", "search"}
  {
    var withCategory := if category.Only? then map["category" := Api.Str(CategoryName(category.value))] else map[];
    var withStatus := if status.Only? then withCategory["status" := Api.Str(StatusName(status.value))] else withCategory;
    if search != "" then withStatus["search" := Api.Str(search)] else withStatus
  }

  // ---------------------------------------------------------------------
  // Array.prototype.findIndex and splice

  /** `notes.findIndex(n => n._id === id)`: the first position with that id, or -1. */
  function FindIndex(notes: seq<Note>, id: string): (i: int)
    ensures -1 <= i < |notes|
    ensures i >= 0 ==> notes[i].id == id && forall j :: 0 <= j < i ==> notes[j].id != id
    ensures i == -1 <==> forall j :: 0 <= j < |notes| ==> notes[j].id != id
  {
    if notes == [] then -1
    else if notes[0].id == id then 0
    else
      var i := FindIndex(notes[1..], id);
      if i == -1 then -1 else i + 1
  }

  /** Where `splice(start, ...)` starts on an array of length `len`: a
      negative start counts from the end, and both are clamped to the array. */
  function SpliceStart(start: int, len: nat): (r: nat)
    ensures r <= len
    ensures 0 <= start <= len ==> r == start
    ensures start < 0 && len + start >= 0 ==> r == len + start
  {
    if start < 0 then (if len + start < 0 then 0 else len + start)
    else if start > len then len
    else start
  }

  /** `splice(i, 1)` on a copy: the sequence without position `i`. */
  function RemoveAt<T>(s: seq<T>, i: nat): (r: seq<T>)
    requires i < |s|
    ensures |r| == |s| - 1
    ensures forall k :: 0 <= k < i ==> r[k] == s[k]
    ensures forall k :: i <= k < |r| ==> r[k] == s[k + 1]
  {
    s[..i] + s[i + 1..]
  }

  /** `splice(i, 0, x)` on a copy: `x` inserted before position `i`. */
  function InsertAt<T>(s: seq<T>, i: nat, x: T): (r: seq<T>)
    requires i <= |s|
    ensures |r| == |s| + 1 && r[i] == x
    ensures forall k :: 0 <= k < i ==> r[k] == s[k]
    ensures forall k :: i < k < |r| ==> r[k] == s[k - 1]
  {
    s[..i] + [x] + s[i..]
  }

  /** The element at `from` taken out and put back at `to`. */
  function Reposition<T>(s: seq<T>, from: nat, to: nat): (r: seq<T>)
    requires from < |s| && to < |s|
    ensures |r| == |s| && r[to] == s[from]
  {
    InsertAt(RemoveAt(s, from), to, s[from])
  }

  /** The list `handleDrop` sets: a copy, `splice(oldIndex, 1)`, then
      `splice(newIndex, 0, moved)`, where either index may be -1 when its id
      is missing (the removal then takes the last note). */
  function DropResult(notes: seq<Note>, oldIndex: int, newIndex: int): (r: seq<Note>)
    requires |notes| >= 1 && -1 <= oldIndex < |notes| && -1 <= newIndex < |notes|
    ensures |r| == |notes|
  {
    Reposition(notes, SpliceStart(oldIndex, |notes|), SpliceStart(newIndex, |notes| - 1))
  }

  /** Every position of a repositioned sequence, case by case. */
  lemma RepositionAt<T>(s: seq<T>, from: nat, to: nat, k: nat)
    requires from < |s| && to < |s| && k < |s|
    ensures from <= to ==>
      Reposition(s, from, to)[k] == if k < from || k > to then s[k] else if k < to then s[k + 1] else s[from]
    ensures to < from ==>
      Reposition(s, from, to)[k] == if k < to || k > from then s[k] else if k > to then s[k - 1] else s[from]
  {
  }

  /** Repositioning is a permutation. */
  lemma RepositionPermutes<T>(s: seq<T>, from: nat, to: nat)
    requires from < |s| && to < |s|
    ensures multiset(Reposition(s, from, to)) == multiset(s)
  {
    var x := s[from];
    var rest := RemoveAt(s, from);
    assert s == s[..from] + [x] + s[from + 1..];
    assert rest == s[..from] + s[from + 1..];
    assert rest == rest[..to] + rest[to..];
    assert Reposition(s, from, to) == rest[..to] + [x] + rest[to..];
    calc {
      multiset(Reposition(s, from, to));
      multiset(rest[..to]) + multiset([x]) + multiset(rest[to..]);
      multiset(rest) + multiset([x]);
      multiset(s[..from]) + multiset(s[from + 1..]) + multiset([x]);
      multiset(s);
    }
  }

  /** Taking the moved element back out leaves the others in their old
      relative order. */
  lemma RepositionKeepsOrder<T>(s: seq<T>, from: nat, to: nat)
    requires from < |s| && to < |s|
    ensures RemoveAt(Reposition(s, from, to), to) == RemoveAt(s, from)
  {
  }

  /** When both notes are found, the dragged note ends where the target
      was, the list is a permutation of the old one, and the other notes keep
      their relative order. */
  lemma DropMovesDragged(notes: seq<Note>, draggedId: string, targetId: string)
    requires FindIndex(notes, draggedId) >= 0 && FindIndex(notes, targetId) >= 0
    ensures var oldIndex := FindIndex(notes, draggedId);
      var newIndex := FindIndex(notes, targetId);
      var r := DropResult(notes, oldIndex, newIndex);
      r[newIndex] == notes[oldIndex] && r[newIndex].id == draggedId
      && multiset(r) == multiset(notes)
      && RemoveAt(r, newIndex) == RemoveAt(notes, oldIndex)
  {
    var oldIndex := FindIndex(notes, draggedId);
    var newIndex := FindIndex(notes, targetId);
    RepositionPermutes(notes, oldIndex, newIndex);
    RepositionKeepsOrder(notes, oldIndex, newIndex);
  }

  /** A dragged id that is not in the list: the last note is the one moved. */
  lemma DropOfMissingNote(notes: seq<Note>, draggedId: string, newIndex: int)
    requires |notes| >= 1 && -1 <= newIndex < |notes|
    requires FindIndex(notes, draggedId) == -1
    ensures DropResult(notes, -1, newIndex)[SpliceStart(newIndex, |notes| - 1)] == notes[|notes| - 1]
    ensures multiset(DropResult(notes, -1, newIndex)) == multiset(notes)
  {
    var to := SpliceStart(newIndex, |notes| - 1);
    var r := DropResult(notes, -1, newIndex);
    assert r == Reposition(notes, |notes| - 1, to) by {
      assert SpliceStart(-1, |notes|) == |notes| - 1;
    }
    RepositionPermutes(notes, |notes| - 1, to);
  }

  // ---------------------------------------------------------------------
  // The reorder payload

  /** `reordered.map((n, i) => ({ id: n._id, order: i }))`. */
  function OrderUpdates(notes: seq<Note>): (u: seq<Api.OrderUpdate>)
    ensures |u| == |notes|
    ensures forall i :: 0 <= i < |u| ==> u[i].id == notes[i].id && u[i].order == i
  {
    seq(|notes|, i requires 0 <= i < |notes| => Api.OrderUpdate(notes[i].id, i))
  }

  /** The ids of a list, in order. */
  function Ids<T>(items: seq<T>, idOf: T -> string): (ids: seq<string>)
    ensures |ids| == |items| && forall i :: 0 <= i < |items| ==> ids[i] == idOf(items[i])
  {
    seq(|items|, i requires 0 <= i < |items| => idOf(items[i]))
  }

  /** The payload after a drop names every note of the old list exactly as
      often as it was there, and gives the orders 0, 1, ... in list order. */
  lemma DropPayloadCoversNotes(notes: seq<Note>, oldIndex: int, newIndex: int)
    requires |notes| >= 1 && -1 <= oldIndex < |notes| && -1 <= newIndex < |notes|
    ensures var u := OrderUpdates(DropResult(notes, oldIndex, newIndex));
      multiset(Ids(u, (x: Api.OrderUpdate) => x.id)) == multiset(Ids(notes, (n: Note) => n.id))
      && forall i, j :: 0 <= i < j < |u| ==> u[i].order < u[j].order
  {
    var from := SpliceStart(oldIndex, |notes|);
    var to := SpliceStart(newIndex, |notes| - 1);
    var r := DropResult(notes, oldIndex, newIndex);
    var u := OrderUpdates(r);
    var noteId := (n: Note) => n.id;
    assert Ids(u, (x: Api.OrderUpdate) => x.id) == Ids(r, noteId);
    forall k | 0 <= k < |notes| ensures Ids(r, noteId)[k] == Reposition(Ids(notes, noteId), from, to)[k] {
      RepositionAt(notes, from, to, k);
      RepositionAt(Ids(notes, noteId), from, to, k);
    }
    assert Ids(r, noteId) == Reposition(Ids(notes, noteId), from, to);
    RepositionPermutes(Ids(notes, noteId), from, to);
  }

  // ---------------------------------------------------------------------
  // Counts

  predicate InCategory(n: Note, c: Category) {
    n.category == c
  }

  /** `countByCategory(cat)`. */
  function CountByCategory(notes: seq<Note>, cat: Choice<Category>): (count: nat)
    ensures count <= |notes|
    ensures cat.All? ==> count == |notes|
  {
    match cat
    case All => |notes|
    case Only(c) => |Filter(notes, (n: Note) => InCategory(n, c))|
  }

  /** The five category counts add up to the 'all' count. */
  lemma {:induction false} CategoryCountsSum(notes: seq<Note>)
    ensures CountByCategory(notes, Only(Book)) + CountByCategory(notes, Only(Video))
      + CountByCategory(notes, Only(Article)) + CountByCategory(notes, Only(Course))
      + CountByCategory(notes, Only(General)) == CountByCategory(notes, All)
  {
    if notes != [] {
      CategoryCountsSum(notes[1..]);
    }
  }

  /** Taking an element out of a sequence takes it out of the filtered one. */
  lemma FilterRemoveAt<T(!new)>(s: seq<T>, i: nat, keep: T -> bool)
    requires i < |s|
    ensures |Filter(s, keep)| == |Filter(RemoveAt(s, i), keep)| + |Filter([s[i]], keep)|
  {
    assert s == s[..i] + ([s[i]] + s[i + 1..]);
    FilterAppend(s[..i], [s[i]] + s[i + 1..], keep);
    FilterAppend([s[i]], s[i + 1..], keep);
    FilterAppend(s[..i], s[i + 1..], keep);
  }

  lemma FilterInsertAt<T(!new)>(s: seq<T>, i: nat, x: T, keep: T -> bool)
    requires i <= |s|
    ensures |Filter(InsertAt(s, i, x), keep)| == |Filter(s, keep)| + |Filter([x], keep)|
  {
    assert InsertAt(s, i, x) == s[..i] + ([x] + s[i..]);
    assert s == s[..i] + s[i..];
    FilterAppend(s[..i], [x] + s[i..], keep);
    FilterAppend([x], s[i..], keep);
    FilterAppend(s[..i], s[i..], keep);
  }

  /** A drop changes no category count. */
  lemma DropKeepsCounts(notes: seq<Note>, oldIndex: int, newIndex: int, c: Category)
    requires |notes| >= 1 && -1 <= oldIndex < |notes| && -1 <= newIndex < |notes|
    ensures CountByCategory(DropResult(notes, oldIndex, newIndex), Only(c)) == CountByCategory(notes, Only(c))
  {
    var from := SpliceStart(oldIndex, |notes|);
    var to := SpliceStart(newIndex, |notes| - 1);
    var keep := (n: Note) => InCategory(n, c);
    FilterRemoveAt(notes, from, keep);
    FilterInsertAt(RemoveAt(notes, from), to, notes[from], keep);
  }

  /** `prev.filter(n => n._id !== id)`. */
  function WithoutNote(notes: seq<Note>, id: string): (r: seq<Note>)
    ensures forall n :: n in r ==> n.id != id
  {
    Filter(notes, (n: Note) => n.id != id)
  }

  /** Deleting removes every note with that id and keeps each other note as
      often as it was there. */
  lemma WithoutNoteKeepsOthers(notes: seq<Note>, id: string, n: Note)
    ensures multiset(WithoutNote(notes, id))[n] == if n.id == id then 0 else multiset(notes)[n]
  {
    FilterCount(notes, (m: Note) => m.id != id, n);
  }

  /** Deleting works piece by piece, so the notes that stay keep their order. */
  lemma WithoutNoteAppend(a: seq<Note>, b: seq<Note>, id: string)
    ensures WithoutNote(a + b, id) == WithoutNote(a, id) + WithoutNote(b, id)
  {
    FilterAppend(a, b, (n: Note) => n.id != id);
  }

  // ---------------------------------------------------------------------
  // The page

  class Page {
    var notes: seq<Note>
    var loading: bool
    var search: string
    var category: Choice<Category>
    var status: Choice<Status>
    var draggedId: Option<string>
    var dragOverId: Option<string>

    constructor ()
      ensures notes == [] && loading && search == "" && category == All && status == All
      ensures draggedId == None && dragOverId == None
    {
      notes := [];
      loading := true;
      search := "";
      category := All;
      status := All;
      draggedId := None;
      dragOverId := None;
    }

    /** `fetchNotes`: builds the parameters one by one, asks for the owner's
        notes, and takes them on success; `loading` ends false. */
    method FetchNotes(result: Outcome<seq<Note>>) returns (calls: seq<Api.ApiCall>)
      modifies this
      ensures calls == [Api.GetMyNotes(FetchParams(category, status, search))]
      ensures notes == if result.Ok? then result.value else old(notes)
      ensures !loading
      ensures search == old(search) && category == old(category) && status == old(status)
      ensures draggedId == old(draggedId) && dragOverId == old(dragOverId)
    {
      loading := true;
      var params: map<string, Api.ParamValue> := map[];
      if category.Only? {
        params := params["category" := Api.Str(CategoryName(category.value))];
      }
      if status.Only? {
        params := params["status" := Api.Str(StatusName(status.value))];
      }
      if search != "" {
        params := params["search" := Api.Str(search)];
      }
      calls := [Api.GetMyNotes(params)];
      if result.Ok? {
        notes := result.value;
      }
      loading := false;
    }

    /** `handleDelete(id)`: the note leaves the list once the call succeeds. */
    method HandleDelete(id: string, result: Outcome<()>) returns (calls: seq<Api.ApiCall>)
      modifies this
      ensures calls == [Api.DeleteNote(id)]
      ensures notes == if result.Ok? then WithoutNote(old(notes), id) else old(notes)
      ensures loading == old(loading) && draggedId == old(draggedId) && dragOverId == old(dragOverId)
      ensures search == old(search) && category == old(category) && status == old(status)
    {
      calls := [Api.DeleteNote(id)];
      if result.Ok? {
        notes := WithoutNote(notes, id);
      }
    }

    method HandleDragStart(id: string)
      modifies this
      ensures draggedId == Some(id)
      ensures notes == old(notes) && dragOverId == old(dragOverId) && loading == old(loading)
      ensures search == old(search) && category == old(category) && status == old(status)
    {
      draggedId := Some(id);
    }

    method HandleDragOver(id: string)
      modifies this
      ensures dragOverId == Some(id)
      ensures notes == old(notes) && draggedId == old(draggedId) && loading == old(loading)
      ensures search == old(search) && category == old(category) && status == old(status)
    {
      dragOverId := Some(id);
    }

    /** `handleDrop(e, targetId)`. Nothing happens without a dragged id or
        when a card is dropped on itself. Otherwise the list is reordered in
        a copy, set, and its new order sent; the drag state is cleared only
        once that call succeeds. The list is non-empty: the drop target is
        one of its cards. */
    method HandleDrop(targetId: string, result: Outcome<()>) returns (calls: seq<Api.ApiCall>)
      requires |notes| >= 1
      modifies this
      ensures loading == old(loading)
      ensures search == old(search) && category == old(category) && status == old(status)
      ensures DropIgnored(old(draggedId), targetId) ==>
        calls == [] && notes == old(notes) && draggedId == old(draggedId) && dragOverId == old(dragOverId)
      ensures !DropIgnored(old(draggedId), targetId) ==>
        notes == DropResult(old(notes), FindIndex(old(notes), old(draggedId).value), FindIndex(old(notes), targetId))
      ensures !DropIgnored(old(draggedId), targetId) ==> calls == [Api.ReorderNotes(OrderUpdates(notes))]
      ensures !DropIgnored(old(draggedId), targetId) && result.Ok? ==> draggedId == None && dragOverId == None
      ensures !DropIgnored(old(draggedId), targetId) && result.Failed? ==>
        draggedId == old(draggedId) && dragOverId == old(dragOverId)
    {
      calls := [];
      if DropIgnored(draggedId, targetId) {
        return;
      }
      calls := DropAt(FindIndex(notes, draggedId.value), FindIndex(notes, targetId), result);
    }

    /** The reordering half of `handleDrop`, once both indices are known. */
    method DropAt(oldIndex: int, newIndex: int, result: Outcome<()>) returns (calls: seq<Api.ApiCall>)
      requires |notes| >= 1 && -1 <= oldIndex < |notes| && -1 <= newIndex < |notes|
      modifies this
      ensures notes == DropResult(old(notes), oldIndex, newIndex)
      ensures calls == [Api.ReorderNotes(OrderUpdates(notes))]
      ensures result.Ok? ==> draggedId == None && dragOverId == None
      ensures result.Failed? ==> draggedId == old(draggedId) && dragOverId == old(dragOverId)
      ensures loading == old(loading)
      ensures search == old(search) && category == old(category) && status == old(status)
    {
      notes := Reorder(notes, oldIndex, newIndex);
      calls := [Api.ReorderNotes(OrderUpdates(notes))];
      if result.Ok? {
        draggedId := None;
        dragOverId := None;
      }
    }
  }

  /** `!draggedId || draggedId === targetId`: the drop does nothing. */
  predicate DropIgnored(draggedId: Option<string>, targetId: string) {
    draggedId.None? || draggedId.value == "" || draggedId.value == targetId
  }

  /** `[...notes]` and the two splices, on an array. */
  method Reorder(notes: seq<Note>, oldIndex: int, newIndex: int) returns (reordered: seq<Note>)
    requires |notes| >= 1 && -1 <= oldIndex < |notes| && -1 <= newIndex < |notes|
    ensures reordered == DropResult(notes, oldIndex, newIndex)
  {
    var a := new Note[|notes|](i requires 0 <= i < |notes| => notes[i]);
    assert a[..] == notes;
    MoveWithin(a, SpliceStart(oldIndex, a.Length), SpliceStart(newIndex, a.Length - 1));
    reordered := a[..];
  }

  /** The two splices on the copy, done in place: the element at `from` is
      lifted out, the ones between shift by one, and it is put down at `to`. */
  method MoveWithin<T>(a: array<T>, from: nat, to: nat)
    requires from < a.Length && to < a.Length
    modifies a
    ensures a[..] == Reposition(old(a[..]), from, to)
  {
    ghost var s := a[..];
    var moved := a[from];
    if from <= to {
      var i := from;
      while i < to
        invariant from <= i <= to
        invariant forall k :: 0 <= k < from ==> a[k] == s[k]
        invariant forall k :: from <= k < i ==> a[k] == s[k + 1]
        invariant forall k :: i <= k < a.Length ==> a[k] == s[k]
      {
        a[i] := a[i + 1];
        i := i + 1;
      }
    } else {
      var i := from;
      while i > to
        invariant to <= i <= from
        invariant forall k :: 0 <= k <= i ==> a[k] == s[k]
        invariant forall k :: i < k <= from ==> a[k] == s[k - 1]
        invariant forall k :: from < k < a.Length ==> a[k] == s[k]
      {
        a[i] := a[i - 1];
        i := i - 1;
      }
    }
    a[to] := moved;
    forall k | 0 <= k < a.Length ensures a[k] == Reposition(s, from, to)[k] {
      RepositionAt(s, from, to, k);
    }
  }
}
