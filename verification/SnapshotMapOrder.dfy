/** When the bytes of a map depend on the order in which its entries are received. */
module SnapshotMapOrder {
  import opened GoTypes
  import opened Ordering
  import opened Text
  import opened ObjectGraph
  import opened SnapshotTraversal
  import opened SnapshotTypes
  import opened SnapshotPlain
  import opened SnapshotDecoding

  /** What the entries write, in the order of their printed keys. */
  function Written(h: Heap, d: seq<(Key, Value)>, depth: nat): Bytes {
    SnapshotItems(h, MapItems(d), [], depth).bytes
  }

  ghost predicate EntriesTyped(h: Heap, d: seq<(Key, Value)>, t: Type) {
    && PointerFree(t)
    && forall i :: 0 <= i < |d| ==> HasType(h, d[i].1, t) && COLON !in Printed(d[i].0)
  }

  /** Entries whose keys print alike hold the same state. */
  ghost predicate AlikeInState(h: Heap, d: seq<(Key, Value)>, t: Type)
    requires EntriesTyped(h, d, t)
  {
    forall i, j :: 0 <= i < |d| && 0 <= j < |d| && Printed(d[i].0) == Printed(d[j].0) ==>
      State(h, d[i].1, t) == State(h, d[j].1, t)
  }

  function RowOf(h: Heap, d: seq<(Key, Value)>): EntryRow {
    EntryRow(h, d, InsertionSort(LexLeq, PrintedKeys(d)), [])
  }

  lemma RowTyped(h: Heap, d: seq<(Key, Value)>, t: Type)
    requires EntriesTyped(h, d, t)
    ensures EntryRowHasType(RowOf(h, d), t) && PlainStrings(RowOf(h, d).strs)
  {
    var strs := RowOf(h, d).strs;
    forall i | 0 <= i < |strs|
      ensures HasType(h, ValueFor(d, strs[i]), t) && COLON !in strs[i]
    {
      SortedIsPrinted(d, strs[i]);
      var j := LastEntry(d, strs[i]);
    }
  }

  lemma RowWritten(h: Heap, d: seq<(Key, Value)>, t: Type, depth: nat)
    requires EntriesTyped(h, d, t)
    ensures EntryOutput(RowOf(h, d), depth) == Written(h, d, depth)
  {
    RowTyped(h, d, t);
    PointerFreeItems(h, MapItems(d), seq(|MapItems(d)|, _ => t), [], depth);
    UnsharedItemsWalk(h, MapItems(d), [], depth);
    NothingAfter(PlainItems(h, MapItems(d), depth));
  }

  lemma SortedIsPrinted(d: seq<(Key, Value)>, s: Bytes)
    ensures s in InsertionSort(LexLeq, PrintedKeys(d)) <==> s in PrintedKeys(d)
  {
    assert s in InsertionSort(LexLeq, PrintedKeys(d)) <==> s in multiset(InsertionSort(LexLeq, PrintedKeys(d)));
    assert s in PrintedKeys(d) <==> s in multiset(PrintedKeys(d));
  }

  lemma ReorderedTyped(h: Heap, d: seq<(Key, Value)>, e: seq<(Key, Value)>, t: Type)
    requires EntriesTyped(h, d, t) && Reordering(d, e)
    ensures EntriesTyped(h, e, t)
  {
    forall i | 0 <= i < |e|
      ensures HasType(h, e[i].1, t) && COLON !in Printed(e[i].0)
    {
      assert e[i] in multiset(d);
    }
  }

  /** The values written for printed key `s` hold the same. */
  ghost predicate SameFor(h: Heap, d: seq<(Key, Value)>, e: seq<(Key, Value)>, t: Type, s: Bytes) {
    && HasType(h, ValueFor(d, s), t) && HasType(h, ValueFor(e, s), t)
    && State(h, ValueFor(d, s), t) == State(h, ValueFor(e, s), t)
  }

  ghost predicate SameForAll(h: Heap, d: seq<(Key, Value)>, e: seq<(Key, Value)>, t: Type) {
    forall s :: s in PrintedKeys(d) ==> SameFor(h, d, e, t, s)
  }

  ghost predicate RowsReady(h: Heap, d: seq<(Key, Value)>, e: seq<(Key, Value)>, t: Type) {
    EntryRowHasType(RowOf(h, d), t) && EntryRowHasType(RowOf(h, e), t) && RowOf(h, d).strs == RowOf(h, e).strs
  }

  lemma SameRowsSameValues(h: Heap, d: seq<(Key, Value)>, e: seq<(Key, Value)>, t: Type, s: Bytes)
    requires RowsReady(h, d, e, t) && EntryStates(RowOf(h, d), t) == EntryStates(RowOf(h, e), t)
    requires s in PrintedKeys(d)
    ensures SameFor(h, d, e, t, s)
  {
    SortedIsPrinted(d, s);
    var strs := RowOf(h, d).strs;
    var k :| 0 <= k < |strs| && strs[k] == s;
    assert EntryStates(RowOf(h, d), t)[k] == EntryStates(RowOf(h, e), t)[k];
  }

  lemma SameValuesSameRows(h: Heap, d: seq<(Key, Value)>, e: seq<(Key, Value)>, t: Type)
    requires RowsReady(h, d, e, t) && SameForAll(h, d, e, t)
    ensures EntryStates(RowOf(h, d), t) == EntryStates(RowOf(h, e), t)
  {
    var strs := RowOf(h, d).strs;
    forall k | 0 <= k < |strs|
      ensures EntryStates(RowOf(h, d), t)[k] == EntryStates(RowOf(h, e), t)[k]
    {
      SortedIsPrinted(d, strs[k]);
      assert SameFor(h, d, e, t, strs[k]);
    }
  }

  /** Reordered entries write the same bytes exactly when they hold the same state for each printed key. */
  lemma WrittenAlike(h: Heap, d: seq<(Key, Value)>, e: seq<(Key, Value)>, t: Type, depth: nat)
    requires EntriesTyped(h, d, t) && EntriesTyped(h, e, t) && Reordering(d, e) && Decodable(t) && Fits(t, depth)
    ensures Written(h, e, depth) == Written(h, d, depth) <==> SameForAll(h, d, e, t)
  {
    var row, row' := RowOf(h, d), RowOf(h, e);
    RowTyped(h, d, t);
    RowTyped(h, e, t);
    RowWritten(h, d, t, depth);
    RowWritten(h, e, t, depth);
    SameStrings(d, e);
    if EntryOutput(row, depth) == EntryOutput(row', depth) {
      DecodeEntries(row, row', t, depth);
      forall s | s in PrintedKeys(d)
        ensures SameFor(h, d, e, t, s)
      {
        SameRowsSameValues(h, d, e, t, s);
      }
    }
    if SameForAll(h, d, e, t) {
      SameValuesSameRows(h, d, e, t);
      EncodeEntries(row, row', t, depth);
    }
  }

  lemma SameStateFor(h: Heap, d: seq<(Key, Value)>, e: seq<(Key, Value)>, t: Type, s: Bytes)
    requires EntriesTyped(h, d, t) && Reordering(d, e) && AlikeInState(h, d, t) && s in PrintedKeys(d)
    ensures SameFor(h, d, e, t, s)
  {
    PrintedReordered(d, e);
    assert s in multiset(PrintedKeys(d)) && s in multiset(PrintedKeys(e));
    var i := LastEntry(d, s);
    var j := LastEntry(e, s);
    assert e[j] in multiset(d);
    var m :| 0 <= m < |d| && d[m] == e[j];
  }

  lemma AlikeWritten(h: Heap, d: seq<(Key, Value)>, e: seq<(Key, Value)>, t: Type, depth: nat)
    requires EntriesTyped(h, d, t) && Decodable(t) && Fits(t, depth) && AlikeInState(h, d, t) && Reordering(d, e)
    ensures Written(h, e, depth) == Written(h, d, depth)
  {
    ReorderedTyped(h, d, e, t);
    WrittenAlike(h, d, e, t, depth);
    forall s | s in PrintedKeys(d)
      ensures SameFor(h, d, e, t, s)
    {
      SameStateFor(h, d, e, t, s);
    }
  }

  ghost function StateOrNil(h: Heap, v: Value, t: Type): Tree {
    if HasType(h, v, t) then State(h, v, t) else Nil
  }

  /** Receiving one or the other of two entries last that print alike and hold different states. */
  lemma UnlikeStates(h: Heap, d: seq<(Key, Value)>, t: Type, i: nat, j: nat) returns (e: seq<(Key, Value)>)
    requires i < |d| && j < |d| && Printed(d[i].0) == Printed(d[j].0)
    requires StateOrNil(h, d[i].1, t) != StateOrNil(h, d[j].1, t)
    ensures Reordering(d, e) && !SameForAll(h, d, e, t)
  {
    var s := Printed(d[i].0);
    e := ReceiveOther(d, v => StateOrNil(h, v, t), i, j);
    assert PrintedKeys(d)[i] == s;
    assert !SameFor(h, d, e, t, s);
  }

  lemma UnlikeWritten(h: Heap, d: seq<(Key, Value)>, t: Type, depth: nat) returns (e: seq<(Key, Value)>)
    requires EntriesTyped(h, d, t) && Decodable(t) && Fits(t, depth) && !AlikeInState(h, d, t)
    ensures Reordering(d, e) && Written(h, e, depth) != Written(h, d, depth)
  {
    var i, j :| 0 <= i < |d| && 0 <= j < |d| && Printed(d[i].0) == Printed(d[j].0)
                && State(h, d[i].1, t) != State(h, d[j].1, t);
    e := UnlikeStates(h, d, t, i, j);
    ReorderedTyped(h, d, e, t);
    WrittenAlike(h, d, e, t, depth);
  }

  /** For map values of a decodable type without pointers: the bytes do not depend on the order in which the entries
      are received exactly when entries whose keys print alike hold the same state. */
  lemma OrderShowsExactly(h: Heap, d: seq<(Key, Value)>, t: Type, depth: nat)
    requires EntriesTyped(h, d, t) && Decodable(t) && WithinLevelEight(t, depth)
    ensures (forall e :: Reordering(d, e) ==> Written(h, e, depth) == Written(h, d, depth)) <==> AlikeInState(h, d, t)
  {
    FitsExactly(t, depth);
    if AlikeInState(h, d, t) {
      forall e | Reordering(d, e)
        ensures Written(h, e, depth) == Written(h, d, depth)
      {
        AlikeWritten(h, d, e, t, depth);
      }
    } else {
      var e := UnlikeWritten(h, d, t, depth);
    }
  }
}
