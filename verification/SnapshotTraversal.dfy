/** What a walk over an arbitrary finite heap, cycles and sharing included, can depend on. */
module SnapshotTraversal {
  import opened GoTypes
  import opened Ordering
  import opened Text
  import opened ObjectGraph

  /** The cell that a map or slice keeps its contents in. */
  function OwnCell(v: Value): set<Address> {
    match v
    case Map(Some(a)) => {a}
    case Slice(Some(a)) => {a}
    case _ => {}
  }

  /** The addresses that `v`, met at level `depth`, and the values below it have at levels up to 8. */
  function CellsWithin(h: Heap, v: Value, depth: nat): set<Address>
    decreases if depth > 8 then 0 else 9 - depth, 0
  {
    if depth > 8 || v == Pointer(None) then {}
    else if v.Pointer? then {v.target.value} + CellsWithin(h, Target(h, v.target.value), depth + 1)
    else OwnCell(v) + ItemCells(h, Children(h, v), depth + 1)
  }

  function ItemCells(h: Heap, items: seq<Item>, depth: nat): set<Address>
    decreases if depth > 8 then 0 else 9 - depth, 1 + |items|
  {
    if items == [] then {} else CellsWithin(h, items[0].value, depth) + ItemCells(h, items[1..], depth)
  }

  ghost predicate AgreeOn(h: Heap, k: Heap, cells: set<Address>) {
    forall a :: a in cells ==> (a in h <==> a in k) && (a in h ==> h[a] == k[a])
  }

  /** A walk reads no cell beyond level 8: heaps that agree up to there give the same bytes. */
  lemma {:induction false} Locality(h: Heap, k: Heap, v: Value, followed: seq<Address>, depth: nat)
    requires AgreeOn(h, k, CellsWithin(h, v, depth))
    ensures Snapshot(h, v, followed, depth) == Snapshot(k, v, followed, depth)
    decreases Fuel(depth), 0
  {
    if depth <= MAX_DEPTH && v != Pointer(None) {
      if v.Pointer? {
        assert Target(h, v.target.value) == Target(k, v.target.value);
        Locality(h, k, Target(h, v.target.value), followed + [v.target.value], depth + 1);
      } else {
        SameContents(h, k, v);
        ItemLocality(h, k, Children(h, v), followed, depth + 1);
        SameComposite(h, k, v, followed, depth);
      }
    }
  }

  lemma SameContents(h: Heap, k: Heap, v: Value)
    requires AgreeOn(h, k, OwnCell(v))
    ensures Header(h, v) == Header(k, v) && Children(h, v) == Children(k, v)
  {
  }

  lemma {:induction false} ItemLocality(h: Heap, k: Heap, items: seq<Item>, followed: seq<Address>, depth: nat)
    requires AgreeOn(h, k, ItemCells(h, items, depth))
    ensures SnapshotItems(h, items, followed, depth) == SnapshotItems(k, items, followed, depth)
    decreases Fuel(depth), 1 + |items|
  {
    if items != [] {
      Locality(h, k, items[0].value, followed, depth);
      ItemLocality(h, k, items[1..], Snapshot(h, items[0].value, followed, depth).followed, depth);
    }
  }

  /** The pointers that a walk adds to those followed before: each one once, and within reach. */
  ghost predicate Extends(after: seq<Address>, before: seq<Address>, reach: set<Address>) {
    && before <= after
    && (Distinct(before) ==> Distinct(after))
    && forall a :: a in after && a !in before ==> a in reach
  }

  /** Each address is dereferenced at most once over the whole walk. */
  lemma {:induction false} FollowedOnce(h: Heap, v: Value, followed: seq<Address>, depth: nat)
    ensures Extends(Snapshot(h, v, followed, depth).followed, followed, CellsWithin(h, v, depth))
    decreases Fuel(depth), 0
  {
    if depth <= MAX_DEPTH && v != Pointer(None) {
      if v.Pointer? {
        if v.target.value !in followed {
          FollowedOnce(h, Target(h, v.target.value), followed + [v.target.value], depth + 1);
        }
      } else {
        ItemsFollowedOnce(h, Children(h, v), followed, depth + 1);
      }
    }
  }

  lemma {:induction false} ItemsFollowedOnce(h: Heap, items: seq<Item>, followed: seq<Address>, depth: nat)
    ensures Extends(SnapshotItems(h, items, followed, depth).followed, followed, ItemCells(h, items, depth))
    decreases Fuel(depth), 1 + |items|
  {
    if items != [] {
      FollowedOnce(h, items[0].value, followed, depth);
      ItemsFollowedOnce(h, items[1..], Snapshot(h, items[0].value, followed, depth).followed, depth);
    }
  }

  // ---------- The order in which map entries are received ----------

  /** The same entries, received in another order. */
  ghost predicate Reordering(d: seq<(Key, Value)>, e: seq<(Key, Value)>) {
    multiset(d) == multiset(e)
  }

  /** Entries whose keys print alike hold the same value. */
  ghost predicate PrintAlikeAgree(d: seq<(Key, Value)>) {
    forall i, j :: 0 <= i < |d| && 0 <= j < |d| && Printed(d[i].0) == Printed(d[j].0) ==> d[i].1 == d[j].1
  }

  /** The last entry that prints `s` is the one that is written for it. */
  lemma {:induction false} LastEntry(d: seq<(Key, Value)>, s: Bytes) returns (i: nat)
    requires s in PrintedKeys(d)
    ensures i < |d| && Printed(d[i].0) == s && ValueFor(d, s) == d[i].1
    ensures forall j :: i < j < |d| ==> Printed(d[j].0) != s
  {
    var n := |d| - 1;
    if Printed(d[n].0) == s {
      i := n;
    } else {
      var j :| 0 <= j < |d| && PrintedKeys(d)[j] == s;
      assert PrintedKeys(d[..n])[j] == s;
      i := LastEntry(d[..n], s);
    }
  }

  lemma PrintedConcat(a: seq<(Key, Value)>, b: seq<(Key, Value)>)
    ensures PrintedKeys(a + b) == PrintedKeys(a) + PrintedKeys(b)
  {
  }

  lemma {:induction false} PrintedReordered(d: seq<(Key, Value)>, e: seq<(Key, Value)>)
    requires Reordering(d, e)
    ensures multiset(PrintedKeys(d)) == multiset(PrintedKeys(e))
  {
    if d == [] {
      NoElements(e);
    } else {
      var front, x := d[..|d| - 1], d[|d| - 1];
      assert d == front + [x];
      assert x in multiset(e);
      var k :| 0 <= k < |e| && e[k] == x;
      var l, r := e[..k], e[k + 1..];
      assert e == l + [x] + r;
      DropFromBoth(front, l, r, x);
      PrintedReordered(front, l + r);
      PrintedConcat(front, [x]);
      PrintedConcat(l, r);
      PrintedConcat(l + [x], r);
      PrintedConcat(l, [x]);
    }
  }

  /** The printed keys are written in one order, whatever order they are received in. */
  lemma SameStrings(d: seq<(Key, Value)>, e: seq<(Key, Value)>)
    requires Reordering(d, e)
    ensures InsertionSort(LexLeq, PrintedKeys(d)) == InsertionSort(LexLeq, PrintedKeys(e))
  {
    PrintedReordered(d, e);
    LexTotalPreorder();
    InsertionSortSorted(LexLeq, PrintedKeys(d));
    InsertionSortSorted(LexLeq, PrintedKeys(e));
    SortedUnique(LexLeq, InsertionSort(LexLeq, PrintedKeys(d)), InsertionSort(LexLeq, PrintedKeys(e)));
  }

  lemma SameValueFor(d: seq<(Key, Value)>, e: seq<(Key, Value)>, s: Bytes)
    requires Reordering(d, e) && PrintAlikeAgree(d) && s in PrintedKeys(d) && s in PrintedKeys(e)
    ensures ValueFor(d, s) == ValueFor(e, s)
  {
    var i := LastEntry(d, s);
    var j := LastEntry(e, s);
    assert e[j] in multiset(d);
    var m :| 0 <= m < |d| && d[m] == e[j];
  }

  lemma AgreeingItems(d: seq<(Key, Value)>, e: seq<(Key, Value)>)
    requires Reordering(d, e) && PrintAlikeAgree(d)
    ensures MapItems(d) == MapItems(e)
  {
    SameStrings(d, e);
    PrintedReordered(d, e);
    var strs := InsertionSort(LexLeq, PrintedKeys(d));
    forall i | 0 <= i < |strs|
      ensures ValueFor(d, strs[i]) == ValueFor(e, strs[i])
    {
      assert strs[i] in multiset(PrintedKeys(d));
      assert strs[i] in multiset(PrintedKeys(e));
      SameValueFor(d, e, strs[i]);
    }
  }

  lemma SwapMultiset<T>(s: seq<T>, i: nat, j: nat)
    requires i < j < |s|
    ensures multiset(s[i := s[j]][j := s[i]]) == multiset(s)
  {
  }

  /** The entries with entry `m` received last of those that print `s`. */
  lemma ReceiveLast(d: seq<(Key, Value)>, m: nat, last: nat, s: Bytes) returns (e: seq<(Key, Value)>)
    requires m < last < |d| && Printed(d[m].0) == Printed(d[last].0) == s
    requires forall j :: last < j < |d| ==> Printed(d[j].0) != s
    ensures Reordering(d, e) && ValueFor(e, s) == d[m].1
  {
    e := d[m := d[last]][last := d[m]];
    SwapMultiset(d, m, last);
    assert PrintedKeys(e)[last] == s;
    var l := LastEntry(e, s);
    assert forall k :: last < k < |d| ==> e[k] == d[k];
    assert l == last;
  }

  /** If two entries print alike and differ in `f`, receiving one of them last or the other makes a difference. */
  lemma ReceiveOther<T>(d: seq<(Key, Value)>, f: Value -> T, i: nat, j: nat) returns (e: seq<(Key, Value)>)
    requires i < |d| && j < |d| && Printed(d[i].0) == Printed(d[j].0) && f(d[i].1) != f(d[j].1)
    ensures Reordering(d, e) && f(ValueFor(e, Printed(d[i].0))) != f(ValueFor(d, Printed(d[i].0)))
  {
    var s := Printed(d[i].0);
    assert PrintedKeys(d)[i] == s;
    var last := LastEntry(d, s);
    e := ReceiveLast(d, if f(d[i].1) != f(d[last].1) then i else j, last, s);
  }

  lemma DisagreeingItems(d: seq<(Key, Value)>, i: nat, j: nat) returns (e: seq<(Key, Value)>)
    requires i < |d| && j < |d| && Printed(d[i].0) == Printed(d[j].0) && d[i].1 != d[j].1
    ensures Reordering(d, e) && MapItems(e) != MapItems(d)
  {
    e := ReceiveOther(d, v => v, i, j);
    assert PrintedKeys(d)[i] == Printed(d[i].0);
    ItemsShowValue(d, e, Printed(d[i].0));
  }

  lemma ItemsShowValue(d: seq<(Key, Value)>, e: seq<(Key, Value)>, s: Bytes)
    requires Reordering(d, e) && s in PrintedKeys(d) && ValueFor(d, s) != ValueFor(e, s)
    ensures MapItems(d) != MapItems(e)
  {
    SameStrings(d, e);
    var strs := InsertionSort(LexLeq, PrintedKeys(d));
    assert s in multiset(PrintedKeys(d));
    assert s in multiset(strs);
    var k :| 0 <= k < |strs| && strs[k] == s;
    assert MapItems(d)[k] == EntryItem(d, s) && MapItems(e)[k] == EntryItem(e, s);
  }

  /** What is written for a map does not depend on the order in which its entries are received exactly when
      entries whose keys print alike hold the same value. */
  lemma OrderIrrelevantExactly(d: seq<(Key, Value)>)
    ensures (forall e :: Reordering(d, e) ==> MapItems(e) == MapItems(d)) <==> PrintAlikeAgree(d)
  {
    if PrintAlikeAgree(d) {
      forall e | Reordering(d, e)
        ensures MapItems(e) == MapItems(d)
      {
        AgreeingItems(d, e);
      }
    } else {
      var i, j :| 0 <= i < |d| && 0 <= j < |d| && Printed(d[i].0) == Printed(d[j].0) && d[i].1 != d[j].1;
      var e := DisagreeingItems(d, i, j);
    }
  }

  /** The same graph, with the entries of its maps received in another order, where entries that print alike
      hold the same value. */
  ghost predicate SameUpToMapOrder(h: Heap, k: Heap) {
    && h.Keys == k.Keys
    && forall a :: a in h ==> h[a] == k[a] || Reordered(h[a], k[a])
  }

  ghost predicate Reordered(c: Cell, d: Cell) {
    && c.Entries? && d.Entries?
    && Reordering(c.entries, d.entries) && PrintAlikeAgree(c.entries)
  }

  /** What cell `a` looks like to a walk. */
  function View(h: Heap, a: Address): (Value, seq<Value>, seq<Item>) {
    (Target(h, a), ElemsAt(h, a), MapItems(EntriesAt(h, a)))
  }

  ghost predicate SameView(h: Heap, k: Heap) {
    forall a :: View(h, a) == View(k, a)
  }

  lemma ReorderedView(h: Heap, k: Heap)
    requires SameUpToMapOrder(h, k)
    ensures SameView(h, k)
  {
    forall a
      ensures View(h, a) == View(k, a)
    {
      if a in h && h[a] != k[a] {
        OrderIrrelevantExactly(h[a].entries);
      }
    }
  }

  lemma SameChildren(h: Heap, k: Heap, v: Value)
    requires SameView(h, k)
    ensures Children(h, v) == Children(k, v) && Header(h, v) == Header(k, v)
  {
    match v
    case Map(Some(a)) => assert View(h, a) == View(k, a);
    case Slice(Some(a)) => assert View(h, a) == View(k, a);
    case _ =>
  }

  /** The snapshot does not depend on the order in which `range` yields map entries, as long as entries of a
      map whose keys print alike hold the same value. */
  lemma MapOrderIrrelevant(h: Heap, k: Heap, v: Value)
    requires SameUpToMapOrder(h, k)
    ensures Snapshot(h, v, [], 0) == Snapshot(k, v, [], 0)
  {
    ReorderedView(h, k);
    SameViewSameWalk(h, k, v, [], 0);
  }

  lemma {:induction false} SameViewSameWalk(h: Heap, k: Heap, v: Value, followed: seq<Address>, depth: nat)
    requires SameView(h, k)
    ensures Snapshot(h, v, followed, depth) == Snapshot(k, v, followed, depth)
    decreases Fuel(depth), 0
  {
    if depth <= MAX_DEPTH && v != Pointer(None) {
      if v.Pointer? {
        assert View(h, v.target.value) == View(k, v.target.value);
        SameViewSameWalk(h, k, Target(h, v.target.value), followed + [v.target.value], depth + 1);
      } else {
        SameChildren(h, k, v);
        SameViewSameItems(h, k, Children(h, v), followed, depth + 1);
        SameComposite(h, k, v, followed, depth);
      }
    }
  }

  lemma SameComposite(h: Heap, k: Heap, v: Value, followed: seq<Address>, depth: nat)
    requires !v.Pointer? && Children(h, v) == Children(k, v) && Header(h, v) == Header(k, v)
    requires SnapshotItems(h, Children(h, v), followed, depth + 1) ==
             SnapshotItems(k, Children(h, v), followed, depth + 1)
    ensures Snapshot(h, v, followed, depth) == Snapshot(k, v, followed, depth)
  {
  }

  lemma {:induction false} SameViewSameItems(h: Heap, k: Heap, items: seq<Item>, followed: seq<Address>, depth: nat)
    requires SameView(h, k)
    ensures SnapshotItems(h, items, followed, depth) == SnapshotItems(k, items, followed, depth)
    decreases Fuel(depth), 1 + |items|
  {
    if items != [] {
      SameViewSameWalk(h, k, items[0].value, followed, depth);
      SameViewSameItems(h, k, items[1..], Snapshot(h, items[0].value, followed, depth).followed, depth);
    }
  }

  lemma {:induction false} ValueForEntry(entries: seq<(Key, Value)>, i: nat)
    requires i < |entries| && Distinct(PrintedKeys(entries))
    ensures ValueFor(entries, Printed(entries[i].0)) == entries[i].1
  {
    var n := |entries| - 1;
    var shorter := entries[..n];
    assert PrintedKeys(shorter) == PrintedKeys(entries)[..n];
    if i < n {
      assert PrintedKeys(entries)[i] != PrintedKeys(entries)[n];
      ValueForEntry(shorter, i);
    }
  }

  /** Two keys that print alike (`1` and `"1"` in a `map[any]bool`) and hold different booleans: the bytes depend
      on which of the two entries is received last. */
  lemma MapOrderMattersWhenPrintedAlike(x: Key, y: Key, b: bool, a: Address)
    requires x != y && Printed(x) == Printed(y)
    ensures
      var d, e := [(x, Bool(b)), (y, Bool(!b))], [(y, Bool(!b)), (x, Bool(b))];
      && DistinctKeys(d) && Reordering(d, e)
      && Snapshot(map[a := Entries(d)], Map(Some(a)), [], 0).bytes
         != Snapshot(map[a := Entries(e)], Map(Some(a)), [], 0).bytes
  {
    var d, e := [(x, Bool(b)), (y, Bool(!b))], [(y, Bool(!b)), (x, Bool(b))];
    assert d == [d[0]] + [d[1]] && e == [d[1]] + [d[0]];
    LastOfTwo(a, x, y, b);
    LastOfTwo(a, y, x, !b);
  }

  /** Of two entries that print alike the second shows. */
  lemma LastOfTwo(a: Address, x: Key, y: Key, b: bool)
    requires Printed(x) == Printed(y)
    ensures
      var h := map[a := Entries([(x, Bool(b)), (y, Bool(!b))])];
      var bytes := Snapshot(h, Map(Some(a)), [], 0).bytes;
      |bytes| > |Printed(x)| + 2 && bytes[|Printed(x)| + 2] == if b then 0 else 1
  {
    TwoAlike(x, y, Bool(b), Bool(!b));
    var h := map[a := Entries([(x, Bool(b)), (y, Bool(!b))])];
    FirstByte(h, Map(Some(a)), Printed(x), !b);
  }

  lemma TwoAlike(x: Key, y: Key, u: Value, w: Value)
    requires Printed(x) == Printed(y)
    ensures
      var items := MapItems([(x, u), (y, w)]);
      items != [] && items[0] == Item([LBRACE] + Printed(x) + [COLON], w, [RBRACE])
  {
    var d, s := [(x, u), (y, w)], Printed(x);
    assert PrintedKeys(d) == [s, s];
    FirstEntry(d, s);
  }

  lemma FirstEntry(d: seq<(Key, Value)>, s: Bytes)
    requires PrintedKeys(d) == [s, s]
    ensures MapItems(d) != [] && MapItems(d)[0] == EntryItem(d, s)
  {
    var strs := InsertionSort(LexLeq, [s, s]);
    assert |strs| == |multiset(strs)| == 2;
    assert strs[0] in multiset(strs);
  }

  /** The value of the first entry shows right after its key. */
  lemma FirstByte(h: Heap, v: Value, s: Bytes, b: bool)
    requires !v.Pointer? && Header(h, v) == [] && Children(h, v) != []
    requires Children(h, v)[0] == Item([LBRACE] + s + [COLON], Bool(b), [RBRACE])
    ensures
      var bytes := Snapshot(h, v, [], 0).bytes;
      |bytes| > |s| + 2 && bytes[|s| + 2] == if b then 1 else 0
  {
    OneKindOfOutput(h, v, [], 0);
    var items := Children(h, v);
    var first := Snapshot(h, items[0].value, [], 1);
    OneKindOfOutput(h, items[0].value, [], 1);
    var rest := SnapshotItems(h, items[1..], first.followed, 1);
    assert SnapshotItems(h, items, [], 1).bytes == items[0].prefix + first.bytes + items[0].suffix + rest.bytes;
    assert |items[0].prefix| == |s| + 2;
  }
}
