/** What the tracker writes, byte for byte: a function of the type and of what the value holds. */
module SnapshotRendering {
  import opened GoTypes
  import opened Ordering
  import opened Text
  import opened ObjectGraph
  import opened SnapshotTypes
  import opened SnapshotPlain
  import opened SnapshotDecoding

  /** The eight bytes of a number, the highest first. */
  function Eight(n: nat): Bytes {
    [n / 0x100_0000_0000_0000 % 256, n / 0x1_0000_0000_0000 % 256, n / 0x100_0000_0000 % 256, n / 0x1_0000_0000 % 256,
     n / 0x100_0000 % 256, n / 0x1_0000 % 256, n / 0x100 % 256, n % 256]
  }

  /** The levels that are left at nesting level `depth`. */
  function Levels(depth: nat): nat {
    if depth > 8 then 0 else 9 - depth
  }

  /** The printed keys of a map's contents, in bytewise order. */
  ghost function Lines(m: map<Key, Tree>): (strs: seq<Bytes>)
    ensures InByteOrder(strs) && Distinct(strs)
    ensures Elements(strs) == set k | k in m :: Printed(k)
  {
    LexTotalPreorder();
    var strs := SortedList(LexLeq, set k | k in m :: Printed(k));
    SortedListElements(LexLeq, set k | k in m :: Printed(k));
    SortedInByteOrder(strs);
    strs
  }

  /** What a map holds under the key that prints `s`. */
  ghost function Under(m: map<Key, Tree>, s: Bytes): Tree {
    if k :| k in m && Printed(k) == s then m[k] else Unobserved
  }

  function Labels(fields: seq<FieldType>): (labels: seq<Bytes>)
    ensures |labels| == |fields|
  {
    seq(|fields|, i requires 0 <= i < |fields| => [0x5B] + fields[i].name + [0x5D])
  }

  function Types(fields: seq<FieldType>): (ts: seq<Type>)
    ensures |ts| == |fields|
  {
    seq(|fields|, i requires 0 <= i < |fields| => fields[i].typ)
  }

  function NoLabels(n: nat): (labels: seq<Bytes>)
    ensures |labels| == n
  {
    seq(n, _ => [])
  }

  function CopiesOf(t: Type, n: nat): (ts: seq<Type>)
    ensures |ts| == n
  {
    seq(n, _ => t)
  }

  /** A value of type `t` that holds `s`, met at nesting level `depth`: nothing below level 8. */
  ghost function Render(s: Tree, t: Type, depth: nat): Bytes
    decreases Levels(depth), 0
  {
    if depth > 8 then []
    else match t
      case IntType =>
        if s.Number? && -0x8000_0000_0000_0000 <= s.i then
          Eight(if s.i < 0 then s.i + 0x1_0000_0000_0000_0000 else s.i)
        else []
      case UintType => if s.Number? && s.i >= 0 then Eight(s.i) else []
      case BoolType => if s.Truth? then [if s.b then 1 else 0] else []
      case StringType => if s.Text? then Eight(|s.s|) + s.s else []
      case StructType(fields) =>
        if s.Node? && |s.children| == |fields| then
          RenderRow(Labels(fields), Types(fields), s.children, depth + 1)
        else []
      case SliceType(elem, _) =>
        if s.Node? then
          Eight(|s.children|) +
          RenderRow(NoLabels(|s.children|), CopiesOf(elem, |s.children|), s.children, depth + 1)
        else []
      case MapType(_, val) => if s.Table? then RenderLines(s.entries, Lines(s.entries), val, depth + 1) else []
      case PointerType(elem) => if s.Node? && |s.children| == 1 then Render(s.children[0], elem, depth + 1) else []
      case _ => []
  }

  /** Fields or elements in order, each after its label. */
  ghost function RenderRow(labels: seq<Bytes>, ts: seq<Type>, ss: seq<Tree>, depth: nat): Bytes
    requires |labels| == |ts| == |ss|
    decreases Levels(depth), 1 + |ss|
  {
    if ss == [] then []
    else labels[0] + Render(ss[0], ts[0], depth) + RenderRow(labels[1..], ts[1..], ss[1..], depth)
  }

  /** The entries of a map with the printed keys `strs`. */
  ghost function RenderLines(m: map<Key, Tree>, strs: seq<Bytes>, t: Type, depth: nat): Bytes
    decreases Levels(depth), 1 + |strs|
  {
    if strs == [] then []
    else [0x7B] + strs[0] + [0x3A] + Render(Under(m, strs[0]), t, depth) + [0x7D] + RenderLines(m, strs[1..], t, depth)
  }

  lemma EightIsBigEndian(n: nat)
    ensures BigEndian(n, 8) == Eight(n)
  {
    var m := n / 0x1_0000_0000;
    LastFour(n, 4);
    LastFour(m, 0);
    assert m / 0x100_0000 == n / 0x100_0000_0000_0000 && m / 0x1_0000 == n / 0x1_0000_0000_0000;
    assert m / 0x100 == n / 0x100_0000_0000;
  }

  lemma LastFour(n: nat, width: nat)
    ensures BigEndian(n, width + 4) ==
            BigEndian(n / 0x1_0000_0000, width) +
            [n / 0x100_0000 % 256, n / 0x1_0000 % 256, n / 0x100 % 256, n % 256]
  {
    LastTwo(n, width + 2);
    LastTwo(n / 0x1_0000, width);
  }

  lemma LastTwo(n: nat, width: nat)
    ensures BigEndian(n, width + 2) == BigEndian(n / 0x1_0000, width) + [n / 0x100 % 256, n % 256]
  {
    assert BigEndian(n / 256, width + 1) == BigEndian(n / 256 / 256, width) + [n / 256 % 256];
  }

  function Prefixes(items: seq<Item>): (r: seq<Bytes>)
    ensures |r| == |items|
  {
    seq(|items|, i requires 0 <= i < |items| => items[i].prefix)
  }

  /** A value writes what its type and contents call for, as long as it is written without the visited set. */
  lemma {:induction false} Rendered(h: Heap, v: Value, t: Type, depth: nat)
    requires HasType(h, v, t)
    ensures Plain(h, v, depth) == Render(State(h, v, t), t, depth)
    decreases Fuel(depth), 0
  {
    if depth <= 8 {
      match t
      case StructType(_) => RenderedNode(h, v, t, depth);
      case SliceType(_, _) => RenderedNode(h, v, t, depth);
      case MapType(_, _) => RenderedMap(h, v, t, depth);
      case PointerType(elem) =>
        if v.target.Some? {
          Rendered(h, Target(h, v.target.value), elem, depth + 1);
        }
      case _ => RenderedScalar(h, v, t, depth);
    }
  }

  lemma RenderedScalar(h: Heap, v: Value, t: Type, depth: nat)
    requires HasType(h, v, t) && Scalar(t) && depth <= 8
    ensures Plain(h, v, depth) == Render(State(h, v, t), t, depth)
  {
    OneKindOfPlain(h, v, depth);
    match t
    case IntType => EightIsBigEndian(ToUint64(v.i));
    case UintType => EightIsBigEndian(v.u);
    case StringType => EightIsBigEndian(|v.s|);
    case _ =>
  }

  lemma StructRendered(t: Type, labels: seq<Bytes>, ts: seq<Type>, ss: seq<Tree>, depth: nat, nested: Bytes)
    requires t.StructType? && |ss| == |t.fields| && depth <= 8 && labels == Labels(t.fields) && ts == Types(t.fields)
    requires nested == RenderRow(labels, ts, ss, depth + 1)
    ensures [] + nested == Render(Node(ss), t, depth)
  {
  }

  lemma SliceRendered(t: Type, labels: seq<Bytes>, ts: seq<Type>, ss: seq<Tree>, depth: nat, nested: Bytes)
    requires t.SliceType? && depth <= 8 && labels == NoLabels(|ss|) && ts == CopiesOf(t.elem, |ss|)
    requires nested == RenderRow(labels, ts, ss, depth + 1)
    ensures BigEndian(|ss|, 8) + nested == Render(Node(ss), t, depth)
  {
    EightIsBigEndian(|ss|);
  }

  lemma MapRendered(t: Type, s: Tree, strs: seq<Bytes>, depth: nat, out: Bytes)
    requires t.MapType? && s.Table? && depth <= 8 && strs == Lines(s.entries)
    requires out == RenderLines(s.entries, strs, t.val, depth + 1)
    ensures out == Render(s, t, depth)
  {
  }

  /** A struct or slice writes its header and its row. */
  lemma RowOfNode(h: Heap, v: Value, t: Type, depth: nat) returns (row: Row, ts: seq<Type>, ss: seq<Tree>)
    requires HasType(h, v, t) && (t.StructType? || t.SliceType?) && v != Slice(None) && depth <= MAX_DEPTH
    ensures RowHasTypes(row, ts) && row.h == h && row.items == Children(h, v)
    ensures ss == RowStates(row, ts) && State(h, v, t) == Node(ss)
    ensures Plain(h, v, depth) ==
            (if t.StructType? then [] else BigEndian(|ss|, 8)) + PlainItems(h, row.items, depth + 1)
    ensures if t.StructType? then Prefixes(row.items) == Labels(t.fields) && ts == Types(t.fields)
            else Prefixes(row.items) == NoLabels(|ss|) && ts == CopiesOf(t.elem, |ss|)
  {
    var p := Place(h, v, []);
    row, ts := ChildRow(p), ChildTypes(p, t);
    NodeState(p, t);
    ss := RowStates(row, ts);
  }

  lemma {:induction false} RenderedNode(h: Heap, v: Value, t: Type, depth: nat)
    requires HasType(h, v, t) && (t.StructType? || t.SliceType?) && depth <= 8
    ensures Plain(h, v, depth) == Render(State(h, v, t), t, depth)
    decreases Fuel(depth + 1), 2 + |Children(h, v)|
  {
    if v == Slice(None) {
      NilRendered(h, t, depth);
    } else {
      var row, ts, ss := RowOfNode(h, v, t, depth);
      RenderedRow(row, ts, depth + 1);
      var nested := PlainItems(h, row.items, depth + 1);
      if t.StructType? {
        StructRendered(t, Prefixes(row.items), ts, ss, depth, nested);
      } else {
        SliceRendered(t, Prefixes(row.items), ts, ss, depth, nested);
      }
    }
  }

  lemma NilRendered(h: Heap, t: Type, depth: nat)
    requires HasType(h, Slice(None), t) && t.SliceType? && depth <= 8
    ensures Plain(h, Slice(None), depth) == Render(State(h, Slice(None), t), t, depth)
  {
    OneKindOfPlain(h, Slice(None), depth);
  }

  lemma {:induction false} RenderedRow(row: Row, ts: seq<Type>, depth: nat)
    requires RowHasTypes(row, ts)
    ensures PlainItems(row.h, row.items, depth) == RenderRow(Prefixes(row.items), ts, RowStates(row, ts), depth)
    decreases Fuel(depth), 1 + |row.items|
  {
    if row.items != [] {
      RowStatesUnfold(row, ts);
      Rendered(row.h, row.items[0].value, ts[0], depth);
      RenderedRow(Rest(row), ts[1..], depth);
      assert Prefixes(row.items)[1..] == Prefixes(Rest(row).items);
      assert RowStates(row, ts)[1..] == RowStates(Rest(row), ts[1..]);
    }
  }

  lemma {:induction false} RenderedMap(h: Heap, v: Value, t: Type, depth: nat)
    requires HasType(h, v, t) && t.MapType? && depth <= 8
    ensures Plain(h, v, depth) == Render(State(h, v, t), t, depth)
    decreases Fuel(depth + 1), 2 + |MapRow(Place(h, v, [])).strs|
  {
    var p := Place(h, v, []);
    var row := MapRow(p);
    MapUnfold(p, depth);
    TableState(p, t);
    SortedKeysHaveTypes(row, t);
    LinesInOrder(row, t);
    EntriesListed(row, t);
    var s := TableOf(h, row.es, t);
    RenderedLines(row, s.entries, t.val, depth + 1);
    MapRendered(t, s, row.strs, depth, Plain(h, v, depth));
  }

  /** The keys are written in the order of the lines. */
  lemma LinesInOrder(row: EntryRow, t: Type)
    requires t.MapType? && EntriesHaveType(row.h, row.es, t)
    requires row.strs == InsertionSort(LexLeq, PrintedKeys(row.es))
    ensures row.strs == Lines(TableOf(row.h, row.es, t).entries)
  {
    var m := TableOf(row.h, row.es, t).entries;
    TableKeys(row.h, row.es, t);
    PrintedDifferently(row.h, row.es, t);
    DistinctMultiset(PrintedKeys(row.es));
    DistinctFromMultiset(row.strs);
    LexTotalPreorder();
    InsertionSortSorted(LexLeq, PrintedKeys(row.es));
    SortedListUnique(LexLeq, row.strs);
    PrintedElements(row, m);
  }

  lemma PrintedElements(row: EntryRow, m: map<Key, Tree>)
    requires m.Keys == KeySet(row.es) && row.strs == InsertionSort(LexLeq, PrintedKeys(row.es))
    ensures Elements(row.strs) == set k | k in m :: Printed(k)
  {
    forall s | s in row.strs
      ensures exists k :: k in m && Printed(k) == s
    {
      var k := KeyOfString(row.es, s);
    }
    forall k | k in m
      ensures Printed(k) in row.strs
    {
      var i :| 0 <= i < |row.es| && row.es[i].0 == k;
      assert PrintedKeys(row.es)[i] == Printed(k);
      assert Printed(k) in multiset(PrintedKeys(row.es));
      assert Printed(k) in multiset(row.strs);
    }
  }

  /** The values that stand in the table under the printed keys. */
  ghost predicate Listed(row: EntryRow, m: map<Key, Tree>, t: Type) {
    && EntryRowHasType(row, t)
    && forall i :: 0 <= i < |row.strs| ==> Under(m, row.strs[i]) == State(row.h, ValueFor(row.es, row.strs[i]), t)
  }

  lemma EntriesListed(row: EntryRow, t: Type)
    requires t.MapType? && EntriesHaveType(row.h, row.es, t)
    requires row.strs == InsertionSort(LexLeq, PrintedKeys(row.es))
    ensures Listed(row, TableOf(row.h, row.es, t).entries, t.val)
  {
    SortedKeysHaveTypes(row, t);
    var m := TableOf(row.h, row.es, t).entries;
    TableKeys(row.h, row.es, t);
    forall i | 0 <= i < |row.strs|
      ensures Under(m, row.strs[i]) == State(row.h, ValueFor(row.es, row.strs[i]), t.val)
    {
      var k := KeyOfString(row.es, row.strs[i]);
      LookupByString(row.h, row.es, t, k);
      forall k' | k' in m && Printed(k') == row.strs[i]
        ensures k' == k
      {
        LookupByString(row.h, row.es, t, k');
        PrintedInjective(k, k', t.keys);
      }
    }
  }

  lemma {:induction false} RenderedLines(row: EntryRow, m: map<Key, Tree>, t: Type, depth: nat)
    requires Listed(row, m, t)
    ensures PlainItems(row.h, EntryItems(row.es, row.strs), depth) == RenderLines(m, row.strs, t, depth)
    decreases Fuel(depth), 1 + |row.strs|
  {
    if row.strs != [] {
      var rest := RestEntries(row);
      Rendered(row.h, ValueFor(row.es, row.strs[0]), t, depth);
      RenderedLines(rest, m, t, depth);
      PlainLine(row, depth);
      assert RenderLines(m, row.strs, t, depth) ==
             [0x7B] + row.strs[0] + [0x3A] + Render(Under(m, row.strs[0]), t, depth) + [0x7D]
             + RenderLines(m, rest.strs, t, depth);
    }
  }

  lemma PlainLine(row: EntryRow, depth: nat)
    requires row.strs != []
    ensures PlainItems(row.h, EntryItems(row.es, row.strs), depth) ==
            [0x7B] + row.strs[0] + [0x3A] + Plain(row.h, ValueFor(row.es, row.strs[0]), depth) + [0x7D]
            + PlainItems(row.h, EntryItems(row.es, RestEntries(row).strs), depth)
  {
    assert EntryItems(row.es, row.strs)[1..] == EntryItems(row.es, RestEntries(row).strs);
  }

  // ---------- The bytes of a snapshot ----------

  /** A walk that meets no pointer twice writes what the type and the contents of its value call for. */
  lemma SnapshotRendered(h: Heap, v: Value, t: Type, f: seq<Address>, depth: nat)
    requires HasType(h, v, t) && Unshared(h, v, f, depth)
    ensures Snapshot(h, v, f, depth).bytes == Render(State(h, v, t), t, depth)
  {
    UnsharedWalk(h, v, f, depth);
    Rendered(h, v, t, depth);
  }

  /** What the tracker writes for its object, which is a pointer. */
  lemma TrackerWrites(h: Heap, obj: Address, t: Type)
    requires HasType(h, Target(h, obj), t) && Unshared(h, Pointer(Some(obj)), [], 0)
    ensures Snapshot(h, Pointer(Some(obj)), [], 0).bytes == Render(State(h, Target(h, obj), t), t, 1)
  {
    SnapshotRendered(h, Target(h, obj), t, [] + [obj], 1);
  }

  // ---------- The fields that are written ----------

  lemma {:induction false} FieldsJoin(a: seq<Field>, b: seq<Field>)
    ensures StructItems(a + b) == StructItems(a) + StructItems(b)
  {
    if a == [] {
      assert a + b == b;
    } else {
      FieldsJoin(a[1..], b);
      assert (a + b)[1..] == a[1..] + b;
      FirstField(a);
      FirstField(a + b);
    }
  }

  lemma FirstField(fields: seq<Field>)
    requires fields != []
    ensures StructItems(fields) == StructItems([fields[0]]) + StructItems(fields[1..])
  {
    assert fields[0].skipped ==> StructItems([fields[0]]) == [];
  }

  /** A field that the filter skips does not show, whatever it holds. */
  lemma SkippedFieldIsSilent(h: Heap, sync: bool, a: seq<Field>, name: Bytes, v: Value, b: seq<Field>,
                             f: seq<Address>, depth: nat)
    ensures Snapshot(h, Struct(sync, a + [Field(name, true, v)] + b), f, depth) ==
            Snapshot(h, Struct(sync, a + b), f, depth)
  {
    SkippedItem(a, name, v, b);
    SameItems(h, Struct(sync, a + [Field(name, true, v)] + b), Struct(sync, a + b), f, depth);
  }

  lemma SkippedItem(a: seq<Field>, name: Bytes, v: Value, b: seq<Field>)
    ensures StructItems(a + [Field(name, true, v)] + b) == StructItems(a + b)
  {
    var x := Field(name, true, v);
    FieldsJoin(a + [x], b);
    FieldsJoin(a, [x]);
    FieldsJoin(a, b);
    assert StructItems([x]) == [];
  }

  lemma SameItems(h: Heap, v: Value, w: Value, f: seq<Address>, depth: nat)
    requires v.Struct? && w.Struct? && Children(h, v) == Children(h, w)
    ensures Snapshot(h, v, f, depth) == Snapshot(h, w, f, depth)
  {
  }

  /** A field that the filter lets pass is written between its neighbours, after its label. */
  lemma TrackedFieldIsWritten(h: Heap, a: seq<Field>, name: Bytes, v: Value, b: seq<Field>)
    ensures Children(h, Struct(false, a + [Field(name, false, v)] + b)) ==
            Children(h, Struct(false, a)) + [Item([0x5B] + name + [0x5D], v, [])] + Children(h, Struct(false, b))
  {
    var x := Field(name, false, v);
    FieldsJoin(a + [x], b);
    FieldsJoin(a, [x]);
    assert StructItems([x]) == [Item([0x5B] + name + [0x5D], v, [])];
  }
}
