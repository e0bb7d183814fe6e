/** The recursive writer of `tracker/tracker.go`, with its shared buffer and visited set. */
module SnapshotWriter {
  import opened GoTypes
  import opened Ordering
  import opened Text
  import opened ObjectGraph

  /** The walk over one value, and over a list of items.  These names are not recursive, so a contract that
      mentions a walk does not make the verifier unfold it at every call of the writer. */
  function ValueWalk(h: Heap, v: Value, followed: seq<Address>, depth: nat): Walk {
    Snapshot(h, v, followed, depth)
  }

  function ItemsWalk(h: Heap, items: seq<Item>, followed: seq<Address>, depth: nat): Walk {
    SnapshotItems(h, items, followed, depth)
  }

  class Writer {
    const heap: Heap
    var buf: Bytes
    var visited: set<Address>
    ghost var followed: seq<Address>

    ghost predicate Valid()
      reads this
    {
      && WellFormed(heap)
      && Distinct(followed)
      && visited == Elements(followed)
    }

    constructor (heap: Heap)
      requires WellFormed(heap)
      ensures Valid() && this.heap == heap && buf == [] && followed == []
    {
      this.heap := heap;
      buf := [];
      visited := {};
      followed := [];
    }

    method WriteUint64(v: nat)
      modifies this`buf
      ensures buf == old(buf) + BigEndian(v, 8)
    {
      buf := buf + BigEndian(v, 8);
    }

    /** The buffer and the followed pointers are those that the walk `w` leaves. */
    twostate predicate Wrote(w: Walk)
      reads this
    {
      Valid() && buf == old(buf) + w.bytes && followed == w.followed
    }

    /** Once `items` are written, the buffer is `goal` and the followed pointers are `last`. */
    ghost predicate Remaining(items: seq<Item>, depth: nat, goal: Bytes, last: seq<Address>)
      reads this
    {
      && Valid()
      && buf + ItemsWalk(heap, items, followed, depth).bytes == goal
      && ItemsWalk(heap, items, followed, depth).followed == last
    }

    method SnapshotVal(v: Value, depth: nat)
      requires Valid()
      modifies this
      ensures Wrote(ValueWalk(heap, v, old(followed), depth))
      decreases Fuel(depth), 1
    {
      if depth > MAX_DEPTH {
        return;
      }
      if !v.Pointer? {
        OneKindOfOutput(heap, v, followed, depth);
      }
      match v
      case Pointer(target) =>
        if target.None? {
          return;
        }
        var ptr := target.value;
        if ptr in visited {
          return;
        }
        visited := visited + {ptr};
        followed := followed + [ptr];
        SnapshotVal(Target(heap, ptr), depth + 1);
      case Struct(_, _) =>
        SnapshotStruct(v, depth);
      case Map(cell) =>
        if cell.None? {
          return;
        }
        SnapshotMap(cell.value, depth);
      case Slice(cell) =>
        if cell.None? {
          return;
        }
        SnapshotSlice(cell.value, depth);
      case Int(i) =>
        WriteUint64(ToUint64(i));
      case Uint(u) =>
        WriteUint64(u);
      case Bool(b) =>
        if b {
          buf := buf + [1];
        } else {
          buf := buf + [0];
        }
      case String(s) =>
        Assoc(buf, BigEndian(|s|, 8), s);
        WriteUint64(|s|);
        buf := buf + s;
      case Other(_) =>
    }

    method SnapshotStruct(v: Value, depth: nat)
      requires Valid() && v.Struct? && depth <= MAX_DEPTH
      modifies this
      ensures
        var items := if v.sync then [] else StructItems(v.fields);
        Wrote(ItemsWalk(heap, items, old(followed), depth + 1))
      decreases Fuel(depth), 0
    {
      if v.sync {
        assert buf + [] == buf;
        return;
      }
      ghost var all := ItemsWalk(heap, StructItems(v.fields), followed, depth + 1);
      ghost var goal := buf + all.bytes;
      assert v.fields[0..] == v.fields;
      var i := 0;
      while i < |v.fields|
        invariant 0 <= i <= |v.fields|
        invariant Remaining(StructItems(v.fields[i..]), depth + 1, goal, all.followed)
      {
        var f := v.fields[i];
        assert v.fields[i..][0] == f && v.fields[i..][1..] == v.fields[i + 1..];
        i := i + 1;
        if f.skipped {
          continue;
        }
        FieldStep(heap, v.fields, i - 1, followed, depth + 1, buf);
        SnapshotField(f.name, f.value, depth + 1);
      }
      assert buf + [] == buf;
    }

    /** The body of the loop over the tracked fields. */
    method SnapshotField(name: Bytes, val: Value, depth: nat)
      requires Valid()
      modifies this
      ensures
        var w := ValueWalk(heap, val, old(followed), depth);
        Wrote(Walk(Label(name) + w.bytes, w.followed))
      decreases Fuel(depth), 2
    {
      buf := buf + Label(name);
      SnapshotVal(val, depth);
    }

    method SnapshotMap(cell: Address, depth: nat)
      requires Valid() && depth <= MAX_DEPTH
      modifies this
      ensures Wrote(ItemsWalk(heap, MapItems(EntriesAt(heap, cell)), old(followed), depth + 1))
      decreases Fuel(depth), 0
    {
      var entries := EntriesAt(heap, cell);
      var strs, keyByStr := SortMapKeys(entries);
      ghost var items := EntryItems(entries, strs);
      ghost var all := ItemsWalk(heap, items, followed, depth + 1);
      ghost var goal := buf + all.bytes;
      assert items[0..] == items;
      for i := 0 to |strs|
        invariant Remaining(items[i..], depth + 1, goal, all.followed)
      {
        var s := strs[i];
        var val := ValueByString(entries, strs, keyByStr, s);
        EntryStep(heap, entries, strs, i, followed, depth + 1, buf);
        SnapshotEntry(s, val, depth + 1);
      }
      assert items[|strs|..] == [] && buf + [] == buf;
    }

    /** The body of the loop over the sorted keys. */
    method SnapshotEntry(s: Bytes, val: Value, depth: nat)
      requires Valid()
      modifies this
      ensures
        var w := ValueWalk(heap, val, old(followed), depth);
        Wrote(Walk([LBRACE] + s + [COLON] + w.bytes + [RBRACE], w.followed))
      decreases Fuel(depth), 2
    {
      ghost var was, nested := buf, ValueWalk(heap, val, followed, depth).bytes;
      buf := buf + [LBRACE] + s + [COLON];
      SnapshotVal(val, depth);
      buf := buf + [RBRACE];
      AssocEntry(was, s, nested);
    }

    method SnapshotSlice(cell: Address, depth: nat)
      requires Valid() && depth <= MAX_DEPTH
      modifies this
      ensures
        var w := ItemsWalk(heap, SliceItems(ElemsAt(heap, cell)), old(followed), depth + 1);
        Wrote(Walk(BigEndian(|ElemsAt(heap, cell)|, 8) + w.bytes, w.followed))
      decreases Fuel(depth), 0
    {
      var elems := ElemsAt(heap, cell);
      ghost var items := SliceItems(elems);
      ghost var all := ItemsWalk(heap, items, followed, depth + 1);
      WriteUint64(|elems|);
      ghost var goal := buf + all.bytes;
      Assoc(old(buf), BigEndian(|elems|, 8), all.bytes);
      assert items[0..] == items;
      for i := 0 to |elems|
        invariant Remaining(items[i..], depth + 1, goal, all.followed)
      {
        ElemStep(heap, elems, i, followed, depth + 1, buf);
        SnapshotVal(elems[i], depth + 1);
      }
      assert items[|elems|..] == [] && buf + [] == buf;
    }
  }

  lemma Assoc(a: Bytes, b: Bytes, c: Bytes)
    ensures a + b + c == a + (b + c)
  {
  }

  lemma AssocEntry(a: Bytes, s: Bytes, nested: Bytes)
    ensures a + [LBRACE] + s + [COLON] + nested + [RBRACE] == a + ([LBRACE] + s + [COLON] + nested + [RBRACE])
  {
  }

  /** Key `k` is present in the map with value `v`. */
  ghost predicate MapIndexes(entries: seq<(Key, Value)>, k: Key, v: Value) {
    exists i :: 0 <= i < |entries| && entries[i] == (k, v)
  }

  lemma MapIndexesAt(entries: seq<(Key, Value)>, k: Key, v: Value)
    requires DistinctKeys(entries) && MapIndexes(entries, k, v)
    ensures (exists i :: 0 <= i < |entries| && entries[i].0 == k) && MapIndex(entries, k) == v
  {
    var i :| 0 <= i < |entries| && entries[i] == (k, v);
    assert entries[i].0 == k;
  }

  /** Each of the strings is mapped to the key that printed it last. */
  ghost predicate KeyTable(entries: seq<(Key, Value)>, strs: seq<Bytes>, keyByStr: map<Bytes, Key>) {
    forall s :: s in strs ==> s in keyByStr && MapIndexes(entries, keyByStr[s], ValueFor(entries, s))
  }

  lemma KeyTableStep(entries: seq<(Key, Value)>, i: nat, strs: seq<Bytes>, keyByStr: map<Bytes, Key>)
    requires i < |entries| && KeyTable(entries[..i], strs, keyByStr)
    ensures
      var s := Printed(entries[i].0);
      KeyTable(entries[..i + 1], strs + [s], keyByStr[s := entries[i].0])
  {
    var longer := entries[..i + 1];
    assert longer[..|longer| - 1] == entries[..i] && longer[i] == entries[i];
    var printed := Printed(entries[i].0);
    var table := keyByStr[printed := entries[i].0];
    forall s | s in strs + [printed]
      ensures s in table && MapIndexes(longer, table[s], ValueFor(longer, s))
    {
      if s == printed {
        assert longer[i] == (table[s], ValueFor(longer, s));
      } else {
        assert s in strs;
        var j :| 0 <= j < i && entries[..i][j] == (keyByStr[s], ValueFor(entries[..i], s));
        assert longer[j] == (table[s], ValueFor(longer, s));
      }
    }
  }

  /** The printed keys in order, and for each of them the key that printed it last. */
  method SortMapKeys(entries: seq<(Key, Value)>) returns (strs: seq<Bytes>, keyByStr: map<Bytes, Key>)
    ensures strs == InsertionSort(LexLeq, PrintedKeys(entries))
    ensures InByteOrder(strs) && multiset(strs) == multiset(PrintedKeys(entries))
    ensures KeyTable(entries, strs, keyByStr)
  {
    strs, keyByStr := [], map[];
    for i := 0 to |entries|
      invariant strs == PrintedKeys(entries)[..i]
      invariant KeyTable(entries[..i], strs, keyByStr)
    {
      KeyTableStep(entries, i, strs, keyByStr);
      var s := Printed(entries[i].0);
      strs := strs + [s];
      keyByStr := keyByStr[s := entries[i].0];
    }
    assert entries[..|entries|] == entries;
    assert strs == PrintedKeys(entries);
    strs := SortStrings(strs);
    assert forall s :: s in strs ==> s in Elements(strs);
  }

  /** `v.MapIndex(keyByStr[s])`. */
  method ValueByString(entries: seq<(Key, Value)>, ghost strs: seq<Bytes>, keyByStr: map<Bytes, Key>, s: Bytes)
    returns (v: Value)
    requires DistinctKeys(entries) && KeyTable(entries, strs, keyByStr) && s in strs
    ensures v == ValueFor(entries, s)
  {
    MapIndexesAt(entries, keyByStr[s], ValueFor(entries, s));
    v := MapIndex(entries, keyByStr[s]);
  }

  /** Writing item `i`, then the later ones. */
  lemma ItemStep(h: Heap, items: seq<Item>, i: nat, followed: seq<Address>, depth: nat, buf: Bytes)
    requires i < |items|
    ensures
      var all := ItemsWalk(h, items[i..], followed, depth);
      var first := ValueWalk(h, items[i].value, followed, depth);
      var rest := ItemsWalk(h, items[i + 1..], first.followed, depth);
      && all.followed == rest.followed
      && buf + all.bytes == buf + items[i].prefix + first.bytes + items[i].suffix + rest.bytes
  {
    assert items[i..][0] == items[i] && items[i..][1..] == items[i + 1..];
  }

  /** Writing element `i` of a slice, then the later ones. */
  lemma ElemStep(h: Heap, elems: seq<Value>, i: nat, followed: seq<Address>, depth: nat, buf: Bytes)
    requires i < |elems|
    ensures
      var all := ItemsWalk(h, SliceItems(elems)[i..], followed, depth);
      var first := ValueWalk(h, elems[i], followed, depth);
      var rest := ItemsWalk(h, SliceItems(elems)[i + 1..], first.followed, depth);
      all.followed == rest.followed && buf + all.bytes == buf + first.bytes + rest.bytes
  {
    ItemStep(h, SliceItems(elems), i, followed, depth, buf);
    assert buf + [] == buf;
    var first := ValueWalk(h, elems[i], followed, depth).bytes;
    assert buf + first + [] == buf + first;
  }

  /** Writing tracked field `i` of a struct, then the later ones. */
  lemma FieldStep(h: Heap, fields: seq<Field>, i: nat, followed: seq<Address>, depth: nat, buf: Bytes)
    requires i < |fields| && !fields[i].skipped
    ensures
      var all := ItemsWalk(h, StructItems(fields[i..]), followed, depth);
      var first := ValueWalk(h, fields[i].value, followed, depth);
      var rest := ItemsWalk(h, StructItems(fields[i + 1..]), first.followed, depth);
      && all.followed == rest.followed
      && buf + all.bytes == buf + (Label(fields[i].name) + first.bytes) + rest.bytes
  {
    var items := StructItems(fields[i..]);
    assert fields[i..][1..] == fields[i + 1..];
    assert items[0..] == items && items[1..] == StructItems(fields[i + 1..]);
    ItemStep(h, items, 0, followed, depth, buf);
    var written := buf + Label(fields[i].name) + ValueWalk(h, fields[i].value, followed, depth).bytes;
    assert written + [] == written;
  }

  /** Writing entry `i` of a map, then the later ones. */
  lemma EntryStep(h: Heap, entries: seq<(Key, Value)>, strs: seq<Bytes>, i: nat, followed: seq<Address>, depth: nat,
                  buf: Bytes)
    requires i < |strs|
    ensures
      var all := ItemsWalk(h, EntryItems(entries, strs)[i..], followed, depth);
      var first := ValueWalk(h, ValueFor(entries, strs[i]), followed, depth);
      var rest := ItemsWalk(h, EntryItems(entries, strs)[i + 1..], first.followed, depth);
      && all.followed == rest.followed
      && buf + all.bytes == buf + ([LBRACE] + strs[i] + [COLON] + first.bytes + [RBRACE]) + rest.bytes
  {
    ItemStep(h, EntryItems(entries, strs), i, followed, depth, buf);
  }

  /** `SnapshotOutOfKVStoreState`: the walk from the tracked object; an empty buffer gives nil. */
  method SnapshotOutOfKVStoreState(heap: Heap, obj: Value) returns (r: Option<Bytes>)
    requires WellFormed(heap)
    ensures
      var bytes := Snapshot(heap, obj, [], 0).bytes;
      r == if bytes == [] then None else Some(bytes)
  {
    var w := new Writer(heap);
    w.SnapshotVal(obj, 0);
    assert w.buf == Snapshot(heap, obj, [], 0).bytes;
    if |w.buf| == 0 {
      return None;
    }
    return Some(w.buf);
  }
}
