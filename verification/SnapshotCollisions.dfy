/** What snapshots do not show: where silent elements stand, shared pointers, and pointers to numbers. */
module SnapshotCollisions {
  import opened GoTypes
  import opened Ordering
  import opened Text
  import opened ObjectGraph
  import opened SnapshotTypes
  import opened SnapshotPlain
  import opened SnapshotBuilding
  import opened SnapshotExactness
  import opened SnapshotTraversal

  /** Values that write nothing and follow nothing, wherever they are met. */
  predicate Silent(h: Heap, v: Value) {
    || v == Pointer(None)
    || (!v.Pointer? && Header(h, v) == [] && Children(h, v) == [])
  }

  function Loud(h: Heap, elems: seq<Value>): seq<Value> {
    if elems == [] then []
    else if Silent(h, elems[0]) then Loud(h, elems[1..])
    else [elems[0]] + Loud(h, elems[1..])
  }

  lemma SilentWritesNothing(h: Heap, v: Value, followed: seq<Address>, depth: nat)
    requires Silent(h, v)
    ensures Snapshot(h, v, followed, depth) == Walk([], followed)
  {
    if !v.Pointer? && depth <= MAX_DEPTH {
      OneKindOfOutput(h, v, followed, depth);
    }
  }

  /** Only the length of a slice and its elements that write something matter: where the nil slices, nil
      or empty maps, nil pointers and unhandled kinds stand among them does not show. */
  lemma {:induction false} SilentElementsDropped(h: Heap, elems: seq<Value>, followed: seq<Address>, depth: nat)
    ensures SnapshotItems(h, SliceItems(elems), followed, depth) ==
            SnapshotItems(h, SliceItems(Loud(h, elems)), followed, depth)
  {
    if elems != [] {
      var v, rest := elems[0], elems[1..];
      var w := Snapshot(h, v, followed, depth);
      assert SliceItems(elems)[1..] == SliceItems(rest);
      SilentElementsDropped(h, rest, w.followed, depth);
      var tail := SnapshotItems(h, SliceItems(rest), w.followed, depth);
      assert SnapshotItems(h, SliceItems(elems), followed, depth).bytes == [] + w.bytes + [] + tail.bytes;
      if Silent(h, v) {
        SilentWritesNothing(h, v, followed, depth);
        assert [] + [] + [] + tail.bytes == tail.bytes;
      } else {
        assert SliceItems(Loud(h, elems))[1..] == SliceItems(Loud(h, rest));
      }
    }
  }

  /** Slices of one length with the same loud elements collide. */
  lemma SilentElementsCollide(h: Heap, a: Address, b: Address, followed: seq<Address>, depth: nat)
    requires |ElemsAt(h, a)| == |ElemsAt(h, b)| && Loud(h, ElemsAt(h, a)) == Loud(h, ElemsAt(h, b))
    ensures Snapshot(h, Slice(Some(a)), followed, depth) == Snapshot(h, Slice(Some(b)), followed, depth)
  {
    SilentElementsDropped(h, ElemsAt(h, a), followed, depth + 1);
    SilentElementsDropped(h, ElemsAt(h, b), followed, depth + 1);
  }

  // ---------- Shared pointers ----------

  /** A pointer that was followed before looks nil. */
  lemma {:induction false} FollowedLooksNil(h: Heap, items: seq<Item>, j: nat, p: Address,
                                            followed: seq<Address>, depth: nat)
    requires j < |items| && items[j].value == Pointer(Some(p)) && p in followed
    ensures SnapshotItems(h, items, followed, depth) ==
            SnapshotItems(h, items[j := items[j].(value := Pointer(None))], followed, depth)
  {
    var others := items[j := items[j].(value := Pointer(None))];
    if j == 0 {
      assert others[1..] == items[1..];
    } else {
      var w := Snapshot(h, items[0].value, followed, depth);
      FollowedOnce(h, items[0].value, followed, depth);
      assert others[1..] == items[1..][j - 1 := items[j].(value := Pointer(None))];
      FollowedLooksNil(h, items[1..], j - 1, p, w.followed, depth);
    }
  }

  lemma {:induction false} SharedLooksNil(h: Heap, items: seq<Item>, i: nat, j: nat, p: Address,
                                          followed: seq<Address>, depth: nat)
    requires i < j < |items| && items[i].value == Pointer(Some(p)) == items[j].value && depth <= MAX_DEPTH
    ensures SnapshotItems(h, items, followed, depth) ==
            SnapshotItems(h, items[j := items[j].(value := Pointer(None))], followed, depth)
  {
    var others := items[j := items[j].(value := Pointer(None))];
    var w := Snapshot(h, items[0].value, followed, depth);
    assert others[1..] == items[1..][j - 1 := items[j].(value := Pointer(None))];
    if i == 0 {
      PointerFollowed(h, p, followed, depth);
      FollowedLooksNil(h, items[1..], j - 1, p, w.followed, depth);
    } else {
      SharedLooksNil(h, items[1..], i - 1, j - 1, p, w.followed, depth);
    }
  }

  lemma PointerFollowed(h: Heap, p: Address, followed: seq<Address>, depth: nat)
    requires depth <= MAX_DEPTH
    ensures p in Snapshot(h, Pointer(Some(p)), followed, depth).followed
  {
    if p !in followed {
      FollowedOnce(h, Target(h, p), followed + [p], depth + 1);
      assert (followed + [p])[|followed|] == p;
    }
  }

  /** In any struct, slice or map: when two of the nested values are one pointer, the second of them may as well be
      nil.  So where two pointers can hold the same address, equal snapshots do not mean equal state. */
  lemma SharedPointersCollide(h: Heap, v: Value, w: Value, items: seq<Item>, i: nat, j: nat, p: Address,
                              followed: seq<Address>, depth: nat)
    requires !v.Pointer? && !w.Pointer? && Header(h, v) == Header(h, w) && Children(h, v) == items
    requires i < j < |items| && items[i].value == Pointer(Some(p)) == items[j].value
    requires Children(h, w) == items[j := items[j].(value := Pointer(None))]
    ensures Snapshot(h, v, followed, depth) == Snapshot(h, w, followed, depth)
  {
    if depth <= MAX_DEPTH {
      CompositeWalk(h, v, followed, depth);
      CompositeWalk(h, w, followed, depth);
      SharedItems(h, items, i, j, p, followed, depth + 1);
    }
  }

  /** A struct with two pointers of one type: as soon as pointers may be shared, equal snapshots do not mean equal
      state, whatever the pointers point to. */
  lemma SharedFieldsCollide(fields: seq<FieldType>, i: nat, j: nat, elem: Type, depth: nat)
    requires i < j < |fields| && fields[i].typ == fields[j].typ == PointerType(elem)
    ensures !Injective(StructType(fields), depth)
  {
    var h := BASE[1 := Cell.Pointee(Zero(elem))];
    ZeroGood(h, elem);
    var p := Pointer(Some(1));
    var v, w := SharedPair(h, fields, i, j, p, elem, depth);
  }

  /** The same pointer in both fields, and only in the first. */
  lemma SharedPair(h: Heap, fields: seq<FieldType>, i: nat, j: nat, p: Value, elem: Type, depth: nat)
    returns (v: Value, w: Value)
    requires i < j < |fields| && fields[i].typ == fields[j].typ == PointerType(elem)
    requires Good(h, p, PointerType(elem)) && p.target.Some?
    ensures HasType(h, v, StructType(fields)) && HasType(h, w, StructType(fields))
    ensures State(h, v, StructType(fields)) != State(h, w, StructType(fields))
    ensures Taken(h, v, depth) == Taken(h, w, depth)
  {
    PointsTwice(h, fields, i, j, p, elem);
    var ws := OneField(fields, i, p);
    var vs := ws[j := p];
    v, w := StructOf(fields, vs), StructOf(fields, ws);
    StructGood(h, fields, vs);
    StructGood(h, fields, ws);
    DifferAt(h, fields, vs, ws, j);
    SharedItem(fields, i, j, p);
    SharedPointersCollide(h, v, w, ItemsOf(fields, vs), i, j, p.target.value, [], depth);
  }

  lemma SharedItem(fields: seq<FieldType>, i: nat, j: nat, p: Value)
    requires i < j < |fields| && fields[j].typ.PointerType?
    ensures
      var items := ItemsOf(fields, OneField(fields, i, p)[j := p]);
      ItemsOf(fields, OneField(fields, i, p)) == items[j := items[j].(value := Pointer(None))]
  {
  }

  lemma PointsTwice(h: Heap, fields: seq<FieldType>, i: nat, j: nat, p: Value, elem: Type)
    requires i < j < |fields| && fields[i].typ == fields[j].typ == PointerType(elem) && Good(h, p, PointerType(elem))
    ensures FieldsGood(h, fields, OneField(fields, i, p)) && FieldsGood(h, fields, OneField(fields, i, p)[j := p])
  {
    OneFieldGood(h, fields, i, p);
  }

  lemma SharedItems(h: Heap, items: seq<Item>, i: nat, j: nat, p: Address, followed: seq<Address>, depth: nat)
    requires i < j < |items| && items[i].value == Pointer(Some(p)) == items[j].value
    ensures SnapshotItems(h, items, followed, depth) ==
            SnapshotItems(h, items[j := items[j].(value := Pointer(None))], followed, depth)
  {
    if depth <= MAX_DEPTH {
      SharedLooksNil(h, items, i, j, p, followed, depth);
    } else {
      BeyondLimit(h, items, items[j := items[j].(value := Pointer(None))], followed, depth);
    }
  }

  lemma CompositeWalk(h: Heap, v: Value, followed: seq<Address>, depth: nat)
    requires !v.Pointer? && depth <= MAX_DEPTH
    ensures
      var w := SnapshotItems(h, Children(h, v), followed, depth + 1);
      Snapshot(h, v, followed, depth) == Walk(Header(h, v) + w.bytes, w.followed)
  {
  }

  /** Below the depth limit only the labels are written. */
  lemma {:induction false} BeyondLimit(h: Heap, items: seq<Item>, others: seq<Item>, followed: seq<Address>, depth: nat)
    requires depth > MAX_DEPTH && |items| == |others|
    requires forall k :: 0 <= k < |items| ==> items[k].prefix == others[k].prefix && items[k].suffix == others[k].suffix
    ensures SnapshotItems(h, items, followed, depth) == SnapshotItems(h, others, followed, depth)
  {
    if items != [] {
      BeyondLimit(h, items[1..], others[1..], followed, depth);
    }
  }

  // ---------- Pointers to numbers ----------

  /** The number with these big-endian bytes. */
  function NumberOf(b: Bytes): nat {
    if b == [] then 0 else NumberOf(b[..|b| - 1]) * 256 + b[|b| - 1]
  }

  lemma {:induction false} NumberBytes(b: Bytes)
    ensures NumberOf(b) < Power256(|b|) && BigEndian(NumberOf(b), |b|) == b
  {
    if b != [] {
      var front := b[..|b| - 1];
      NumberBytes(front);
      assert NumberOf(b) / 256 == NumberOf(front) && NumberOf(b) % 256 == b[|b| - 1];
      assert b == front + [b[|b| - 1]];
    }
  }

  /** The value whose header is these eight bytes. */
  function UintOf(b: Bytes): Value
    requires |b| == 8
  {
    NumberBytes(b);
    EightBytes();
    Uint(NumberOf(b))
  }

  /** A struct of two pointers to unsigned integers, in fields `a` and `b`. */
  function PairType(a: Bytes, b: Bytes): Type {
    StructType([FieldType(a, PointerType(UintType)), FieldType(b, PointerType(UintType))])
  }

  function PairOf(a: Bytes, b: Bytes, x: Option<Address>, y: Option<Address>): Value {
    StructOf(PairType(a, b).fields, [Pointer(x), Pointer(y)])
  }

  function PointeeBytes(h: Heap, a: Option<Address>): Bytes {
    if a.None? then [] else Header(h, Target(h, a.value))
  }

  /** Nil, or a pointer to an unsigned integer in the heap. */
  ghost predicate ToUint(h: Heap, x: Option<Address>) {
    x.Some? ==> x.value in h && h[x.value].Pointee? && h[x.value].value.Uint?
  }

  lemma PairGood(h: Heap, a: Bytes, b: Bytes, x: Option<Address>, y: Option<Address>)
    requires 0 in h && h[0] == Elems([]) && ToUint(h, x) && ToUint(h, y)
    ensures Good(h, PairOf(a, b, x, y), PairType(a, b))
    ensures Children(h, PairOf(a, b, x, y)) == [Item(Label(a), Pointer(x), []), Item(Label(b), Pointer(y), [])]
    ensures State(h, PairOf(a, b, x, y), PairType(a, b)).Node?
    ensures |State(h, PairOf(a, b, x, y), PairType(a, b)).children| == 2
    ensures State(h, PairOf(a, b, x, y), PairType(a, b)).children[0] == State(h, Pointer(x), PointerType(UintType))
  {
    StructGood(h, PairType(a, b).fields, [Pointer(x), Pointer(y)]);
  }

  lemma PairBytes(h: Heap, a: Bytes, b: Bytes, x: Option<Address>, y: Option<Address>, depth: nat)
    requires 0 in h && h[0] == Elems([]) && ToUint(h, x) && ToUint(h, y)
    requires (x.None? || y.None?) && depth + 2 <= MAX_DEPTH
    ensures Snapshot(h, PairOf(a, b, x, y), [], depth).bytes ==
            Label(a) + PointeeBytes(h, x) + (Label(b) + PointeeBytes(h, y))
  {
    PairGood(h, a, b, x, y);
    var v, first, second := PairOf(a, b, x, y), Item(Label(a), Pointer(x), []), Item(Label(b), Pointer(y), []);
    OneKindOfOutput(h, v, [], depth);
    var f := PointeeWalk(h, x, [], depth + 1);
    var g := PointeeWalk(h, y, f, depth + 1);
    assert [first, second][1..] == [second] && [second][1..] == [];
    TwoLabelled(Label(a), PointeeBytes(h, x), Label(b), PointeeBytes(h, y));
    assert SnapshotItems(h, [second], f, depth + 1).bytes ==
           Label(b) + PointeeBytes(h, y) + [] + SnapshotItems(h, [], g, depth + 1).bytes;
  }

  lemma TwoLabelled(l: Bytes, x: Bytes, m: Bytes, y: Bytes)
    ensures l + x + [] + (m + y + [] + []) == l + x + (m + y)
  {
  }

  /** A pointer to a number writes the number. */
  lemma PointeeWalk(h: Heap, x: Option<Address>, f: seq<Address>, depth: nat) returns (g: seq<Address>)
    requires ToUint(h, x) && (x.Some? ==> x.value !in f) && depth < MAX_DEPTH
    ensures Snapshot(h, Pointer(x), f, depth) == Walk(PointeeBytes(h, x), g)
    ensures x.None? ==> g == f
  {
    g := Snapshot(h, Pointer(x), f, depth).followed;
    if x.Some? {
      OneKindOfOutput(h, Target(h, x.value), f + [x.value], depth + 1);
    }
  }

  /** Pointers to numbers do not decode, shared or not: when the label of the second field takes at most eight bytes,
      nil before a number that ends in the label looks like a number that starts with the label before nil. */
  lemma PointerFieldsCollide(a: Bytes, b: Bytes, depth: nat) returns (h: Heap, v: Value, w: Value)
    requires |b| <= 6 && depth + 2 <= MAX_DEPTH
    ensures HasType(h, v, PairType(a, b)) && HasType(h, w, PairType(a, b))
    ensures State(h, v, PairType(a, b)) != State(h, w, PairType(a, b))
    ensures Snapshot(h, v, [], depth).bytes == Snapshot(h, w, [], depth).bytes
  {
    var z: Bytes := seq(6 - |b|, _ => 0);
    h := map[0 := Elems([]), 1 := Cell.Pointee(UintOf(z + Label(b))), 2 := Cell.Pointee(UintOf(Label(b) + z))];
    v, w := PairOf(a, b, None, Some(1)), PairOf(a, b, Some(2), None);
    PairsCollide(h, a, b, z, 1, 2, depth);
    PairGood(h, a, b, None, Some(1));
    PairGood(h, a, b, Some(2), None);
  }

  lemma PairsCollide(h: Heap, a: Bytes, b: Bytes, z: Bytes, p: Address, q: Address, depth: nat)
    requires 0 in h && h[0] == Elems([]) && |z| + |Label(b)| == 8 && depth + 2 <= MAX_DEPTH
    requires p in h && h[p] == Cell.Pointee(UintOf(z + Label(b)))
    requires q in h && h[q] == Cell.Pointee(UintOf(Label(b) + z))
    ensures Snapshot(h, PairOf(a, b, None, Some(p)), [], depth).bytes ==
            Snapshot(h, PairOf(a, b, Some(q), None), [], depth).bytes
  {
    PairBytes(h, a, b, None, Some(p), depth);
    PairBytes(h, a, b, Some(q), None, depth);
    NumberBytes(z + Label(b));
    NumberBytes(Label(b) + z);
    LabelMoves(Label(a), Label(b), z);
  }

  lemma LabelMoves(l: Bytes, m: Bytes, z: Bytes)
    ensures l + [] + (m + (z + m)) == l + (m + z) + (m + [])
  {
  }
}
