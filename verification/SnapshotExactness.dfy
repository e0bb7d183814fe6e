/** On every type without pointers that is not decodable, or does not fit within the depth limit, two different states
    write the same bytes.  Together with `SnapshotDecoding` this says exactly when equal snapshots mean equal state. */
module SnapshotExactness {
  import opened GoTypes
  import opened Ordering
  import opened Text
  import opened ObjectGraph
  import opened SnapshotTypes
  import opened SnapshotPlain
  import opened SnapshotDecoding
  import opened SnapshotBuilding
  import opened SnapshotTwins

  /** The snapshot of a value on its own. */
  function Taken(h: Heap, v: Value, depth: nat): Bytes {
    Snapshot(h, v, [], depth).bytes
  }

  /** Values of the type, in whatever heaps, write the same bytes only if they hold the same. */
  ghost predicate Injective(t: Type, depth: nat) {
    forall h, v, h', v' | HasType(h, v, t) && HasType(h', v', t) ::
      Taken(h, v, depth) == Taken(h', v', depth) ==> State(h, v, t) == State(h', v', t)
  }

  // ---------- The exact condition ----------

  /** Every type that is not decodable, or has more than one state below the depth limit, has two values that hold
      different states and write the same bytes. */
  lemma {:induction false} Collision(t: Type, depth: nat) returns (h: Heap, v: Value, w: Value)
    requires PointerFree(t) && !(Decodable(t) && Fits(t, depth))
    ensures Grows(h, v, w, t, depth, [])
    decreases t
  {
    if depth > MAX_DEPTH {
      h, v, w := BelowLimit(t, depth);
    } else {
      match t
      case StructType(fields) =>
        var i := BadField(fields, depth);
        h, v, w := Collision(fields[i].typ, depth + 1);
        StructGrows(h, fields, i, v, w, depth, []);
        v, w := StructOf(fields, OneField(fields, i, v)), StructOf(fields, OneField(fields, i, w));
      case SliceType(elem, nilable) =>
        if !(Decodable(elem) && Fits(elem, depth + 1)) {
          h, v, w := Collision(elem, depth + 1);
          h, v, w := SliceGrows(h, v, w, elem, nilable, depth, []);
        } else {
          h, v, w := BadSlice(elem, nilable, depth);
        }
      case MapType(keys, val) =>
        if !(Decodable(val) && Fits(val, depth + 1)) {
          h, v, w := Collision(val, depth + 1);
          h, v, w := MapsCollide(h, v, w, keys, val, depth);
        } else {
          h, v, w := ColonsCollide(val, depth);
        }
      case _ =>
        h, v, w := UnhandledCollide(depth);
    }
  }

  /** Below the depth limit nothing is written. */
  lemma BelowLimit(t: Type, depth: nat) returns (h: Heap, v: Value, w: Value)
    requires PointerFree(t) && !(Decodable(t) && Fits(t, depth)) && depth > MAX_DEPTH
    ensures Grows(h, v, w, t, depth, [])
  {
    if Single(t) {
      SingleClosed(t);
    }
    h, v, w := TwoStates(t);
    Twins(h, v, w, t, depth);
  }

  lemma BadField(fields: seq<FieldType>, depth: nat) returns (i: nat)
    requires PointerFree(StructType(fields)) && depth <= MAX_DEPTH
    requires !(Decodable(StructType(fields)) && Fits(StructType(fields), depth))
    ensures i < |fields| && !(Decodable(fields[i].typ) && Fits(fields[i].typ, depth + 1))
  {
    forall j | 0 <= j < |fields|
      ensures !LabelOpen(fields[j].typ)
    {
      PointerFreeNotLabelOpen(fields[j].typ);
    }
    i :| 0 <= i < |fields| && !(Decodable(fields[i].typ) && Fits(fields[i].typ, depth + 1));
  }

  lemma BadSlice(elem: Type, nilable: bool, depth: nat) returns (h: Heap, v: Value, w: Value)
    requires PointerFree(elem) && Decodable(elem) && Fits(elem, depth + 1) && depth <= MAX_DEPTH
    requires !Decodable(SliceType(elem, nilable))
    ensures Grows(h, v, w, SliceType(elem, nilable), depth, [])
  {
    PointerFreeNotLabelOpen(elem);
    if elem.MapType? {
      h, v, w := MapElementsCollide(elem.keys, elem.val, nilable, depth);
    } else {
      h, v, w := SlicesCollide(elem, nilable, depth);
    }
  }

  /** The walk has no case for floats, arrays and interfaces: nothing of what they hold shows. */
  lemma UnhandledCollide(depth: nat) returns (h: Heap, v: Value, w: Value)
    ensures Grows(h, v, w, UnhandledType, depth, [])
  {
    h, v, w := BASE, Other(0), Other(1);
    CancelEmpty(Header(h, v));
  }

  lemma PointerFreeBytes(h: Heap, v: Value, t: Type, f: seq<Address>, depth: nat)
    requires HasType(h, v, t) && PointerFree(t)
    ensures Snapshot(h, v, f, depth).bytes == Plain(h, v, depth)
  {
    PointerFreeUnshared(h, v, t, f, depth);
    UnsharedWalk(h, v, f, depth);
  }

  /** For types without pointers: equal snapshots always mean equal state exactly when the type is decodable and
      all its state lies at levels up to 8. */
  lemma SnapshotDecidesExactly(t: Type, depth: nat)
    requires PointerFree(t)
    ensures Injective(t, depth) <==> Decodable(t) && WithinLevelEight(t, depth)
  {
    FitsExactly(t, depth);
    if Decodable(t) && Fits(t, depth) {
      forall h, v, h', v' | HasType(h, v, t) && HasType(h', v', t) && Taken(h, v, depth) == Taken(h', v', depth)
        ensures State(h, v, t) == State(h', v', t)
      {
        PointerFreeBytes(h, v, t, [], depth);
        PointerFreeBytes(h', v', t, [], depth);
        PlainDecides(h, v, h', v', t, depth);
      }
    } else {
      var h, v, w := Collision(t, depth);
      Twins(h, v, w, t, depth);
      PointerFreeBytes(h, v, t, [], depth);
      PointerFreeBytes(h, w, t, [], depth);
    }
  }

  /** What the tracker would have to report: whether the state behind the pointer is the same. */
  ghost predicate TellsMutations(t: Type) {
    forall before, after, obj | HasType(before, Target(before, obj), t) && HasType(after, Target(after, obj), t) ::
      Taken(before, Pointer(Some(obj)), 0) == Taken(after, Pointer(Some(obj)), 0) ==>
        State(before, Target(before, obj), t) == State(after, Target(after, obj), t)
  }

  lemma PointerBytes(h: Heap, obj: Address, t: Type)
    requires HasType(h, Target(h, obj), t) && PointerFree(t)
    ensures Taken(h, Pointer(Some(obj)), 0) == Plain(h, Target(h, obj), 1)
  {
    assert [] + [obj] == [obj];
    PointerFreeBytes(h, Target(h, obj), t, [obj], 1);
  }

  /** The tracker misses no mutation of an object without pointers inside exactly when its type is decodable and all
      its state lies at levels up to 8, the one right behind the pointer being level 1. */
  lemma TrackerDecidesExactly(t: Type)
    requires PointerFree(t)
    ensures TellsMutations(t) <==> Decodable(t) && WithinLevelEight(t, 1)
  {
    FitsExactly(t, 1);
    if Decodable(t) && Fits(t, 1) {
      forall before, after, obj | HasType(before, Target(before, obj), t) && HasType(after, Target(after, obj), t)
          && Taken(before, Pointer(Some(obj)), 0) == Taken(after, Pointer(Some(obj)), 0)
        ensures State(before, Target(before, obj), t) == State(after, Target(after, obj), t)
      {
        PointerBytes(before, obj, t);
        PointerBytes(after, obj, t);
        PlainDecides(before, Target(before, obj), after, Target(after, obj), t, 1);
      }
    } else {
      MissedMutation(t);
    }
  }

  /** A mutation that the tracker misses. */
  lemma MissedMutation(t: Type)
    requires PointerFree(t) && !(Decodable(t) && Fits(t, 1))
    ensures !TellsMutations(t)
  {
    var h, v, w := Collision(t, 1);
    Twins(h, v, w, t, 1);
    var obj := Above(h.Keys);
    Behind(h, obj, v, t);
    Behind(h, obj, w, t);
    Untold(h[obj := Cell.Pointee(v)], h[obj := Cell.Pointee(w)], obj, t);
  }

  lemma Untold(before: Heap, after: Heap, obj: Address, t: Type)
    requires HasType(before, Target(before, obj), t) && HasType(after, Target(after, obj), t)
    requires Taken(before, Pointer(Some(obj)), 0) == Taken(after, Pointer(Some(obj)), 0)
    requires State(before, Target(before, obj), t) != State(after, Target(after, obj), t)
    ensures !TellsMutations(t)
  {
  }

  lemma Behind(h: Heap, obj: Address, v: Value, t: Type)
    requires Good(h, v, t) && PointerFree(t) && obj !in h
    ensures
      var k := h[obj := Cell.Pointee(v)];
      && HasType(k, Target(k, obj), t) && State(k, Target(k, obj), t) == State(h, v, t)
      && Taken(k, Pointer(Some(obj)), 0) == Plain(h, v, 1)
  {
    var k := h[obj := Cell.Pointee(v)];
    Persist(h, k, v, t, 1);
    PointerBytes(k, obj, t);
  }
}
