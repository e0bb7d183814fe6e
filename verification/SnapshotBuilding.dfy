/** Values of given types, built up in heaps that grow, and the bytes that they write. */
module SnapshotBuilding {
  import opened GoTypes
  import opened Ordering
  import opened Text
  import opened ObjectGraph
  import opened SnapshotTypes
  import opened SnapshotPlain
  import opened SnapshotDecoding

  // ---------- Heaps that grow ----------

  ghost predicate Extends(h: Heap, k: Heap) {
    forall a :: a in h ==> a in k && k[a] == h[a]
  }

  /** All that the value holds is allocated. */
  ghost predicate Stored(h: Heap, v: Value, t: Type)
    requires HasType(h, v, t)
    decreases t
  {
    match t
    case StructType(fields) =>
      forall i :: 0 <= i < |fields| ==> Stored(h, Children(h, v)[i].value, fields[i].typ)
    case SliceType(elem, _) =>
      v.cell.Some? ==>
        && v.cell.value in h
        && forall i :: 0 <= i < |Children(h, v)| ==> Stored(h, Children(h, v)[i].value, elem)
    case MapType(_, val) =>
      v.cell.Some? ==>
        && v.cell.value in h
        && forall i :: 0 <= i < |EntriesAt(h, v.cell.value)| ==> Stored(h, EntriesAt(h, v.cell.value)[i].1, val)
    case PointerType(elem) =>
      v.target.Some? ==>
        && v.target.value in h && h[v.target.value].Pointee?
        && Stored(h, Target(h, v.target.value), elem)
    case _ => true
  }

  /** A value of the type, in a heap with an empty slice at address 0. */
  ghost predicate Good(h: Heap, v: Value, t: Type) {
    0 in h && h[0] == Elems([]) && HasType(h, v, t) && Stored(h, v, t)
  }

  const BASE: Heap := map[0 := Elems([])]

  lemma {:induction false} Frame(h: Heap, k: Heap, v: Value, t: Type)
    requires Good(h, v, t) && Extends(h, k)
    ensures Good(k, v, t) && State(k, v, t) == State(h, v, t)
    decreases t
  {
    match t
    case StructType(fields) =>
      forall i | 0 <= i < |fields|
        ensures Good(k, Children(h, v)[i].value, fields[i].typ)
        ensures State(k, Children(h, v)[i].value, fields[i].typ) == State(h, Children(h, v)[i].value, fields[i].typ)
      {
        Frame(h, k, Children(h, v)[i].value, fields[i].typ);
      }
    case SliceType(elem, _) =>
      if v.cell.Some? {
        assert Children(k, v) == Children(h, v);
        forall i | 0 <= i < |Children(h, v)|
          ensures Good(k, Children(h, v)[i].value, elem)
          ensures State(k, Children(h, v)[i].value, elem) == State(h, Children(h, v)[i].value, elem)
        {
          Frame(h, k, Children(h, v)[i].value, elem);
        }
      }
    case MapType(_, val) =>
      if v.cell.Some? {
        FrameMap(h, k, v, t);
      }
    case PointerType(elem) =>
      if v.target.Some? {
        Frame(h, k, Target(h, v.target.value), elem);
      }
    case _ =>
  }

  lemma {:induction false} FrameMap(h: Heap, k: Heap, v: Value, t: Type)
    requires Good(h, v, t) && Extends(h, k) && t.MapType? && v.cell.Some?
    ensures Good(k, v, t) && State(k, v, t) == State(h, v, t)
    decreases t, 0
  {
    var es := EntriesAt(h, v.cell.value);
    assert EntriesAt(k, v.cell.value) == es;
    forall i | 0 <= i < |es|
      ensures Good(k, es[i].1, t.val)
      ensures State(k, es[i].1, t.val) == State(h, es[i].1, t.val)
    {
      Frame(h, k, es[i].1, t.val);
    }
    SameTableOf(h, k, es, t);
    TableState(Place(h, v, []), t);
    TableState(Place(k, v, []), t);
  }

  /** Entries whose values hold the same in two heaps are the same table in both. */
  lemma SameTableOf(h: Heap, k: Heap, es: seq<(Key, Value)>, t: Type)
    requires t.MapType? && EntriesHaveType(h, es, t) && EntriesHaveType(k, es, t)
    requires forall i :: 0 <= i < |es| ==> State(k, es[i].1, t.val) == State(h, es[i].1, t.val)
    ensures TableOf(k, es, t) == TableOf(h, es, t)
  {
    TableKeys(h, es, t);
    TableKeys(k, es, t);
    forall x | x in KeySet(es)
      ensures TableOf(k, es, t).entries[x] == TableOf(h, es, t).entries[x]
    {
      var i :| 0 <= i < |es| && es[i].0 == x;
      assert MapIndex(es, x) == es[i].1;
    }
    SameMaps(TableOf(k, es, t).entries, TableOf(h, es, t).entries);
  }

  ghost function Above(s: set<Address>): (n: Address)
    ensures forall a :: a in s ==> a < n
  {
    if s == {} then 0
    else
      var x :| x in s;
      var n := Above(s - {x});
      assert forall a :: a in s ==> a == x || a in s - {x};
      if n > x then n else x + 1
  }

  // ---------- The bytes of composite values ----------

  lemma SameBytes(h: Heap, v: Value, h': Heap, v': Value, t: Type, depth: nat)
    requires HasType(h, v, t) && HasType(h', v', t) && State(h, v, t) == State(h', v', t)
    ensures Plain(h, v, depth) == Plain(h', v', depth)
  {
    var p := AtEnd(h, v, t, depth);
    var p' := AtEnd(h', v', t, depth);
    Encode(p, p', t, depth);
  }

  /** A value stays what it is in a heap that grows. */
  lemma Persist(h: Heap, k: Heap, v: Value, t: Type, depth: nat)
    requires Good(h, v, t) && Extends(h, k)
    ensures Good(k, v, t) && State(k, v, t) == State(h, v, t) && Plain(k, v, depth) == Plain(h, v, depth)
  {
    Frame(h, k, v, t);
    SameBytes(k, v, h, v, t, depth);
  }

  lemma CompositeBytes(h: Heap, v: Value, depth: nat)
    requires !v.Pointer? && depth <= MAX_DEPTH
    ensures Plain(h, v, depth) == Header(h, v) + PlainItems(h, Children(h, v), depth + 1)
  {
  }

  /** The row splits before and after any of its items. */
  lemma {:induction false} ItemsSplit(h: Heap, items: seq<Item>, i: nat, depth: nat)
    requires i < |items|
    ensures PlainItems(h, items, depth) ==
            PlainItems(h, items[..i], depth) + (items[i].prefix + Plain(h, items[i].value, depth) + items[i].suffix)
            + PlainItems(h, items[i + 1..], depth)
  {
    if i == 0 {
      assert items[..0] == [] && PlainItems(h, items[..0], depth) == [];
      StartEmpty(items[0].prefix + Plain(h, items[0].value, depth) + items[0].suffix, PlainItems(h, items[1..], depth));
    } else {
      var front := items[..i];
      assert front[1..] == items[1..][..i - 1] && front[0] == items[0];
      assert items[1..][i..] == items[i + 1..];
      ItemsSplit(h, items[1..], i - 1, depth);
      Regroup(items[0].prefix + Plain(h, items[0].value, depth) + items[0].suffix, PlainItems(h, front[1..], depth),
              items[i].prefix + Plain(h, items[i].value, depth) + items[i].suffix,
              PlainItems(h, items[i + 1..], depth));
    }
  }

  lemma StartEmpty(a: Bytes, b: Bytes)
    ensures [] + a + b == a + b
  {
  }

  lemma Regroup(a: Bytes, b: Bytes, c: Bytes, d: Bytes)
    ensures a + (b + c + d) == (a + b) + c + d
  {
  }

  // ---------- Values that hold different states ----------

  /** Two values that hold different states, the second with the bytes of the first and then `z`. */
  ghost predicate Grows(h: Heap, v: Value, w: Value, t: Type, depth: nat, z: Bytes) {
    && Good(h, v, t) && Good(h, w, t)
    && State(h, v, t) != State(h, w, t)
    && Plain(h, w, depth) == Plain(h, v, depth) + z
  }

  /** Growing by nothing: different states with the same bytes. */
  lemma Twins(h: Heap, v: Value, w: Value, t: Type, depth: nat)
    requires Good(h, v, t) && Good(h, w, t)
    ensures Grows(h, v, w, t, depth, []) <==>
            State(h, v, t) != State(h, w, t) && Plain(h, w, depth) == Plain(h, v, depth)
  {
    CancelEmpty(Plain(h, v, depth));
  }

  ghost function Zero(t: Type): Value {
    match t
    case IntType => Int(0)
    case UintType => Uint(0)
    case BoolType => Bool(false)
    case StringType => String([])
    case SyncType => Struct(true, [])
    case UnhandledType => Other(0)
    case StructType(fields) => Struct(false, seq(|fields|, i requires 0 <= i < |fields| =>
        Field(fields[i].name, false, Zero(fields[i].typ))))
    case SliceType(_, _) => Slice(Some(0))
    case MapType(_, _) => Map(None)
    case PointerType(_) => Pointer(None)
  }

  lemma {:induction false} UnskippedItems(fields: seq<Field>)
    requires forall i :: 0 <= i < |fields| ==> !fields[i].skipped
    ensures |StructItems(fields)| == |fields|
    ensures forall i :: 0 <= i < |fields| ==> StructItems(fields)[i] == Item(Label(fields[i].name), fields[i].value, [])
  {
    if fields != [] {
      var rest := fields[1..];
      UnskippedItems(rest);
      assert StructItems(fields) == [Item(Label(fields[0].name), fields[0].value, [])] + StructItems(rest);
    }
  }

  /** A struct with the given values in its fields. */
  function StructOf(fields: seq<FieldType>, vs: seq<Value>): Value
    requires |vs| == |fields|
  {
    Struct(false, seq(|fields|, i requires 0 <= i < |fields| => Field(fields[i].name, false, vs[i])))
  }

  function ItemsOf(fields: seq<FieldType>, vs: seq<Value>): (r: seq<Item>)
    requires |vs| == |fields|
    ensures |r| == |fields|
  {
    seq(|fields|, i requires 0 <= i < |fields| => Item(Label(fields[i].name), vs[i], []))
  }

  ghost predicate FieldsGood(h: Heap, fields: seq<FieldType>, vs: seq<Value>) {
    |vs| == |fields| && forall i :: 0 <= i < |fields| ==> Good(h, vs[i], fields[i].typ)
  }

  lemma StructGood(h: Heap, fields: seq<FieldType>, vs: seq<Value>)
    requires 0 in h && h[0] == Elems([]) && FieldsGood(h, fields, vs)
    ensures Good(h, StructOf(fields, vs), StructType(fields))
    ensures Children(h, StructOf(fields, vs)) == ItemsOf(fields, vs)
    ensures State(h, StructOf(fields, vs), StructType(fields)) ==
            Node(seq(|fields|, i requires 0 <= i < |fields| => State(h, vs[i], fields[i].typ)))
  {
    UnskippedItems(StructOf(fields, vs).fields);
    assert Children(h, StructOf(fields, vs)) == ItemsOf(fields, vs);
  }

  lemma {:induction false} ZeroGood(h: Heap, t: Type)
    requires 0 in h && h[0] == Elems([])
    ensures Good(h, Zero(t), t)
    decreases t
  {
    if t.StructType? {
      var vs := seq(|t.fields|, i requires 0 <= i < |t.fields| => Zero(t.fields[i].typ));
      forall i | 0 <= i < |t.fields|
        ensures Good(h, vs[i], t.fields[i].typ)
      {
        ZeroGood(h, t.fields[i].typ);
      }
      StructGood(h, t.fields, vs);
      assert Zero(t) == StructOf(t.fields, vs);
    }
  }

  /** Zero values in all fields but one. */
  ghost function OneField(fields: seq<FieldType>, i: nat, v: Value): (vs: seq<Value>)
    requires i < |fields|
    ensures |vs| == |fields|
  {
    seq(|fields|, j requires 0 <= j < |fields| => if j == i then v else Zero(fields[j].typ))
  }

  lemma OneFieldGood(h: Heap, fields: seq<FieldType>, i: nat, v: Value)
    requires i < |fields| && Good(h, v, fields[i].typ)
    ensures FieldsGood(h, fields, OneField(fields, i, v))
  {
    forall j | 0 <= j < |fields|
      ensures Good(h, OneField(fields, i, v)[j], fields[j].typ)
    {
      ZeroGood(h, fields[j].typ);
    }
  }

  ghost function ZeroItems(fields: seq<FieldType>): seq<Item> {
    seq(|fields|, i requires 0 <= i < |fields| => Item(Label(fields[i].name), Zero(fields[i].typ), []))
  }

  lemma OneFieldItems(fields: seq<FieldType>, i: nat, v: Value)
    requires i < |fields|
    ensures
      var items := ItemsOf(fields, OneField(fields, i, v));
      items[..i] == ZeroItems(fields[..i]) && items[i + 1..] == ZeroItems(fields[i + 1..])
  {
  }

  lemma OneFieldBytes(h: Heap, fields: seq<FieldType>, i: nat, v: Value, depth: nat)
    requires i < |fields| && Good(h, v, fields[i].typ) && depth <= MAX_DEPTH
    ensures Plain(h, StructOf(fields, OneField(fields, i, v)), depth) ==
            PlainItems(h, ZeroItems(fields[..i]), depth + 1) + (Label(fields[i].name) + Plain(h, v, depth + 1) + [])
            + PlainItems(h, ZeroItems(fields[i + 1..]), depth + 1)
  {
    var vs := OneField(fields, i, v);
    OneFieldGood(h, fields, i, v);
    StructGood(h, fields, vs);
    var items := ItemsOf(fields, vs);
    CompositeBytes(h, StructOf(fields, vs), depth);
    OneFieldItems(fields, i, v);
    ItemsSplit(h, items, i, depth + 1);
    CancelEmpty(PlainItems(h, items, depth + 1));
  }

  lemma CancelEmpty(a: Bytes)
    ensures [] + a == a == a + []
  {
  }

  /** Values that grow, in a field of a struct; the last field, unless the bytes are the same. */
  lemma StructGrows(h: Heap, fields: seq<FieldType>, i: nat, v: Value, w: Value, depth: nat, z: Bytes)
    requires i < |fields| && depth <= MAX_DEPTH && Grows(h, v, w, fields[i].typ, depth + 1, z)
    requires z == [] || i == |fields| - 1
    ensures Grows(h, StructOf(fields, OneField(fields, i, v)), StructOf(fields, OneField(fields, i, w)),
                  StructType(fields), depth, z)
  {
    StructDiffers(h, fields, i, v, w);
    StructBytesGrow(h, fields, i, v, w, depth, z);
  }

  lemma StructDiffers(h: Heap, fields: seq<FieldType>, i: nat, v: Value, w: Value)
    requires i < |fields| && Good(h, v, fields[i].typ) && Good(h, w, fields[i].typ)
    requires State(h, v, fields[i].typ) != State(h, w, fields[i].typ)
    ensures
      var s, s' := StructOf(fields, OneField(fields, i, v)), StructOf(fields, OneField(fields, i, w));
      var t := StructType(fields);
      Good(h, s, t) && Good(h, s', t) && State(h, s, t) != State(h, s', t)
  {
    var vs, ws := OneField(fields, i, v), OneField(fields, i, w);
    OneFieldGood(h, fields, i, v);
    OneFieldGood(h, fields, i, w);
    StructGood(h, fields, vs);
    StructGood(h, fields, ws);
    DifferAt(h, fields, vs, ws, i);
  }

  lemma StructBytesGrow(h: Heap, fields: seq<FieldType>, i: nat, v: Value, w: Value, depth: nat, z: Bytes)
    requires i < |fields| && depth <= MAX_DEPTH && Good(h, v, fields[i].typ) && Good(h, w, fields[i].typ)
    requires Plain(h, w, depth + 1) == Plain(h, v, depth + 1) + z && (z == [] || i == |fields| - 1)
    ensures Plain(h, StructOf(fields, OneField(fields, i, w)), depth) ==
            Plain(h, StructOf(fields, OneField(fields, i, v)), depth) + z
  {
    OneFieldBytes(h, fields, i, v, depth);
    OneFieldBytes(h, fields, i, w, depth);
    MoveEnd(PlainItems(h, ZeroItems(fields[..i]), depth + 1), Label(fields[i].name), Plain(h, v, depth + 1), z,
            PlainItems(h, ZeroItems(fields[i + 1..]), depth + 1));
  }

  lemma DifferAt(h: Heap, fields: seq<FieldType>, vs: seq<Value>, ws: seq<Value>, i: nat)
    requires FieldsGood(h, fields, vs) && FieldsGood(h, fields, ws) && i < |fields|
    requires State(h, vs[i], fields[i].typ) != State(h, ws[i], fields[i].typ)
    ensures seq(|fields|, j requires 0 <= j < |fields| => State(h, vs[j], fields[j].typ)) !=
            seq(|fields|, j requires 0 <= j < |fields| => State(h, ws[j], fields[j].typ))
  {
    assert seq(|fields|, j requires 0 <= j < |fields| => State(h, vs[j], fields[j].typ))[i] !=
           seq(|fields|, j requires 0 <= j < |fields| => State(h, ws[j], fields[j].typ))[i];
  }

  lemma MoveEnd(a: Bytes, l: Bytes, b: Bytes, z: Bytes, r: Bytes)
    requires z == [] || r == []
    ensures a + (l + (b + z) + []) + r == a + (l + b + []) + r + z
  {
    if z == [] {
      assert b + z == b && a + (l + b + []) + r + z == a + (l + b + []) + r;
    } else {
      assert a + (l + (b + z) + []) == a + (l + b + []) + z;
    }
  }
}
