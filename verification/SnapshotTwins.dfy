/** Slices and maps that hold different states and write the same bytes, for each kind of type that is not
    decodable. */
module SnapshotTwins {
  import opened GoTypes
  import opened Ordering
  import opened Text
  import opened ObjectGraph
  import opened SnapshotTypes
  import opened SnapshotPlain
  import opened SnapshotDecoding
  import opened SnapshotBuilding

  // ---------- Slices ----------

  ghost predicate AllGood(h: Heap, vs: seq<Value>, t: Type) {
    forall i :: 0 <= i < |vs| ==> Good(h, vs[i], t)
  }

  ghost function States(h: Heap, vs: seq<Value>, t: Type): seq<Tree>
    requires AllGood(h, vs, t)
  {
    seq(|vs|, i requires 0 <= i < |vs| => State(h, vs[i], t))
  }

  /** A new slice of the values. */
  lemma NewSlice(h: Heap, vs: seq<Value>, elem: Type, nilable: bool, depth: nat) returns (k: Heap, s: Value)
    requires 0 in h && h[0] == Elems([]) && AllGood(h, vs, elem) && |vs| < MAX_LENGTH && depth <= MAX_DEPTH
    ensures Extends(h, k)
    ensures Good(k, s, SliceType(elem, nilable))
    ensures State(k, s, SliceType(elem, nilable)) == Node(States(h, vs, elem))
    ensures Plain(k, s, depth) == BigEndian(|vs|, 8) + PlainItems(h, SliceItems(vs), depth + 1)
  {
    var a := Above(h.Keys);
    k, s := h[a := Elems(vs)], Slice(Some(a));
    AllFramed(h, k, vs, elem, depth + 1);
    SliceGood(k, vs, a, elem, nilable);
    SliceBytes(k, vs, s, elem, depth);
  }

  lemma SliceGood(k: Heap, vs: seq<Value>, a: Address, elem: Type, nilable: bool)
    requires 0 in k && k[0] == Elems([]) && a in k && k[a] == Elems(vs) && AllGood(k, vs, elem) && |vs| < MAX_LENGTH
    ensures Good(k, Slice(Some(a)), SliceType(elem, nilable))
    ensures State(k, Slice(Some(a)), SliceType(elem, nilable)) == Node(States(k, vs, elem))
  {
    var s := Slice(Some(a));
    assert Children(k, s) == SliceItems(vs);
    assert State(k, s, SliceType(elem, nilable)).children == States(k, vs, elem);
  }

  lemma SliceBytes(k: Heap, vs: seq<Value>, s: Value, elem: Type, depth: nat)
    requires s.Slice? && s.cell.Some? && ElemsAt(k, s.cell.value) == vs && AllGood(k, vs, elem) && depth <= MAX_DEPTH
    ensures Plain(k, s, depth) == BigEndian(|vs|, 8) + PlainItems(k, SliceItems(vs), depth + 1)
  {
    CompositeBytes(k, s, depth);
  }

  lemma {:induction false} SameRow(h: Heap, k: Heap, vs: seq<Value>, t: Type, depth: nat)
    requires AllGood(h, vs, t) && AllGood(k, vs, t)
    requires forall i :: 0 <= i < |vs| ==> State(k, vs[i], t) == State(h, vs[i], t)
    ensures PlainItems(k, SliceItems(vs), depth) == PlainItems(h, SliceItems(vs), depth)
  {
    if vs != [] {
      SameBytes(k, vs[0], h, vs[0], t, depth);
      assert SliceItems(vs)[1..] == SliceItems(vs[1..]);
      SameRow(h, k, vs[1..], t, depth);
    }
  }

  /** Two lists of one length whose bytes differ by `z` at the end give slices that grow by `z`. */
  lemma ListsGrow(h: Heap, vs: seq<Value>, ws: seq<Value>, elem: Type, nilable: bool, depth: nat, z: Bytes)
    returns (k: Heap, s: Value, s': Value)
    requires 0 in h && h[0] == Elems([]) && depth <= MAX_DEPTH
    requires AllGood(h, vs, elem) && AllGood(h, ws, elem) && |vs| == |ws| < MAX_LENGTH
    requires States(h, vs, elem) != States(h, ws, elem)
    requires PlainItems(h, SliceItems(ws), depth + 1) == PlainItems(h, SliceItems(vs), depth + 1) + z
    ensures Grows(k, s, s', SliceType(elem, nilable), depth, z)
  {
    var t, g := SliceType(elem, nilable), h;
    g, s := NewSlice(h, vs, elem, nilable, depth);
    AllFramed(h, g, ws, elem, depth + 1);
    k, s' := NewSlice(g, ws, elem, nilable, depth);
    Persist(g, k, s, t, depth);
    Associate(BigEndian(|vs|, 8), PlainItems(h, SliceItems(vs), depth + 1), z);
  }

  lemma AllFramed(h: Heap, k: Heap, vs: seq<Value>, t: Type, depth: nat)
    requires AllGood(h, vs, t) && Extends(h, k)
    ensures AllGood(k, vs, t) && States(k, vs, t) == States(h, vs, t)
    ensures PlainItems(k, SliceItems(vs), depth) == PlainItems(h, SliceItems(vs), depth)
  {
    forall i | 0 <= i < |vs|
      ensures Good(k, vs[i], t) && State(k, vs[i], t) == State(h, vs[i], t)
    {
      Frame(h, k, vs[i], t);
    }
    SameRow(h, k, vs, t, depth);
  }

  lemma OneElement(h: Heap, v: Value, depth: nat)
    ensures PlainItems(h, SliceItems([v]), depth) == Plain(h, v, depth)
  {
    var items := SliceItems([v]);
    assert items == [Item([], v, [])] && items[1..] == [];
    CancelEmpty(Plain(h, v, depth));
  }

  lemma ElementThen(h: Heap, v: Value, vs: seq<Value>, depth: nat)
    ensures PlainItems(h, SliceItems([v] + vs), depth) == Plain(h, v, depth) + PlainItems(h, SliceItems(vs), depth)
  {
    var items := SliceItems([v] + vs);
    assert items[1..] == SliceItems(vs) && items[0] == Item([], v, []);
    CancelEmpty(Plain(h, v, depth));
  }

  /** Values that grow, each as the only element of a slice. */
  lemma SliceGrows(h: Heap, v: Value, w: Value, elem: Type, nilable: bool, depth: nat, z: Bytes)
    returns (k: Heap, s: Value, s': Value)
    requires depth <= MAX_DEPTH && Grows(h, v, w, elem, depth + 1, z)
    ensures Grows(k, s, s', SliceType(elem, nilable), depth, z)
  {
    OneElement(h, v, depth + 1);
    OneElement(h, w, depth + 1);
    OneGood(h, v, elem);
    OneGood(h, w, elem);
    assert States(h, [v], elem)[0] != States(h, [w], elem)[0];
    k, s, s' := ListsGrow(h, [v], [w], elem, nilable, depth, z);
  }

  lemma OneGood(h: Heap, v: Value, t: Type)
    requires Good(h, v, t)
    ensures AllGood(h, [v], t) && States(h, [v], t) == [State(h, v, t)]
  {
  }

  const NO_ELEMENTS: Bytes := BigEndian(0, 8)

  lemma EmptySlice(h: Heap, elem: Type, nilable: bool, depth: nat)
    requires 0 in h && h[0] == Elems([]) && depth <= MAX_DEPTH
    ensures Good(h, Slice(Some(0)), SliceType(elem, nilable))
    ensures Plain(h, Slice(Some(0)), depth) == NO_ELEMENTS
    ensures State(h, Slice(Some(0)), SliceType(elem, nilable)) == Node([])
  {
    assert Children(h, Slice(Some(0))) == [];
    CompositeBytes(h, Slice(Some(0)), depth);
    CancelEmpty(BigEndian(0, 8));
  }

  /** A type that can end in a nil slice: filling in an empty slice there appends its length. */
  lemma {:induction false} NilEnd(t: Type, depth: nat) returns (h: Heap, v: Value, w: Value)
    requires NilOpen(t) && PointerFree(t) && Fits(t, depth)
    ensures Grows(h, v, w, t, depth, NO_ELEMENTS)
    decreases t
  {
    WithinLimit(t, depth);
    if t.StructType? {
      var last := |t.fields| - 1;
      h, v, w := NilEnd(t.fields[last].typ, depth + 1);
      StructGrows(h, t.fields, last, v, w, depth, NO_ELEMENTS);
      v, w := StructOf(t.fields, OneField(t.fields, last, v)), StructOf(t.fields, OneField(t.fields, last, w));
    } else if t.SliceType? && t.nilable {
      h, v, w := BASE, Slice(None), Slice(Some(0));
      EmptySlice(h, t.elem, t.nilable, depth);
      NilBytes(h, depth);
      CancelEmpty(NO_ELEMENTS);
    } else {
      h, v, w := NilEnd(t.elem, depth + 1);
      h, v, w := SliceGrows(h, v, w, t.elem, t.nilable, depth, NO_ELEMENTS);
    }
  }

  /** Nothing that fits below the limit can end in a nil slice. */
  lemma WithinLimit(t: Type, depth: nat)
    requires NilOpen(t) && Fits(t, depth)
    ensures depth <= MAX_DEPTH
  {
    if depth > MAX_DEPTH {
      SingleClosed(t);
    }
  }

  lemma NilBytes(h: Heap, depth: nat)
    requires depth <= MAX_DEPTH
    ensures Plain(h, Slice(None), depth) == [] && Plain(h, Map(None), depth) == []
  {
    CompositeBytes(h, Slice(None), depth);
    CompositeBytes(h, Map(None), depth);
  }

  /** `[a, [], b]` and `[b, a, []]`, where `b` has the bytes of `a` and then those of an empty slice. */
  lemma SlicesCollide(elem: Type, nilable: bool, depth: nat) returns (h: Heap, s: Value, s': Value)
    requires elem.SliceType? && NilOpen(elem) && PointerFree(elem) && Fits(elem, depth + 1) && depth <= MAX_DEPTH
    ensures Grows(h, s, s', SliceType(elem, nilable), depth, [])
  {
    var a, b;
    WithinLimit(elem, depth + 1);
    h, a, b := NilEnd(elem, depth + 1);
    EmptySlice(h, elem.elem, elem.nilable, depth + 1);
    h, s, s' := RotatedCollide(h, a, Slice(Some(0)), b, elem, nilable, depth);
  }

  lemma RotatedCollide(h: Heap, a: Value, e: Value, b: Value, elem: Type, nilable: bool, depth: nat)
    returns (k: Heap, s: Value, s': Value)
    requires depth <= MAX_DEPTH && Good(h, e, elem)
    requires Grows(h, a, b, elem, depth + 1, Plain(h, e, depth + 1))
    ensures Grows(k, s, s', SliceType(elem, nilable), depth, [])
  {
    ThreeGood(h, a, e, b, elem);
    ThreeGood(h, b, a, e, elem);
    assert States(h, [a, e, b], elem)[0] != States(h, [b, a, e], elem)[0];
    RotatedBytes(h, a, e, b, depth + 1);
    k, s, s' := ListsGrow(h, [a, e, b], [b, a, e], elem, nilable, depth, []);
  }

  lemma ThreeGood(h: Heap, x: Value, y: Value, z: Value, t: Type)
    requires Good(h, x, t) && Good(h, y, t) && Good(h, z, t)
    ensures AllGood(h, [x, y, z], t) && States(h, [x, y, z], t) == [State(h, x, t), State(h, y, t), State(h, z, t)]
  {
  }

  lemma RotatedBytes(h: Heap, a: Value, e: Value, b: Value, depth: nat)
    requires Plain(h, b, depth) == Plain(h, a, depth) + Plain(h, e, depth)
    ensures PlainItems(h, SliceItems([b, a, e]), depth) == PlainItems(h, SliceItems([a, e, b]), depth) + []
  {
    ThreeElements(h, a, e, b, depth);
    ThreeElements(h, b, a, e, depth);
    SwapEnds(Plain(h, a, depth), Plain(h, e, depth));
    CancelEmpty(PlainItems(h, SliceItems([a, e, b]), depth));
  }

  lemma ThreeElements(h: Heap, x: Value, y: Value, z: Value, depth: nat)
    ensures PlainItems(h, SliceItems([x, y, z]), depth) ==
            Plain(h, x, depth) + (Plain(h, y, depth) + Plain(h, z, depth))
  {
    assert [x, y, z] == [x] + ([y] + [z]);
    ElementThen(h, x, [y] + [z], depth);
    ElementThen(h, y, [z], depth);
    OneElement(h, z, depth);
  }

  lemma SwapEnds(a: Bytes, e: Bytes)
    ensures (a + e) + (a + e) == a + (e + (a + e))
  {
  }

  // ---------- Maps ----------

  function SomeKey(keys: KeyKind): Key {
    if keys == IntKeys then IntKey(0) else StringKey([])
  }

  ghost predicate EntriesGood(h: Heap, es: seq<(Key, Value)>, keys: KeyKind, val: Type) {
    && DistinctKeys(es)
    && forall i :: 0 <= i < |es| ==> HasKeyType(es[i].0, keys) && Good(h, es[i].1, val)
  }

  /** A new map with the entries. */
  lemma NewMap(h: Heap, es: seq<(Key, Value)>, keys: KeyKind, val: Type) returns (k: Heap, m: Value)
    requires 0 in h && h[0] == Elems([]) && EntriesGood(h, es, keys, val)
    ensures Extends(h, k) && Good(k, m, MapType(keys, val))
    ensures m.cell.Some? && EntriesAt(k, m.cell.value) == es
    ensures EntriesHaveType(h, es, MapType(keys, val))
    ensures State(k, m, MapType(keys, val)) == TableOf(h, es, MapType(keys, val))
  {
    var a := Above(h.Keys);
    k, m := h[a := Entries(es)], Map(Some(a));
    forall i | 0 <= i < |es|
      ensures Good(k, es[i].1, val) && State(k, es[i].1, val) == State(h, es[i].1, val)
    {
      Frame(h, k, es[i].1, val);
    }
    SameTableOf(h, k, es, MapType(keys, val));
    MapGood(k, es, a, keys, val);
  }

  lemma MapGood(k: Heap, es: seq<(Key, Value)>, a: Address, keys: KeyKind, val: Type)
    requires 0 in k && k[0] == Elems([]) && a in k && k[a] == Entries(es) && EntriesGood(k, es, keys, val)
    ensures Good(k, Map(Some(a)), MapType(keys, val)) && EntriesHaveType(k, es, MapType(keys, val))
    ensures State(k, Map(Some(a)), MapType(keys, val)) == TableOf(k, es, MapType(keys, val))
  {
    TableState(Place(k, Map(Some(a)), []), MapType(keys, val));
  }

  function EntryBytes(s: Bytes, e: Bytes): Bytes {
    [LBRACE] + s + [COLON] + e + [RBRACE]
  }

  lemma OneEntryBytes(h: Heap, m: Value, key: Key, v: Value, t: Type, depth: nat)
    requires m.Map? && m.cell.Some? && EntriesAt(h, m.cell.value) == [(key, v)] && HasType(h, v, t)
    requires depth <= MAX_DEPTH
    ensures Plain(h, m, depth) == EntryBytes(Printed(key), Plain(h, v, depth + 1))
  {
    var es := [(key, v)];
    assert PrintedKeys(es) == [Printed(key)];
    assert InsertionSort(LexLeq, [Printed(key)]) == [Printed(key)] by { assert [Printed(key)][1..] == []; }
    assert ValueFor(es, Printed(key)) == v;
    var item := Item([LBRACE] + Printed(key) + [COLON], v, [RBRACE]);
    assert MapItems(es) == [item] && [item][1..] == [];
    CompositeBytes(h, m, depth);
    CancelEmpty(item.prefix + Plain(h, v, depth + 1) + item.suffix);
    CancelEmpty(EntryBytes(Printed(key), Plain(h, v, depth + 1)));
  }

  lemma OneEntryTable(h: Heap, key: Key, v: Value, t: Type)
    requires t.MapType? && EntriesHaveType(h, [(key, v)], t) && HasType(h, v, t.val)
    ensures TableOf(h, [(key, v)], t) == Table(map[key := State(h, v, t.val)])
  {
    var es := [(key, v)];
    assert es[0].0 in KeySet(es);
    assert KeySet(es) == {key};
    assert MapIndex(es, key) == v;
  }

  /** A new map with one entry. */
  lemma OneEntry(h: Heap, key: Key, v: Value, keys: KeyKind, val: Type, depth: nat) returns (k: Heap, m: Value)
    requires Good(h, v, val) && HasKeyType(key, keys) && depth <= MAX_DEPTH
    ensures Extends(h, k) && Good(k, m, MapType(keys, val))
    ensures State(k, m, MapType(keys, val)) == Table(map[key := State(h, v, val)])
    ensures Plain(k, m, depth) == EntryBytes(Printed(key), Plain(h, v, depth + 1))
  {
    k, m := NewMap(h, [(key, v)], keys, val);
    OneEntryTable(h, key, v, MapType(keys, val));
    Persist(h, k, v, val, depth + 1);
    OneEntryBytes(k, m, key, v, val, depth);
  }

  /** Values with the same bytes, each under the same key of a map. */
  lemma MapsCollide(h: Heap, v: Value, w: Value, keys: KeyKind, val: Type, depth: nat)
    returns (k: Heap, m: Value, m': Value)
    requires depth <= MAX_DEPTH && Grows(h, v, w, val, depth + 1, [])
    ensures Grows(k, m, m', MapType(keys, val), depth, [])
  {
    var key, g := SomeKey(keys), h;
    Twins(h, v, w, val, depth + 1);
    g, m := OneEntry(h, key, v, keys, val, depth);
    Persist(h, g, w, val, depth + 1);
    k, m' := OneEntry(g, key, w, keys, val, depth);
    Persist(g, k, m, MapType(keys, val), depth);
    TablesDiffer(key, State(h, v, val), State(h, w, val));
    Twins(k, m, m', MapType(keys, val), depth);
  }

  /** Two values, the second of which writes nothing, in either order. */
  lemma SwappedCollide(h: Heap, m: Value, e: Value, elem: Type, nilable: bool, depth: nat)
    returns (k: Heap, s: Value, s': Value)
    requires depth <= MAX_DEPTH && Good(h, m, elem) && Good(h, e, elem)
    requires State(h, m, elem) != State(h, e, elem) && Plain(h, e, depth + 1) == []
    ensures Grows(k, s, s', SliceType(elem, nilable), depth, [])
  {
    TwoGood(h, m, e, elem);
    TwoGood(h, e, m, elem);
    assert States(h, [m, e], elem)[0] != States(h, [e, m], elem)[0];
    SwappedBytes(h, m, e, depth + 1);
    k, s, s' := ListsGrow(h, [m, e], [e, m], elem, nilable, depth, []);
  }

  lemma TwoGood(h: Heap, x: Value, y: Value, t: Type)
    requires Good(h, x, t) && Good(h, y, t)
    ensures AllGood(h, [x, y], t) && States(h, [x, y], t) == [State(h, x, t), State(h, y, t)]
  {
  }

  lemma SwappedBytes(h: Heap, m: Value, e: Value, depth: nat)
    requires Plain(h, e, depth) == []
    ensures PlainItems(h, SliceItems([e, m]), depth) == PlainItems(h, SliceItems([m, e]), depth) + []
  {
    assert [m, e] == [m] + [e] && [e, m] == [e] + [m];
    ElementThen(h, m, [e], depth);
    ElementThen(h, e, [m], depth);
    OneElement(h, m, depth);
    OneElement(h, e, depth);
    CancelEmpty(Plain(h, m, depth));
    CancelEmpty(PlainItems(h, SliceItems([m, e]), depth));
  }

  lemma NilMap(h: Heap, t: Type, depth: nat)
    requires 0 in h && h[0] == Elems([]) && t.MapType? && depth <= MAX_DEPTH
    ensures Good(h, Map(None), t) && State(h, Map(None), t) == Table(map[]) && Plain(h, Map(None), depth) == []
  {
    NilBytes(h, depth);
  }

  /** A map with one entry and an empty map, in either order. */
  lemma MapElementsCollide(keys: KeyKind, val: Type, nilable: bool, depth: nat) returns (h: Heap, s: Value, s': Value)
    requires depth < MAX_DEPTH
    ensures Grows(h, s, s', SliceType(MapType(keys, val), nilable), depth, [])
  {
    var m;
    h, m := SomeMap(keys, val, depth + 1);
    h, s, s' := BesideEmpty(h, m, MapType(keys, val), nilable, depth);
  }

  lemma BesideEmpty(h: Heap, m: Value, t: Type, nilable: bool, depth: nat) returns (k: Heap, s: Value, s': Value)
    requires t.MapType? && Good(h, m, t) && State(h, m, t) != Table(map[]) && depth < MAX_DEPTH
    ensures Grows(k, s, s', SliceType(t, nilable), depth, [])
  {
    NilMap(h, t, depth + 1);
    k, s, s' := SwappedCollide(h, m, Map(None), t, nilable, depth);
  }

  lemma SomeMap(keys: KeyKind, val: Type, depth: nat) returns (h: Heap, m: Value)
    requires depth <= MAX_DEPTH
    ensures Good(h, m, MapType(keys, val)) && State(h, m, MapType(keys, val)) != Table(map[])
  {
    ZeroGood(BASE, val);
    h, m := OneEntry(BASE, SomeKey(keys), Zero(val), keys, val, depth);
    TablesDiffer(SomeKey(keys), State(BASE, Zero(val), val), Unobserved);
  }

  lemma TablesDiffer(key: Key, x: Tree, y: Tree)
    ensures Table(map[key := x]) != Table(map[])
    ensures x != y ==> Table(map[key := x]) != Table(map[key := y])
  {
    assert key in map[key := x];
    assert map[key := x][key] == x && map[key := y][key] == y;
  }

  // ---------- Keys with a colon ----------

  const KEY_A: Bytes := [0x61]
  const KEY_B: Bytes := [0x62]

  /** The key that looks like the end of one entry and the start of the next, around the bytes `e` of a value. */
  function Forged(e: Bytes): Bytes {
    KEY_A + [COLON] + e + [RBRACE, LBRACE] + KEY_B
  }

  function TwoEntries(z: Value): seq<(Key, Value)> {
    [(StringKey(KEY_A), z), (StringKey(KEY_B), z)]
  }

  lemma TwoEntryKeys(z: Value)
    ensures InsertionSort(LexLeq, PrintedKeys(TwoEntries(z))) == [KEY_A, KEY_B]
  {
    assert PrintedKeys(TwoEntries(z)) == [KEY_A, KEY_B];
    assert [KEY_A, KEY_B][1..] == [KEY_B] && [KEY_B][1..] == [];
    assert InsertionSort(LexLeq, [KEY_B]) == [KEY_B];
  }

  lemma TwoEntryItems(z: Value)
    ensures MapItems(TwoEntries(z)) ==
            [Item([LBRACE] + KEY_A + [COLON], z, [RBRACE]), Item([LBRACE] + KEY_B + [COLON], z, [RBRACE])]
  {
    TwoEntryKeys(z);
    assert TwoEntries(z)[..1] == [(StringKey(KEY_A), z)];
    assert ValueFor(TwoEntries(z)[..1], KEY_A) == z;
  }

  lemma TwoEntryBytes(h: Heap, m: Value, z: Value, t: Type, depth: nat)
    requires m.Map? && m.cell.Some? && HasType(h, z, t) && depth <= MAX_DEPTH
    requires EntriesAt(h, m.cell.value) == TwoEntries(z)
    ensures
      var e := Plain(h, z, depth + 1);
      Plain(h, m, depth) == EntryBytes(KEY_A, e) + EntryBytes(KEY_B, e)
  {
    TwoEntryItems(z);
    var x, y := Item([LBRACE] + KEY_A + [COLON], z, [RBRACE]), Item([LBRACE] + KEY_B + [COLON], z, [RBRACE]);
    CompositeBytes(h, m, depth);
    assert [x, y][1..] == [y] && [y][1..] == [];
    assert PlainItems(h, [y], depth + 1) == y.prefix + Plain(h, z, depth + 1) + y.suffix + PlainItems(h, [], depth + 1);
    CancelEmpty(y.prefix + Plain(h, z, depth + 1) + y.suffix);
    CancelEmpty(EntryBytes(KEY_A, Plain(h, z, depth + 1)) + EntryBytes(KEY_B, Plain(h, z, depth + 1)));
  }

  lemma ForgedLayout(e: Bytes)
    ensures EntryBytes(Forged(e), e) == EntryBytes(KEY_A, e) + EntryBytes(KEY_B, e)
    ensures Forged(e) != KEY_A
  {
    assert |Forged(e)| > 1;
  }

  /** A new map with two entries. */
  lemma TwoEntryMap(h: Heap, z: Value, val: Type, depth: nat) returns (k: Heap, m: Value)
    requires Good(h, z, val) && depth <= MAX_DEPTH
    ensures Extends(h, k) && Good(k, m, MapType(StringKeys, val))
    ensures State(k, m, MapType(StringKeys, val)).Table?
    ensures StringKey(KEY_A) in State(k, m, MapType(StringKeys, val)).entries
    ensures
      var e := Plain(h, z, depth + 1);
      Plain(k, m, depth) == EntryBytes(KEY_A, e) + EntryBytes(KEY_B, e)
  {
    k, m := NewMap(h, TwoEntries(z), StringKeys, val);
    Persist(h, k, z, val, depth + 1);
    TwoEntryBytes(k, m, z, val, depth);
    TableKeys(h, TwoEntries(z), MapType(StringKeys, val));
    assert TwoEntries(z)[0].0 in KeySet(TwoEntries(z));
  }

  /** One entry under a forged key, and two entries. */
  lemma ColonsCollide(val: Type, depth: nat) returns (h: Heap, m: Value, m': Value)
    requires depth <= MAX_DEPTH
    ensures Grows(h, m, m', MapType(StringKeys, val), depth, [])
  {
    var t, z, g := MapType(StringKeys, val), Zero(val), BASE;
    ZeroGood(BASE, val);
    var e := Plain(BASE, z, depth + 1);
    g, m := OneEntry(BASE, StringKey(Forged(e)), z, StringKeys, val, depth);
    Persist(BASE, g, z, val, depth + 1);
    h, m' := TwoEntryMap(g, z, val, depth);
    Persist(g, h, m, t, depth);
    ForgedLayout(e);
    assert StringKey(KEY_A) !in map[StringKey(Forged(e)) := State(BASE, z, val)];
    Twins(h, m, m', t, depth);
  }

  // ---------- Two states ----------

  /** Two values that hold different states. */
  ghost predicate Differ(h: Heap, v: Value, w: Value, t: Type) {
    Good(h, v, t) && Good(h, w, t) && State(h, v, t) != State(h, w, t)
  }

  lemma {:induction false} TwoStates(t: Type) returns (h: Heap, v: Value, w: Value)
    requires !Single(t) && PointerFree(t)
    ensures Differ(h, v, w, t)
    decreases t
  {
    match t
    case StructType(fields) =>
      var i :| 0 <= i < |fields| && !Single(fields[i].typ);
      h, v, w := TwoStates(fields[i].typ);
      StructDiffers(h, fields, i, v, w);
      v, w := StructOf(fields, OneField(fields, i, v)), StructOf(fields, OneField(fields, i, w));
    case SliceType(elem, nilable) =>
      ZeroGood(BASE, elem);
      OneGood(BASE, Zero(elem), elem);
      v := Slice(Some(0));
      h, w := NewSlice(BASE, [Zero(elem)], elem, nilable, 0);
      EmptySlice(h, elem, nilable, 0);
    case MapType(keys, val) =>
      v := Map(None);
      h, w := SomeMap(keys, val, 0);
      NilMap(h, t, 0);
    case _ =>
      h, v, w := BASE, Zero(t), OtherScalar(t);
  }

  function OtherScalar(t: Type): Value {
    match t
    case IntType => Int(1)
    case UintType => Uint(1)
    case BoolType => Bool(true)
    case StringType => String([0])
    case _ => Other(1)
  }
}
