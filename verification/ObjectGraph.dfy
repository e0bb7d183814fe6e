/** The Go object graph that the reflection tracker walks, and what the walk writes. */
module ObjectGraph {
  import opened GoTypes
  import opened Ordering
  import opened Text

  const MAX_DEPTH: nat := 8

  const LBRACKET: byte := 0x5B
  const RBRACKET: byte := 0x5D
  const LBRACE: byte := 0x7B
  const RBRACE: byte := 0x7D

  type Address = nat

  /** A map key, known by what `%v` prints for it.  `OtherKey` stands for every key type that is
      neither an integer nor a string; its printed form may be anything, a user `String` method included. */
  datatype Key = IntKey(i: int) | StringKey(s: Bytes) | OtherKey(id: nat, printed: Bytes)

  /** A reflected value.  `Other` stands for the kinds that the walk has no case for: floats, complex
      numbers, arrays, interfaces, channels and functions; `content` is whatever such a value holds. */
  datatype Value =
    | Int(i: Int64)
    | Uint(u: Uint64)
    | Bool(b: bool)
    | String(s: Bytes)
    | Pointer(target: Option<Address>)
    | Struct(sync: bool, fields: seq<Field>)
    | Map(cell: Option<Address>)
    | Slice(cell: Option<Address>)
    | Other(content: nat)

  /** A struct field; `skipped` is the verdict of the field filter. */
  datatype Field = Field(name: Bytes, skipped: bool, value: Value)

  /** What an address holds.  The entries of a map are listed in the order in which this walk happens to
      receive them. */
  datatype Cell =
    | Pointee(value: Value)
    | Entries(entries: seq<(Key, Value)>)
    | Elems(elems: seq<Value>)

  type Heap = map<Address, Cell>

  function Target(h: Heap, a: Address): Value {
    if a in h && h[a].Pointee? then h[a].value else Other(0)
  }

  function EntriesAt(h: Heap, a: Address): seq<(Key, Value)> {
    if a in h && h[a].Entries? then h[a].entries else []
  }

  function ElemsAt(h: Heap, a: Address): seq<Value> {
    if a in h && h[a].Elems? then h[a].elems else []
  }

  /** No Go map holds a key twice. */
  ghost predicate DistinctKeys(entries: seq<(Key, Value)>) {
    forall i, j :: 0 <= i < j < |entries| ==> entries[i].0 != entries[j].0
  }

  ghost predicate WellFormed(h: Heap) {
    forall a :: a in h && h[a].Entries? ==> DistinctKeys(h[a].entries)
  }

  /** `v.MapIndex(k)`: the value that the map holds for key `k`. */
  function MapIndex(entries: seq<(Key, Value)>, k: Key): (v: Value)
    requires exists i :: 0 <= i < |entries| && entries[i].0 == k
    requires DistinctKeys(entries)
    ensures forall i :: 0 <= i < |entries| && entries[i].0 == k ==> entries[i].1 == v
  {
    if entries[0].0 == k then entries[0].1 else MapIndex(entries[1..], k)
  }

  function Printed(k: Key): Bytes {
    match k
    case IntKey(i) => FormatInt(i)
    case StringKey(s) => s
    case OtherKey(_, printed) => printed
  }

  function PrintedKeys(entries: seq<(Key, Value)>): (r: seq<Bytes>)
    ensures |r| == |entries|
    ensures forall i :: 0 <= i < |r| ==> r[i] == Printed(entries[i].0)
  {
    seq(|entries|, i requires 0 <= i < |entries| => Printed(entries[i].0))
  }

  /** The value written for printed key `s`: when several keys print alike, the last one wins. */
  function ValueFor(entries: seq<(Key, Value)>, s: Bytes): Value {
    if entries == [] then Other(0)
    else
      var last := entries[|entries| - 1];
      if Printed(last.0) == s then last.1 else ValueFor(entries[..|entries| - 1], s)
  }

  /** One step of a composite: bytes, then a nested value, then bytes. */
  datatype Item = Item(prefix: Bytes, value: Value, suffix: Bytes)

  function Label(name: Bytes): Bytes {
    [LBRACKET] + name + [RBRACKET]
  }

  function StructItems(fields: seq<Field>): seq<Item> {
    if fields == [] then []
    else if fields[0].skipped then StructItems(fields[1..])
    else [Item(Label(fields[0].name), fields[0].value, [])] + StructItems(fields[1..])
  }

  function SliceItems(elems: seq<Value>): (r: seq<Item>)
    ensures |r| == |elems|
  {
    seq(|elems|, i requires 0 <= i < |elems| => Item([], elems[i], []))
  }

  function EntryItem(entries: seq<(Key, Value)>, s: Bytes): Item {
    Item([LBRACE] + s + [COLON], ValueFor(entries, s), [RBRACE])
  }

  function EntryItems(entries: seq<(Key, Value)>, strs: seq<Bytes>): (r: seq<Item>)
    ensures |r| == |strs|
    ensures forall i :: 0 <= i < |r| ==> r[i] == EntryItem(entries, strs[i])
  {
    seq(|strs|, i requires 0 <= i < |strs| => EntryItem(entries, strs[i]))
  }

  function MapItems(entries: seq<(Key, Value)>): seq<Item> {
    EntryItems(entries, InsertionSort(LexLeq, PrintedKeys(entries)))
  }

  /** What a walk has done: the bytes it wrote, and the pointers it has followed so far, in order. */
  datatype Walk = Walk(bytes: Bytes, followed: seq<Address>)

  function Fuel(depth: nat): nat {
    if depth > MAX_DEPTH then 0 else MAX_DEPTH + 1 - depth
  }

  /** The bytes a value contributes itself. */
  function Header(h: Heap, v: Value): Bytes {
    match v
    case Int(i) => BigEndian(ToUint64(i), 8)
    case Uint(u) => BigEndian(u, 8)
    case Bool(b) => [if b then 1 else 0]
    case String(s) => BigEndian(|s|, 8) + s
    case Slice(Some(a)) => BigEndian(|ElemsAt(h, a)|, 8)
    case _ => []
  }

  /** The nested values that a struct, map or slice writes after its header. */
  function Children(h: Heap, v: Value): seq<Item> {
    match v
    case Struct(sync, fields) => if sync then [] else StructItems(fields)
    case Map(Some(a)) => MapItems(EntriesAt(h, a))
    case Slice(Some(a)) => SliceItems(ElemsAt(h, a))
    case _ => []
  }

  /** The walk from value `v` at nesting level `depth`, when `followed` were followed before. */
  function Snapshot(h: Heap, v: Value, followed: seq<Address>, depth: nat): Walk
    decreases Fuel(depth), 0
  {
    if depth > MAX_DEPTH then
      Walk([], followed)
    else if v.Pointer? then
      if v.target.None? || v.target.value in followed then Walk([], followed)
      else Snapshot(h, Target(h, v.target.value), followed + [v.target.value], depth + 1)
    else
      var w := SnapshotItems(h, Children(h, v), followed, depth + 1);
      Walk(Header(h, v) + w.bytes, w.followed)
  }

  function SnapshotItems(h: Heap, items: seq<Item>, followed: seq<Address>, depth: nat): Walk
    decreases Fuel(depth), 1 + |items|
  {
    if items == [] then Walk([], followed)
    else
      var first := Snapshot(h, items[0].value, followed, depth);
      var rest := SnapshotItems(h, items[1..], first.followed, depth);
      Walk(items[0].prefix + first.bytes + items[0].suffix + rest.bytes, rest.followed)
  }

  /** A value without nested values writes its header; one without a header writes its nested values. */
  lemma OneKindOfOutput(h: Heap, v: Value, followed: seq<Address>, depth: nat)
    requires depth <= MAX_DEPTH && !v.Pointer?
    ensures Children(h, v) == [] ==> Snapshot(h, v, followed, depth) == Walk(Header(h, v), followed)
    ensures Header(h, v) == [] ==>
      Snapshot(h, v, followed, depth) == SnapshotItems(h, Children(h, v), followed, depth + 1)
  {
    assert Header(h, v) + [] == Header(h, v);
    var nested := SnapshotItems(h, Children(h, v), followed, depth + 1).bytes;
    assert [] + nested == nested;
  }
}
