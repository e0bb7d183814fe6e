/** When equal snapshot bytes mean equal state: the types on which the encoding is uniquely decodable.
    `SnapshotExactness` shows that on all other types without pointers it is not. */
module SnapshotDecoding {
  import opened GoTypes
  import opened Ordering
  import opened Text
  import opened ObjectGraph
  import opened SnapshotTypes
  import opened SnapshotPlain
  import SnapshotTraversal

  /** A value in a heap, and the bytes `r` that are written after it. */
  datatype Place = Place(h: Heap, v: Value, r: Bytes)

  function Output(p: Place, depth: nat): Bytes {
    Plain(p.h, p.v, depth) + p.r
  }

  ghost predicate Ready(p: Place, t: Type, depth: nat) {
    HasType(p.h, p.v, t) && Decodable(t) && Fits(t, depth) && Follows(t, p.r)
  }

  // ---------- Lists of items ----------

  /** Consecutive items, and the bytes `r` that are written after them. */
  datatype Row = Row(h: Heap, items: seq<Item>, r: Bytes)

  function RowOutput(row: Row, depth: nat): Bytes {
    PlainItems(row.h, row.items, depth) + row.r
  }

  /** The first item of a row, and the others after it. */
  function First(row: Row, depth: nat): Place
    requires row.items != []
  {
    Place(row.h, row.items[0].value, RowOutput(Rest(row), depth))
  }

  function Rest(row: Row): Row
    requires row.items != []
  {
    row.(items := row.items[1..])
  }

  /** The items are values of the types, written without a suffix. */
  ghost predicate RowHasTypes(row: Row, ts: seq<Type>) {
    && |row.items| == |ts|
    && forall i :: 0 <= i < |ts| ==> row.items[i].suffix == [] && HasType(row.h, row.items[i].value, ts[i])
  }

  predicate AllDecodable(ts: seq<Type>, depth: nat) {
    forall i :: 0 <= i < |ts| ==> Decodable(ts[i]) && Fits(ts[i], depth)
  }

  /** The output of such an item starts with a label. */
  predicate Labelled(item: Item, t: Type) {
    if item.prefix == [] then LabelStart(t) else item.prefix[0] == LBRACKET
  }

  /** The output of such an item starts with a length. */
  predicate Counted(item: Item, t: Type) {
    item.prefix == [] && t.SliceType? && !t.nilable
  }

  /** What the item starts with tells it from a continuation of a value of type `t` before it. */
  predicate Separates(t: Type, item: Item, u: Type) {
    && (NilOpen(t) ==> Labelled(item, u))
    && (MapOpen(t) ==> Labelled(item, u) || Counted(item, u))
    && !LabelOpen(t)
  }

  /** Each item is told from the one before, and the rest from the last one. */
  predicate Guarded(row: Row, ts: seq<Type>)
    requires |row.items| == |ts|
  {
    && (ts != [] ==> Follows(ts[|ts| - 1], row.r))
    && forall i :: 0 < i < |ts| ==> Separates(ts[i - 1], row.items[i], ts[i])
  }

  ghost predicate RowReady(row: Row, ts: seq<Type>, depth: nat) {
    RowHasTypes(row, ts) && AllDecodable(ts, depth) && Guarded(row, ts)
  }

  ghost function RowStates(row: Row, ts: seq<Type>): seq<Tree>
    requires RowHasTypes(row, ts)
  {
    seq(|ts|, i requires 0 <= i < |ts| => State(row.h, row.items[i].value, ts[i]))
  }

  predicate SamePrefixes(items: seq<Item>, items': seq<Item>) {
    |items| == |items'| && forall i :: 0 <= i < |items| ==> items[i].prefix == items'[i].prefix
  }

  lemma RowUnfold(row: Row, depth: nat)
    requires row.items != [] && row.items[0].suffix == []
    ensures RowOutput(row, depth) == row.items[0].prefix + Output(First(row, depth), depth)
  {
  }

  lemma StartsWithLabel(row: Row, ts: seq<Type>, depth: nat)
    requires RowHasTypes(row, ts) && row.items != []
    requires Labelled(row.items[0], ts[0]) && depth <= MAX_DEPTH
    ensures RowOutput(row, depth) != [] && RowOutput(row, depth)[0] == LBRACKET
  {
    RowUnfold(row, depth);
    if row.items[0].prefix == [] {
      StructStart(First(row, depth), ts[0], depth);
    }
  }

  /** A struct with tracked fields starts with a label. */
  lemma StructStart(p: Place, t: Type, depth: nat)
    requires HasType(p.h, p.v, t) && LabelStart(t) && depth <= MAX_DEPTH
    ensures Output(p, depth) != [] && Output(p, depth)[0] == LBRACKET
  {
    OneKindOfPlain(p.h, p.v, depth);
    var inner := ChildRow(p);
    assert inner.items[0].prefix == Label(t.fields[0].name);
    RowUnfold(inner, depth + 1);
    assert Output(p, depth) == RowOutput(inner, depth + 1);
  }

  lemma StartsWithLength(row: Row, ts: seq<Type>, depth: nat)
    requires RowHasTypes(row, ts) && row.items != []
    requires Counted(row.items[0], ts[0]) && depth <= MAX_DEPTH
    ensures RowOutput(row, depth) != [] && RowOutput(row, depth)[0] < 0x40
  {
    RowUnfold(row, depth);
    SliceStart(First(row, depth), ts[0], depth);
    assert [] + Output(First(row, depth), depth) == Output(First(row, depth), depth);
  }

  /** A slice that is not nil starts with a byte that is neither a bracket nor a brace. */
  lemma SliceStart(p: Place, t: Type, depth: nat)
    requires HasType(p.h, p.v, t) && t.SliceType? && p.v.cell.Some? && depth <= MAX_DEPTH
    ensures Output(p, depth) != [] && Output(p, depth)[0] < 0x40
  {
    PlaceUnfold(p, depth);
    var n := |Children(p.h, p.v)|;
    FirstByteSmall(n);
    assert (BigEndian(n, 8) + RowOutput(ChildRow(p), depth + 1))[0] == BigEndian(n, 8)[0];
  }

  lemma RowFollows(row: Row, ts: seq<Type>, t: Type, depth: nat)
    requires RowHasTypes(row, ts) && Fits(t, depth)
    requires if ts == [] then Follows(t, row.r) else Separates(t, row.items[0], ts[0])
    ensures Follows(t, RowOutput(row, depth))
  {
    if ts == [] {
      assert [] + row.r == row.r;
    } else if depth > MAX_DEPTH {
      SingleClosed(t);
    } else {
      if Labelled(row.items[0], ts[0]) {
        StartsWithLabel(row, ts, depth);
      } else if Counted(row.items[0], ts[0]) {
        StartsWithLength(row, ts, depth);
      }
    }
  }

  /** A row that is ready leaves its first item and its other items ready. */
  lemma ReadyParts(row: Row, ts: seq<Type>, depth: nat)
    requires RowReady(row, ts, depth) && row.items != []
    ensures Ready(First(row, depth), ts[0], depth)
    ensures RowReady(Rest(row), ts[1..], depth)
  {
    var rest := Rest(row);
    assert AllDecodable(ts[1..], depth);
    forall i | 0 < i < |ts[1..]|
      ensures Separates(ts[1..][i - 1], rest.items[i], ts[1..][i])
    {
      assert Separates(ts[i], row.items[i + 1], ts[i + 1]);
    }
    if |ts| > 1 {
      assert Separates(ts[0], row.items[1], ts[1]);
    }
    RowFollows(rest, ts[1..], ts[0], depth);
  }

  lemma RowStatesUnfold(row: Row, ts: seq<Type>)
    requires RowHasTypes(row, ts) && row.items != []
    ensures RowHasTypes(Rest(row), ts[1..])
    ensures RowStates(row, ts) ==
      [State(row.h, row.items[0].value, ts[0])] + RowStates(Rest(row), ts[1..])
  {
  }

  lemma CancelPrefix(p: Bytes, x: Bytes, y: Bytes)
    requires p + x == p + y
    ensures x == y
  {
    assert x == (p + x)[|p|..] && y == (p + y)[|p|..];
  }

  /** Two rows of the same types with the same labels: equal bytes mean equal items and equal rests. */
  lemma {:induction false} DecodeRow(row: Row, row': Row, ts: seq<Type>, depth: nat)
    requires RowReady(row, ts, depth) && RowReady(row', ts, depth) && SamePrefixes(row.items, row'.items)
    requires RowOutput(row, depth) == RowOutput(row', depth)
    ensures row.r == row'.r && RowStates(row, ts) == RowStates(row', ts)
    decreases Fuel(depth), 1 + |row.items|
  {
    if row.items == [] {
      assert [] + row.r == row.r && [] + row'.r == row'.r;
    } else {
      RowUnfold(row, depth);
      RowUnfold(row', depth);
      ReadyParts(row, ts, depth);
      ReadyParts(row', ts, depth);
      CancelPrefix(row.items[0].prefix, Output(First(row, depth), depth), Output(First(row', depth), depth));
      Decode(First(row, depth), First(row', depth), ts[0], depth);
      DecodeRow(Rest(row), Rest(row'), ts[1..], depth);
      RowStatesUnfold(row, ts);
      RowStatesUnfold(row', ts);
    }
  }

  // ---------- Map entries ----------

  /** Consecutive map entries with the printed keys `strs`, and the bytes `r` that are written after them. */
  datatype EntryRow = EntryRow(h: Heap, es: seq<(Key, Value)>, strs: seq<Bytes>, r: Bytes)

  function EntryOutput(row: EntryRow, depth: nat): Bytes {
    PlainItems(row.h, EntryItems(row.es, row.strs), depth) + row.r
  }

  function FirstEntry(row: EntryRow, depth: nat): Place
    requires row.strs != []
  {
    Place(row.h, ValueFor(row.es, row.strs[0]), [RBRACE] + EntryOutput(RestEntries(row), depth))
  }

  function RestEntries(row: EntryRow): EntryRow
    requires row.strs != []
  {
    row.(strs := row.strs[1..])
  }

  ghost predicate EntryRowHasType(row: EntryRow, t: Type) {
    forall i :: 0 <= i < |row.strs| ==> HasType(row.h, ValueFor(row.es, row.strs[i]), t)
  }

  /** No key holds a colon. */
  predicate PlainStrings(strs: seq<Bytes>) {
    forall i :: 0 <= i < |strs| ==> COLON !in strs[i]
  }

  ghost predicate EntryRowReady(row: EntryRow, t: Type, depth: nat) {
    EntryRowHasType(row, t) && PlainStrings(row.strs) && Decodable(t) && Fits(t, depth) && NoEntry(row.r)
  }

  ghost function EntryStates(row: EntryRow, t: Type): seq<Tree>
    requires EntryRowHasType(row, t)
  {
    seq(|row.strs|, i requires 0 <= i < |row.strs| => State(row.h, ValueFor(row.es, row.strs[i]), t))
  }

  lemma EntryUnfold(row: EntryRow, depth: nat)
    requires row.strs != []
    ensures EntryOutput(row, depth) ==
            [LBRACE] + (row.strs[0] + ([COLON] + Output(FirstEntry(row, depth), depth)))
  {
    var items := EntryItems(row.es, row.strs);
    var rest := RestEntries(row);
    assert items[1..] == EntryItems(row.es, rest.strs);
    var first := Plain(row.h, ValueFor(row.es, row.strs[0]), depth);
    Reassociate(row.strs[0], first, PlainItems(row.h, items[1..], depth), row.r);
  }

  lemma Reassociate(s: Bytes, v: Bytes, rest: Bytes, r: Bytes)
    ensures [LBRACE] + s + [COLON] + v + [RBRACE] + rest + r ==
            [LBRACE] + (s + ([COLON] + (v + ([RBRACE] + (rest + r)))))
  {
  }

  lemma FirstEntryReady(row: EntryRow, t: Type, depth: nat)
    requires EntryRowReady(row, t, depth) && row.strs != []
    ensures Ready(FirstEntry(row, depth), t, depth)
  {
  }

  lemma RestEntriesReady(row: EntryRow, t: Type, depth: nat)
    requires EntryRowReady(row, t, depth) && row.strs != []
    ensures EntryRowReady(RestEntries(row), t, depth)
  {
  }

  lemma EntryStatesUnfold(row: EntryRow, t: Type)
    requires EntryRowHasType(row, t) && row.strs != []
    ensures EntryRowHasType(RestEntries(row), t)
    ensures EntryStates(row, t) ==
      [State(row.h, ValueFor(row.es, row.strs[0]), t)] + EntryStates(RestEntries(row), t)
  {
  }

  /** Two rows of map entries: equal bytes mean the same keys with equal values. */
  lemma {:induction false} DecodeEntries(row: EntryRow, row': EntryRow, t: Type, depth: nat)
    requires EntryRowReady(row, t, depth) && EntryRowReady(row', t, depth)
    requires EntryOutput(row, depth) == EntryOutput(row', depth)
    ensures row.r == row'.r && row.strs == row'.strs && EntryStates(row, t) == EntryStates(row', t)
    decreases Fuel(depth), 1 + |row.strs|
  {
    EmptyOrBrace(row, depth);
    EmptyOrBrace(row', depth);
    if row.strs != [] && row'.strs != [] {
      FirstEntryReady(row, t, depth);
      FirstEntryReady(row', t, depth);
      RestEntriesReady(row, t, depth);
      RestEntriesReady(row', t, depth);
      SplitFirst(row, row', depth);
      Decode(FirstEntry(row, depth), FirstEntry(row', depth), t, depth);
      var rest, rest' := RestEntries(row), RestEntries(row');
      CancelPrefix([RBRACE], EntryOutput(rest, depth), EntryOutput(rest', depth));
      DecodeEntries(rest, rest', t, depth);
      EntryStatesUnfold(row, t);
      EntryStatesUnfold(row', t);
      Rejoin(row.strs, row'.strs);
    }
  }

  /** Without entries only the rest is left; an entry starts with a byte that no rest starts with. */
  lemma EmptyOrBrace(row: EntryRow, depth: nat)
    ensures row.strs == [] ==> EntryOutput(row, depth) == row.r
    ensures row.strs != [] ==> !NoEntry(EntryOutput(row, depth))
  {
    if row.strs == [] {
      assert [] + row.r == row.r;
    } else {
      EntryUnfold(row, depth);
    }
  }

  lemma SplitFirst(row: EntryRow, row': EntryRow, depth: nat)
    requires row.strs != [] && row'.strs != [] && COLON !in row.strs[0] && COLON !in row'.strs[0]
    requires EntryOutput(row, depth) == EntryOutput(row', depth)
    ensures row.strs[0] == row'.strs[0]
    ensures Output(FirstEntry(row, depth), depth) == Output(FirstEntry(row', depth), depth)
  {
    EntryUnfold(row, depth);
    EntryUnfold(row', depth);
    SplitEntry(row.strs[0], Output(FirstEntry(row, depth), depth),
               row'.strs[0], Output(FirstEntry(row', depth), depth));
  }

  lemma SplitEntry(s: Bytes, x: Bytes, s': Bytes, x': Bytes)
    requires COLON !in s && COLON !in s'
    requires [LBRACE] + (s + ([COLON] + x)) == [LBRACE] + (s' + ([COLON] + x'))
    ensures s == s' && x == x'
  {
    CancelPrefix([LBRACE], s + ([COLON] + x), s' + ([COLON] + x'));
    SplitAtSeparator(s, [COLON] + x, s', [COLON] + x', COLON);
    CancelPrefix([COLON], x, x');
  }

  // ---------- Values ----------

  /** A number written in eight bytes can be read off. */
  lemma DecodeNumber(u: Uint64, r: Bytes, u': Uint64, r': Bytes)
    requires BigEndian(u, 8) + r == BigEndian(u', 8) + r'
    ensures u == u' && r == r'
  {
    var b, b' := BigEndian(u, 8), BigEndian(u', 8);
    assert b == (b + r)[..8] && b' == (b' + r')[..8];
    EightBytes();
    BigEndianInjective(u, u', 8);
    CancelPrefix(b, r, r');
  }

  lemma DecodeString(s: Bytes, r: Bytes, s': Bytes, r': Bytes)
    requires |s| < TWO_63 && |s'| < TWO_63
    requires BigEndian(|s|, 8) + (s + r) == BigEndian(|s'|, 8) + (s' + r')
    ensures s == s' && r == r'
  {
    DecodeNumber(|s|, s + r, |s'|, s' + r');
    assert s == (s + r)[..|s|] && s' == (s' + r')[..|s|];
    CancelPrefix(s, r, r');
  }

  /** The encoding of a decodable type is uniquely decodable: two values of the type, written before any
      bytes that may follow them, give equal bytes only if they hold the same and the same bytes follow. */
  lemma {:induction false} Decode(p: Place, p': Place, t: Type, depth: nat)
    requires Ready(p, t, depth) && Ready(p', t, depth)
    requires Output(p, depth) == Output(p', depth)
    ensures State(p.h, p.v, t) == State(p'.h, p'.v, t) && p.r == p'.r
    decreases Fuel(depth), 0
  {
    if depth > MAX_DEPTH {
      SingleState(p.h, p.v, p'.h, p'.v, t);
      CancelPrefix([], p.r, p'.r);
    } else if t.StructType? || t.SliceType? {
      DecodeNode(p, p', t, depth);
    } else if t.MapType? {
      DecodeMap(p, p', t, depth);
    } else if t.PointerType? {
      DecodePointer(p, p', t, depth);
    } else {
      DecodeScalar(p, p', t, depth);
    }
  }

  /** What a pointer points to. */
  function Pointee(p: Place): Place
    requires p.v.Pointer? && p.v.target.Some?
  {
    p.(v := Target(p.h, p.v.target.value))
  }

  /** Such bytes after a nil pointer would be read as what it points to. */
  predicate Completes(t: Type, r: Bytes)
    requires t.PointerType?
  {
    r != [] && (r[0] < 0x40 || (t.elem.StructType? && r[0] == LBRACKET))
  }

  lemma PointeeCompletes(p: Place, t: Type, depth: nat)
    requires t.PointerType? && Decodable(t) && HasType(p.h, p.v, t.elem) && depth <= MAX_DEPTH
    ensures Completes(t, Output(p, depth))
  {
    if LowStart(t.elem) {
      LowStarts(p, t.elem, depth);
    } else {
      StructStart(p, t.elem, depth);
    }
  }

  lemma PointerUnfold(p: Place, t: Type, depth: nat)
    requires HasType(p.h, p.v, t) && t.PointerType? && p.v.target.Some? && depth <= MAX_DEPTH
    ensures HasType(p.h, Pointee(p).v, t.elem)
    ensures Output(p, depth) == Output(Pointee(p), depth + 1)
  {
  }

  lemma PointeeReady(p: Place, t: Type, depth: nat)
    requires Ready(p, t, depth) && t.PointerType? && p.v.target.Some? && depth <= MAX_DEPTH
    ensures Ready(Pointee(p), t.elem, depth + 1)
  {
  }

  lemma LowStarts(p: Place, t: Type, depth: nat)
    requires HasType(p.h, p.v, t) && LowStart(t) && depth <= MAX_DEPTH
    ensures Output(p, depth) != [] && Output(p, depth)[0] < 0x40
  {
    if t.SliceType? {
      SliceStart(p, t, depth);
    } else {
      ScalarOutput(p, t, depth);
      if t.StringType? {
        FirstByteSmall(|p.v.s|);
      }
    }
  }

  lemma {:induction false} DecodePointer(p: Place, p': Place, t: Type, depth: nat)
    requires t.PointerType? && depth <= MAX_DEPTH && Ready(p, t, depth) && Ready(p', t, depth)
    requires Output(p, depth) == Output(p', depth)
    ensures State(p.h, p.v, t) == State(p'.h, p'.v, t) && p.r == p'.r
    decreases Fuel(depth + 1), 1
  {
    if p.v.target.Some? && p'.v.target.Some? {
      PointerUnfold(p, t, depth);
      PointerUnfold(p', t, depth);
      PointeeReady(p, t, depth);
      PointeeReady(p', t, depth);
      Decode(Pointee(p), Pointee(p'), t.elem, depth + 1);
    } else {
      NilOrFull(p, t, depth, Output(p, depth));
      NilOrFull(p', t, depth, Output(p', depth));
    }
  }

  /** A nil pointer writes nothing; any other starts with a byte that cannot follow a nil pointer. */
  lemma NilOrFull(p: Place, t: Type, depth: nat, out: Bytes)
    requires Ready(p, t, depth) && t.PointerType? && depth <= MAX_DEPTH && out == Output(p, depth)
    ensures Completes(t, out) <==> p.v.target.Some?
    ensures p.v.target.None? ==> out == p.r
  {
    if p.v.target.None? {
      assert [] + p.r == p.r;
    } else {
      PointerUnfold(p, t, depth);
      PointeeCompletes(Pointee(p), t, depth + 1);
    }
  }

  /** The nested values of a struct or slice. */
  function ChildRow(p: Place): Row {
    Row(p.h, Children(p.h, p.v), p.r)
  }

  ghost function ChildTypes(p: Place, t: Type): seq<Type>
    requires HasType(p.h, p.v, t) && (t.StructType? || t.SliceType?)
  {
    var n := |Children(p.h, p.v)|;
    seq(n, i requires 0 <= i < n => if t.StructType? then t.fields[i].typ else t.elem)
  }

  lemma PlaceUnfold(p: Place, depth: nat)
    requires !p.v.Pointer? && depth <= MAX_DEPTH
    ensures Output(p, depth) == Header(p.h, p.v) + RowOutput(ChildRow(p), depth + 1)
  {
  }

  lemma ChildRowHasTypes(p: Place, t: Type)
    requires HasType(p.h, p.v, t) && (t.StructType? || t.SliceType?)
    ensures RowHasTypes(ChildRow(p), ChildTypes(p, t))
  {
    if t.SliceType? {
      assert forall i :: 0 <= i < |Children(p.h, p.v)| ==> Children(p.h, p.v)[i].suffix == [];
    }
  }

  lemma ChildRowReady(p: Place, t: Type, depth: nat)
    requires Ready(p, t, depth) && (t.StructType? || t.SliceType?) && depth <= MAX_DEPTH
    ensures RowReady(ChildRow(p), ChildTypes(p, t), depth + 1)
  {
    ChildRowHasTypes(p, t);
    if t.StructType? {
      FieldsGuarded(p, t);
    } else {
      ElementsGuarded(p, t);
    }
  }

  lemma FieldsGuarded(p: Place, t: Type)
    requires HasType(p.h, p.v, t) && t.StructType? && Decodable(t) && Follows(t, p.r)
    ensures Guarded(ChildRow(p), ChildTypes(p, t))
  {
    var row, ts := ChildRow(p), ChildTypes(p, t);
    forall i | 0 < i < |ts|
      ensures Separates(ts[i - 1], row.items[i], ts[i])
    {
      assert row.items[i].prefix == Label(t.fields[i].name);
    }
  }

  lemma ElementsGuarded(p: Place, t: Type)
    requires HasType(p.h, p.v, t) && t.SliceType? && Decodable(t) && Follows(t, p.r)
    ensures Guarded(ChildRow(p), ChildTypes(p, t))
  {
    var row, ts := ChildRow(p), ChildTypes(p, t);
    forall i | 0 < i < |ts|
      ensures Separates(ts[i - 1], row.items[i], ts[i])
    {
      assert ts[i - 1] == t.elem == ts[i];
      assert row.items[i].prefix == [];
    }
  }

  lemma NodeState(p: Place, t: Type)
    requires HasType(p.h, p.v, t) && (t.StructType? || t.SliceType?)
    requires p.v != Slice(None)
    ensures RowHasTypes(ChildRow(p), ChildTypes(p, t))
    ensures State(p.h, p.v, t) == Node(RowStates(ChildRow(p), ChildTypes(p, t)))
  {
    ChildRowHasTypes(p, t);
  }

  lemma {:induction false} DecodeNode(p: Place, p': Place, t: Type, depth: nat)
    requires (t.StructType? || t.SliceType?) && depth <= MAX_DEPTH
    requires Ready(p, t, depth) && Ready(p', t, depth)
    requires Output(p, depth) == Output(p', depth)
    ensures State(p.h, p.v, t) == State(p'.h, p'.v, t) && p.r == p'.r
    decreases Fuel(depth + 1), 2 + |Children(p.h, p.v)|
  {
    var row, row' := ChildRow(p), ChildRow(p');
    PlaceUnfold(p, depth);
    PlaceUnfold(p', depth);
    if t.SliceType? {
      NilSlice(p, t, depth);
      NilSlice(p', t, depth);
    }
    if p.v != Slice(None) && p'.v != Slice(None) {
      SameHeader(p, p', t, depth);
      ChildRowReady(p, t, depth);
      ChildRowReady(p', t, depth);
      DecodeRow(row, row', ChildTypes(p, t), depth + 1);
      NodeState(p, t);
      NodeState(p', t);
    }
  }

  /** Structs write no header, slices their length; either way the nested values remain. */
  lemma SameHeader(p: Place, p': Place, t: Type, depth: nat)
    requires t.StructType? || t.SliceType?
    requires HasType(p.h, p.v, t) && HasType(p'.h, p'.v, t) && p.v != Slice(None) && p'.v != Slice(None)
    requires Header(p.h, p.v) + RowOutput(ChildRow(p), depth + 1) ==
             Header(p'.h, p'.v) + RowOutput(ChildRow(p'), depth + 1)
    ensures RowOutput(ChildRow(p), depth + 1) == RowOutput(ChildRow(p'), depth + 1)
    ensures ChildTypes(p, t) == ChildTypes(p', t)
    ensures SamePrefixes(Children(p.h, p.v), Children(p'.h, p'.v))
  {
    var out, out' := RowOutput(ChildRow(p), depth + 1), RowOutput(ChildRow(p'), depth + 1);
    if t.StructType? {
      CancelPrefix([], out, out');
    } else {
      DecodeNumber(|Children(p.h, p.v)|, out, |Children(p'.h, p'.v)|, out');
    }
  }

  lemma {:induction false} DecodeMap(p: Place, p': Place, t: Type, depth: nat)
    requires t.MapType? && depth <= MAX_DEPTH && Ready(p, t, depth) && Ready(p', t, depth)
    requires Output(p, depth) == Output(p', depth)
    ensures State(p.h, p.v, t) == State(p'.h, p'.v, t) && p.r == p'.r
    decreases Fuel(depth + 1), 2 + |MapRow(p).strs|
  {
    var row, row' := MapRow(p), MapRow(p');
    MapUnfold(p, depth);
    MapUnfold(p', depth);
    MapRowReady(p, t, depth);
    MapRowReady(p', t, depth);
    DecodeEntries(row, row', t.val, depth + 1);
    SameTable(row, row', t);
    TableState(p, t);
    TableState(p', t);
  }

  predicate Scalar(t: Type) {
    !t.StructType? && !t.SliceType? && !t.MapType? && !t.PointerType?
  }

  /** A scalar writes its header. */
  lemma ScalarOutput(p: Place, t: Type, depth: nat)
    requires HasType(p.h, p.v, t) && Scalar(t) && depth <= MAX_DEPTH
    ensures Output(p, depth) == Header(p.h, p.v) + p.r
  {
    OneKindOfPlain(p.h, p.v, depth);
  }

  lemma DecodeScalar(p: Place, p': Place, t: Type, depth: nat)
    requires Ready(p, t, depth) && Ready(p', t, depth) && Scalar(t) && depth <= MAX_DEPTH
    requires Output(p, depth) == Output(p', depth)
    ensures State(p.h, p.v, t) == State(p'.h, p'.v, t) && p.r == p'.r
  {
    ScalarOutput(p, t, depth);
    ScalarOutput(p', t, depth);
    match t
    case IntType => DecodeNumber(ToUint64(p.v.i), p.r, ToUint64(p'.v.i), p'.r);
    case UintType => DecodeNumber(p.v.u, p.r, p'.v.u, p'.r);
    case BoolType => DecodeBool(p.v.b, p.r, p'.v.b, p'.r);
    case StringType => DecodeText(p.v.s, p.r, p'.v.s, p'.r);
    case SyncType => CancelPrefix([], p.r, p'.r);
  }

  lemma DecodeBool(b: bool, r: Bytes, b': bool, r': Bytes)
    requires [if b then 1 else 0] + r == [if b' then 1 else 0] + r'
    ensures b == b' && r == r'
  {
    assert ([if b then 1 else 0] + r)[0] == ([if b' then 1 else 0] + r')[0];
    CancelPrefix([if b then 1 else 0], r, r');
  }

  lemma Associate(a: Bytes, b: Bytes, c: Bytes)
    ensures a + b + c == a + (b + c)
  {
  }

  lemma DecodeText(s: Bytes, r: Bytes, s': Bytes, r': Bytes)
    requires |s| < TWO_63 && |s'| < TWO_63
    requires BigEndian(|s|, 8) + s + r == BigEndian(|s'|, 8) + s' + r'
    ensures s == s' && r == r'
  {
    Associate(BigEndian(|s|, 8), s, r);
    Associate(BigEndian(|s'|, 8), s', r');
    DecodeString(s, r, s', r');
  }

  /** A nil slice writes nothing; any other starts with a byte that cannot follow a nil slice. */
  lemma NilSlice(p: Place, t: Type, depth: nat)
    requires Ready(p, t, depth) && t.SliceType? && depth <= MAX_DEPTH
    ensures p.v.cell.None? ==> Output(p, depth) == p.r && Stop(p.r) && State(p.h, p.v, t) == Nil
    ensures p.v.cell.Some? ==> !Stop(Output(p, depth))
  {
    if p.v.cell.None? {
      PlaceUnfold(p, depth);
      assert [] + ([] + p.r) == p.r;
    } else {
      SliceStart(p, t, depth);
    }
  }

  /** The entries of a map, in the order in which they are written. */
  function MapRow(p: Place): EntryRow
    requires p.v.Map?
  {
    var es := MapEntries(p.h, p.v);
    EntryRow(p.h, es, InsertionSort(LexLeq, PrintedKeys(es)), p.r)
  }

  lemma MapUnfold(p: Place, depth: nat)
    requires p.v.Map? && depth <= MAX_DEPTH
    ensures EntryOutput(MapRow(p), depth + 1) == Output(p, depth)
  {
    PlaceUnfold(p, depth);
    assert Children(p.h, p.v) == EntryItems(MapRow(p).es, MapRow(p).strs);
    assert [] + RowOutput(ChildRow(p), depth + 1) == RowOutput(ChildRow(p), depth + 1);
  }

  lemma MapHasEntries(p: Place, t: Type)
    requires HasType(p.h, p.v, t) && t.MapType?
    ensures EntriesHaveType(p.h, MapRow(p).es, t)
  {
  }

  lemma MapRowReady(p: Place, t: Type, depth: nat)
    requires Ready(p, t, depth) && t.MapType? && depth <= MAX_DEPTH
    ensures EntriesHaveType(p.h, MapRow(p).es, t)
    ensures EntryRowReady(MapRow(p), t.val, depth + 1)
  {
    MapHasEntries(p, t);
    SortedKeysHaveTypes(MapRow(p), t);
  }

  lemma TableState(p: Place, t: Type)
    requires HasType(p.h, p.v, t) && t.MapType?
    ensures EntriesHaveType(p.h, MapRow(p).es, t)
    ensures State(p.h, p.v, t) == TableOf(p.h, MapRow(p).es, t)
  {
  }

  /** The entries of a map value; a nil map has none. */
  function MapEntries(h: Heap, v: Value): seq<(Key, Value)>
    requires v.Map?
  {
    if v.cell.None? then [] else EntriesAt(h, v.cell.value)
  }

  ghost predicate EntriesHaveType(h: Heap, es: seq<(Key, Value)>, t: Type)
    requires t.MapType?
  {
    && DistinctKeys(es)
    && forall i :: 0 <= i < |es| ==> HasKeyType(es[i].0, t.keys) && HasType(h, es[i].1, t.val)
  }

  /** Keys of one type print differently. */
  lemma PrintedDifferently(h: Heap, es: seq<(Key, Value)>, t: Type)
    requires t.MapType? && EntriesHaveType(h, es, t)
    ensures Distinct(PrintedKeys(es))
  {
    forall i, j | 0 <= i < j < |es|
      ensures PrintedKeys(es)[i] != PrintedKeys(es)[j]
    {
      if Printed(es[i].0) == Printed(es[j].0) {
        PrintedInjective(es[i].0, es[j].0, t.keys);
      }
    }
  }

  lemma PrintedInjective(k: Key, k': Key, keys: KeyKind)
    requires HasKeyType(k, keys) && HasKeyType(k', keys) && Printed(k) == Printed(k')
    ensures k == k'
  {
    if keys == IntKeys {
      FormatIntInjective(k.i, k'.i);
    }
  }

  lemma SortedKeysHaveTypes(row: EntryRow, t: Type)
    requires t.MapType? && EntriesHaveType(row.h, row.es, t)
    requires row.strs == InsertionSort(LexLeq, PrintedKeys(row.es))
    ensures EntryRowHasType(row, t.val)
    ensures t.keys != StringKeys ==> PlainStrings(row.strs)
  {
    PrintedDifferently(row.h, row.es, t);
    forall i | 0 <= i < |row.strs|
      ensures t.keys != StringKeys ==> COLON !in row.strs[i]
      ensures HasType(row.h, ValueFor(row.es, row.strs[i]), t.val)
    {
      assert row.strs[i] in multiset(PrintedKeys(row.es));
      var j :| 0 <= j < |row.es| && PrintedKeys(row.es)[j] == row.strs[i];
      SnapshotTraversal.ValueForEntry(row.es, j);
    }
  }

  /** The contents of a map with these entries. */
  ghost function TableOf(h: Heap, es: seq<(Key, Value)>, t: Type): Tree
    requires t.MapType? && EntriesHaveType(h, es, t)
  {
    Table(map k | k in KeySet(es) :: State(h, MapIndex(es, k), t.val))
  }

  lemma LookupByString(h: Heap, es: seq<(Key, Value)>, t: Type, k: Key)
    requires t.MapType? && EntriesHaveType(h, es, t) && k in KeySet(es)
    ensures HasKeyType(k, t.keys) && Printed(k) in InsertionSort(LexLeq, PrintedKeys(es))
    ensures MapIndex(es, k) == ValueFor(es, Printed(k)) && HasType(h, MapIndex(es, k), t.val)
  {
    PrintedDifferently(h, es, t);
    var i :| 0 <= i < |es| && es[i].0 == k;
    SnapshotTraversal.ValueForEntry(es, i);
    assert PrintedKeys(es)[i] == Printed(k);
    assert Printed(k) in multiset(PrintedKeys(es));
    assert Printed(k) in multiset(InsertionSort(LexLeq, PrintedKeys(es)));
  }

  /** A printed key belongs to a key of the map. */
  lemma KeyOfString(es: seq<(Key, Value)>, s: Bytes) returns (k: Key)
    requires s in InsertionSort(LexLeq, PrintedKeys(es))
    ensures k in KeySet(es) && Printed(k) == s
  {
    assert s in multiset(InsertionSort(LexLeq, PrintedKeys(es)));
    assert s in multiset(PrintedKeys(es));
    var i :| 0 <= i < |es| && PrintedKeys(es)[i] == s;
    k := es[i].0;
  }

  lemma KeysIncluded(h: Heap, es: seq<(Key, Value)>, h': Heap, es': seq<(Key, Value)>, t: Type, k: Key)
    requires t.MapType? && EntriesHaveType(h, es, t) && EntriesHaveType(h', es', t)
    requires InsertionSort(LexLeq, PrintedKeys(es)) == InsertionSort(LexLeq, PrintedKeys(es'))
    requires k in KeySet(es)
    ensures k in KeySet(es')
  {
    LookupByString(h, es, t, k);
    var k' := KeyOfString(es', Printed(k));
    LookupByString(h', es', t, k');
    PrintedInjective(k, k', t.keys);
  }

  lemma SameKeys(h: Heap, es: seq<(Key, Value)>, h': Heap, es': seq<(Key, Value)>, t: Type)
    requires t.MapType? && EntriesHaveType(h, es, t) && EntriesHaveType(h', es', t)
    requires InsertionSort(LexLeq, PrintedKeys(es)) == InsertionSort(LexLeq, PrintedKeys(es'))
    ensures KeySet(es) == KeySet(es')
  {
    forall k | k in KeySet(es) || k in KeySet(es')
      ensures k in KeySet(es) && k in KeySet(es')
    {
      if k in KeySet(es) { KeysIncluded(h, es, h', es', t, k); } else { KeysIncluded(h', es', h, es, t, k); }
    }
  }

  lemma SameValue(row: EntryRow, row': EntryRow, t: Type, k: Key)
    requires t.MapType? && EntriesHaveType(row.h, row.es, t) && EntriesHaveType(row'.h, row'.es, t)
    requires row.strs == InsertionSort(LexLeq, PrintedKeys(row.es)) == row'.strs
    requires EntryRowHasType(row, t.val) && EntryRowHasType(row', t.val)
    requires EntryStates(row, t.val) == EntryStates(row', t.val)
    requires k in KeySet(row.es) && k in KeySet(row'.es)
    requires row'.strs == InsertionSort(LexLeq, PrintedKeys(row'.es))
    ensures TableOf(row.h, row.es, t).entries[k] == TableOf(row'.h, row'.es, t).entries[k]
  {
    LookupByString(row.h, row.es, t, k);
    LookupByString(row'.h, row'.es, t, k);
    var i :| 0 <= i < |row.strs| && row.strs[i] == Printed(k);
    assert EntryStates(row, t.val)[i] == EntryStates(row', t.val)[i];
  }

  /** Maps with the same printed keys and equal values for them hold the same. */
  lemma SameTable(row: EntryRow, row': EntryRow, t: Type)
    requires t.MapType? && EntriesHaveType(row.h, row.es, t) && EntriesHaveType(row'.h, row'.es, t)
    requires row.strs == InsertionSort(LexLeq, PrintedKeys(row.es)) == row'.strs
    requires row'.strs == InsertionSort(LexLeq, PrintedKeys(row'.es))
    requires EntryRowHasType(row, t.val) && EntryRowHasType(row', t.val)
    requires EntryStates(row, t.val) == EntryStates(row', t.val)
    ensures TableOf(row.h, row.es, t) == TableOf(row'.h, row'.es, t)
  {
    SameKeys(row.h, row.es, row'.h, row'.es, t);
    TableKeys(row.h, row.es, t);
    TableKeys(row'.h, row'.es, t);
    forall k | k in KeySet(row.es)
      ensures TableOf(row.h, row.es, t).entries[k] == TableOf(row'.h, row'.es, t).entries[k]
    {
      SameValue(row, row', t, k);
    }
    SameMaps(TableOf(row.h, row.es, t).entries, TableOf(row'.h, row'.es, t).entries);
  }

  lemma SameMaps(m: map<Key, Tree>, m': map<Key, Tree>)
    requires m.Keys == m'.Keys && forall k :: k in m.Keys ==> m[k] == m'[k]
    ensures m == m'
  {
  }

  // ---------- The other direction: equal contents give equal bytes ----------

  lemma {:induction false} EncodeRow(row: Row, row': Row, ts: seq<Type>, depth: nat)
    requires RowHasTypes(row, ts) && RowHasTypes(row', ts) && SamePrefixes(row.items, row'.items)
    requires row.r == row'.r && RowStates(row, ts) == RowStates(row', ts)
    ensures RowOutput(row, depth) == RowOutput(row', depth)
    decreases Fuel(depth), 1 + |row.items|
  {
    if row.items != [] {
      RowUnfold(row, depth);
      RowUnfold(row', depth);
      RowStatesUnfold(row, ts);
      RowStatesUnfold(row', ts);
      assert RowStates(row, ts)[0] == RowStates(row', ts)[0];
      assert RowStates(row, ts)[1..] == RowStates(Rest(row), ts[1..]);
      assert RowStates(row', ts)[1..] == RowStates(Rest(row'), ts[1..]);
      EncodeRow(Rest(row), Rest(row'), ts[1..], depth);
      Encode(First(row, depth), First(row', depth), ts[0], depth);
    }
  }

  lemma {:induction false} EncodeEntries(row: EntryRow, row': EntryRow, t: Type, depth: nat)
    requires EntryRowHasType(row, t) && EntryRowHasType(row', t) && row.strs == row'.strs
    requires row.r == row'.r && EntryStates(row, t) == EntryStates(row', t)
    ensures EntryOutput(row, depth) == EntryOutput(row', depth)
    decreases Fuel(depth), 1 + |row.strs|
  {
    EmptyOrBrace(row, depth);
    EmptyOrBrace(row', depth);
    if row.strs != [] {
      EntryUnfold(row, depth);
      EntryUnfold(row', depth);
      EntryStatesUnfold(row, t);
      EntryStatesUnfold(row', t);
      assert EntryStates(row, t)[0] == EntryStates(row', t)[0];
      assert EntryStates(row, t)[1..] == EntryStates(RestEntries(row), t);
      assert EntryStates(row', t)[1..] == EntryStates(RestEntries(row'), t);
      EncodeEntries(RestEntries(row), RestEntries(row'), t, depth);
      Encode(FirstEntry(row, depth), FirstEntry(row', depth), t, depth);
    }
  }

  /** Values of one type that hold the same write the same bytes. */
  lemma {:induction false} Encode(p: Place, p': Place, t: Type, depth: nat)
    requires HasType(p.h, p.v, t) && HasType(p'.h, p'.v, t)
    requires State(p.h, p.v, t) == State(p'.h, p'.v, t) && p.r == p'.r
    ensures Output(p, depth) == Output(p', depth)
    decreases Fuel(depth), 0
  {
    if depth <= MAX_DEPTH {
      if t.MapType? {
        EncodeMap(p, p', t, depth);
      } else if t.StructType? || t.SliceType? {
        EncodeNode(p, p', t, depth);
      } else if t.PointerType? {
        if p.v.target.Some? {
          Encode(Pointee(p), Pointee(p'), t.elem, depth + 1);
        }
      } else {
        EncodeScalar(p, p', t, depth);
      }
    }
  }

  lemma EncodeScalar(p: Place, p': Place, t: Type, depth: nat)
    requires Scalar(t) && depth <= MAX_DEPTH
    requires HasType(p.h, p.v, t) && HasType(p'.h, p'.v, t)
    requires State(p.h, p.v, t) == State(p'.h, p'.v, t) && p.r == p'.r
    ensures Output(p, depth) == Output(p', depth)
  {
    ScalarOutput(p, t, depth);
    ScalarOutput(p', t, depth);
  }

  /** The shape of a struct or slice is part of its contents. */
  lemma SameShape(p: Place, p': Place, t: Type)
    requires HasType(p.h, p.v, t) && HasType(p'.h, p'.v, t) && (t.StructType? || t.SliceType?)
    requires State(p.h, p.v, t) == State(p'.h, p'.v, t)
    ensures p.v == Slice(None) <==> p'.v == Slice(None)
    ensures p.v != Slice(None) ==>
              && RowHasTypes(ChildRow(p), ChildTypes(p, t)) && RowHasTypes(ChildRow(p'), ChildTypes(p', t))
              && ChildTypes(p, t) == ChildTypes(p', t) && Header(p.h, p.v) == Header(p'.h, p'.v)
              && RowStates(ChildRow(p), ChildTypes(p, t)) == RowStates(ChildRow(p'), ChildTypes(p', t))
              && SamePrefixes(Children(p.h, p.v), Children(p'.h, p'.v))
  {
    if p.v != Slice(None) && p'.v != Slice(None) {
      NodeState(p, t);
      NodeState(p', t);
      assert |RowStates(ChildRow(p), ChildTypes(p, t))| == |RowStates(ChildRow(p'), ChildTypes(p', t))|;
      assert ChildTypes(p, t) == ChildTypes(p', t);
    }
  }

  lemma {:induction false} EncodeNode(p: Place, p': Place, t: Type, depth: nat)
    requires (t.StructType? || t.SliceType?) && depth <= MAX_DEPTH
    requires HasType(p.h, p.v, t) && HasType(p'.h, p'.v, t)
    requires State(p.h, p.v, t) == State(p'.h, p'.v, t) && p.r == p'.r
    ensures Output(p, depth) == Output(p', depth)
    decreases Fuel(depth + 1), 2 + |Children(p.h, p.v)|
  {
    PlaceUnfold(p, depth);
    PlaceUnfold(p', depth);
    SameShape(p, p', t);
    if p.v != Slice(None) {
      EncodeRow(ChildRow(p), ChildRow(p'), ChildTypes(p, t), depth + 1);
    }
  }

  lemma {:induction false} EncodeMap(p: Place, p': Place, t: Type, depth: nat)
    requires t.MapType? && depth <= MAX_DEPTH
    requires HasType(p.h, p.v, t) && HasType(p'.h, p'.v, t)
    requires State(p.h, p.v, t) == State(p'.h, p'.v, t) && p.r == p'.r
    ensures Output(p, depth) == Output(p', depth)
    decreases Fuel(depth + 1), 2 + |MapRow(p).strs|
  {
    var row, row' := MapRow(p), MapRow(p');
    MapUnfold(p, depth);
    MapUnfold(p', depth);
    TableState(p, t);
    TableState(p', t);
    SortedKeysHaveTypes(row, t);
    SortedKeysHaveTypes(row', t);
    SameTableSameStrings(row, row', t);
    SameTableSameStates(row, row', t);
    EncodeEntries(row, row', t.val, depth + 1);
  }

  ghost predicate SameTables(row: EntryRow, row': EntryRow, t: Type) {
    && t.MapType? && EntriesHaveType(row.h, row.es, t) && EntriesHaveType(row'.h, row'.es, t)
    && row.strs == InsertionSort(LexLeq, PrintedKeys(row.es))
    && row'.strs == InsertionSort(LexLeq, PrintedKeys(row'.es))
    && TableOf(row.h, row.es, t) == TableOf(row'.h, row'.es, t)
  }

  lemma TableKeys(h: Heap, es: seq<(Key, Value)>, t: Type)
    requires t.MapType? && EntriesHaveType(h, es, t)
    ensures TableOf(h, es, t).entries.Keys == KeySet(es)
  {
  }

  lemma SameTableSameStrings(row: EntryRow, row': EntryRow, t: Type)
    requires SameTables(row, row', t)
    ensures row.strs == row'.strs
  {
    TableKeys(row.h, row.es, t);
    TableKeys(row'.h, row'.es, t);
    PrintedDifferently(row.h, row.es, t);
    PrintedDifferently(row'.h, row'.es, t);
    SamePrintedSets(row.es, row'.es);
    DistinctMultiset(PrintedKeys(row.es));
    DistinctMultiset(PrintedKeys(row'.es));
    LexTotalPreorder();
    InsertionSortSorted(LexLeq, PrintedKeys(row.es));
    InsertionSortSorted(LexLeq, PrintedKeys(row'.es));
    SortedUnique(LexLeq, row.strs, row'.strs);
  }

  lemma SamePrintedSets(es: seq<(Key, Value)>, es': seq<(Key, Value)>)
    requires KeySet(es) == KeySet(es')
    ensures Elements(PrintedKeys(es)) == Elements(PrintedKeys(es'))
  {
    forall i | 0 <= i < |es|
      ensures PrintedKeys(es)[i] in PrintedKeys(es')
    {
      assert es[i].0 in KeySet(es');
      var j :| 0 <= j < |es'| && es'[j].0 == es[i].0;
      assert PrintedKeys(es')[j] == PrintedKeys(es)[i];
    }
    forall i | 0 <= i < |es'|
      ensures PrintedKeys(es')[i] in PrintedKeys(es)
    {
      assert es'[i].0 in KeySet(es);
      var j :| 0 <= j < |es| && es[j].0 == es'[i].0;
      assert PrintedKeys(es)[j] == PrintedKeys(es')[i];
    }
  }

  lemma SameTableSameStates(row: EntryRow, row': EntryRow, t: Type)
    requires SameTables(row, row', t) && row.strs == row'.strs
    requires EntryRowHasType(row, t.val) && EntryRowHasType(row', t.val)
    ensures EntryStates(row, t.val) == EntryStates(row', t.val)
  {
    forall i | 0 <= i < |row.strs|
      ensures EntryStates(row, t.val)[i] == EntryStates(row', t.val)[i]
    {
      var k := KeyOfString(row.es, row.strs[i]);
      TableKeys(row.h, row.es, t);
      TableKeys(row'.h, row'.es, t);
      LookupByString(row.h, row.es, t, k);
      LookupByString(row'.h, row'.es, t, k);
      assert TableOf(row.h, row.es, t).entries[k] == TableOf(row'.h, row'.es, t).entries[k];
    }
  }

  // ---------- The decision theorems ----------

  /** Values of a decodable type whose walks meet no pointer twice: the snapshots are equal exactly when the values
      hold the same. */
  lemma SnapshotDecides(h: Heap, v: Value, h': Heap, v': Value, t: Type, f: seq<Address>, f': seq<Address>, depth: nat)
    requires HasType(h, v, t) && HasType(h', v', t) && Decodable(t) && WithinLevelEight(t, depth)
    requires Unshared(h, v, f, depth) && Unshared(h', v', f', depth)
    ensures Snapshot(h, v, f, depth).bytes == Snapshot(h', v', f', depth).bytes
            <==> State(h, v, t) == State(h', v', t)
  {
    UnsharedWalk(h, v, f, depth);
    UnsharedWalk(h', v', f', depth);
    FitsExactly(t, depth);
    PlainDecides(h, v, h', v', t, depth);
  }

  lemma PlainDecides(h: Heap, v: Value, h': Heap, v': Value, t: Type, depth: nat)
    requires HasType(h, v, t) && HasType(h', v', t) && Decodable(t) && Fits(t, depth)
    ensures Plain(h, v, depth) == Plain(h', v', depth) <==> State(h, v, t) == State(h', v', t)
  {
    var p := AtEnd(h, v, t, depth);
    var p' := AtEnd(h', v', t, depth);
    if Output(p, depth) == Output(p', depth) {
      Decode(p, p', t, depth);
    }
    if State(h, v, t) == State(h', v', t) {
      Encode(p, p', t, depth);
    }
  }

  /** A value with nothing after it. */
  lemma AtEnd(h: Heap, v: Value, t: Type, depth: nat) returns (p: Place)
    ensures p.h == h && p.v == v && p.r == [] && Follows(t, p.r) && Output(p, depth) == Plain(h, v, depth)
  {
    p := Place(h, v, []);
    NothingAfter(Plain(h, v, depth));
  }

  lemma NothingAfter(b: Bytes)
    ensures b + [] == b
  {
  }

  /** The tracker's object is a pointer: when neither walk meets a pointer twice, its snapshots before and after are
      equal exactly when the tracked state behind it is the same before and after. */
  lemma TrackerDecides(before: Heap, after: Heap, obj: Address, t: Type)
    requires HasType(before, Target(before, obj), t) && HasType(after, Target(after, obj), t)
    requires Decodable(t) && WithinLevelEight(t, 1)
    requires Unshared(before, Pointer(Some(obj)), [], 0) && Unshared(after, Pointer(Some(obj)), [], 0)
    ensures Snapshot(before, Pointer(Some(obj)), [], 0).bytes == Snapshot(after, Pointer(Some(obj)), [], 0).bytes
            <==> State(before, Target(before, obj), t) == State(after, Target(after, obj), t)
  {
    SnapshotDecides(before, Target(before, obj), after, Target(after, obj), t, [] + [obj], [] + [obj], 1);
  }

  // ---------- Types without pointers ----------

  /** The items are values of these types, which are without pointers. */
  ghost predicate ItemsPointerFree(h: Heap, items: seq<Item>, ts: seq<Type>) {
    && |items| == |ts|
    && forall i :: 0 <= i < |ts| ==> HasType(h, items[i].value, ts[i]) && PointerFree(ts[i])
  }

  lemma PointerFreeChildren(h: Heap, v: Value, t: Type) returns (ts: seq<Type>)
    requires HasType(h, v, t) && PointerFree(t)
    ensures !v.Pointer? && ItemsPointerFree(h, Children(h, v), ts)
  {
    if t.StructType? || t.SliceType? {
      ts := ChildTypes(Place(h, v, []), t);
    } else if t.MapType? {
      ts := EntryTypes(h, MapEntries(h, v), t);
    } else {
      ts := [];
    }
  }

  lemma EntryTypes(h: Heap, es: seq<(Key, Value)>, t: Type) returns (ts: seq<Type>)
    requires t.MapType? && PointerFree(t) && EntriesHaveType(h, es, t)
    ensures ItemsPointerFree(h, MapItems(es), ts)
  {
    var row := EntryRow(h, es, InsertionSort(LexLeq, PrintedKeys(es)), []);
    SortedKeysHaveTypes(row, t);
    ts := seq(|row.strs|, _ => t.val);
    assert MapItems(es) == EntryItems(es, row.strs);
  }

  /** The walk over a value of a type without pointers meets no pointer at all. */
  lemma {:induction false} PointerFreeUnshared(h: Heap, v: Value, t: Type, f: seq<Address>, depth: nat)
    requires HasType(h, v, t) && PointerFree(t)
    ensures Unshared(h, v, f, depth)
    decreases Fuel(depth), 0
  {
    if depth <= MAX_DEPTH {
      var ts := PointerFreeChildren(h, v, t);
      PointerFreeItems(h, Children(h, v), ts, f, depth + 1);
      CompositeRepeats(h, v, f, depth);
    }
  }

  lemma CompositeRepeats(h: Heap, v: Value, f: seq<Address>, depth: nat)
    requires !v.Pointer? && depth <= MAX_DEPTH
    ensures Repeats(h, v, f, depth) == ItemRepeats(h, Children(h, v), f, depth + 1)
  {
  }

  lemma {:induction false} PointerFreeItems(h: Heap, items: seq<Item>, ts: seq<Type>, f: seq<Address>, depth: nat)
    requires ItemsPointerFree(h, items, ts)
    ensures ItemRepeats(h, items, f, depth) == 0
    decreases Fuel(depth), 1 + |items|
  {
    if items != [] {
      PointerFreeUnshared(h, items[0].value, ts[0], f, depth);
      PointerFreeItems(h, items[1..], ts[1..], Snapshot(h, items[0].value, f, depth).followed, depth);
    }
  }
}
