/** The types of tracked values, what a value of a type holds, and the types whose encoding can be read back. */
module SnapshotTypes {
  import opened GoTypes
  import opened Ordering
  import opened Text
  import opened ObjectGraph

  /** Go types.  `SyncType` stands for the sync primitives, whose state is not meant to show, `UnhandledType` for the
      kinds that the walk has no case for.  `nilable` says whether a nil slice may occur at that place. */
  datatype Type =
    | IntType | UintType | BoolType | StringType | SyncType | UnhandledType
    | StructType(fields: seq<FieldType>)
    | SliceType(elem: Type, nilable: bool)
    | MapType(keys: KeyKind, val: Type)
    | PointerType(elem: Type)

  /** The keys that may occur in a map: integers, strings without a colon, or any strings. */
  datatype KeyKind = IntKeys | PlainKeys | StringKeys

  /** A tracked struct field. */
  datatype FieldType = FieldType(name: Bytes, typ: Type)

  predicate HasKeyType(k: Key, keys: KeyKind) {
    match keys
    case IntKeys => k.IntKey?
    case PlainKeys => k.StringKey? && COLON !in k.s
    case StringKeys => k.StringKey?
  }

  /** No string and no slice is as long as this: the address space of a Go program is far smaller. */
  const MAX_LENGTH: int := 0x4000_0000_0000_0000

  /** Value `v` in heap `h` is of type `t`.  Only the tracked fields of a struct matter. */
  ghost predicate HasType(h: Heap, v: Value, t: Type)
    decreases t
  {
    match t
    case IntType => v.Int?
    case UintType => v.Uint?
    case BoolType => v.Bool?
    case StringType => v.String? && |v.s| < MAX_LENGTH
    case SyncType => v.Struct? && v.sync
    case UnhandledType => v.Other?
    case StructType(fields) =>
      && v.Struct? && !v.sync
      && var items := Children(h, v);
      && |items| == |fields|
      && forall i :: 0 <= i < |fields| ==>
        && items[i].prefix == Label(fields[i].name) && items[i].suffix == []
        && HasType(h, items[i].value, fields[i].typ)
    case SliceType(elem, nilable) =>
      && v.Slice?
      && (v.cell.None? ==> nilable)
      && var items := Children(h, v);
      && |items| < MAX_LENGTH
      && forall i :: 0 <= i < |items| ==> HasType(h, items[i].value, elem)
    case MapType(keys, val) =>
      && v.Map?
      && (v.cell.Some? ==>
        var entries := EntriesAt(h, v.cell.value);
        && DistinctKeys(entries)
        && forall i :: 0 <= i < |entries| ==>
          HasKeyType(entries[i].0, keys) && HasType(h, entries[i].1, val))
    case PointerType(elem) =>
      v.Pointer? && (v.target.Some? ==> HasType(h, Target(h, v.target.value), elem))
  }

  /** The observable contents of a value. */
  datatype Tree =
    | Unobserved
    | Number(i: int)
    | Truth(b: bool)
    | Text(s: Bytes)
    | Content(c: nat)
    | Nil
    | Node(children: seq<Tree>)
    | Table(entries: map<Key, Tree>)

  ghost function KeySet(entries: seq<(Key, Value)>): set<Key> {
    set i | 0 <= i < |entries| :: entries[i].0
  }

  /** What a value of type `t` holds.  A nil map and an empty map hold the same. */
  ghost function State(h: Heap, v: Value, t: Type): Tree
    requires HasType(h, v, t)
    decreases t
  {
    match t
    case IntType => Number(v.i)
    case UintType => Number(v.u)
    case BoolType => Truth(v.b)
    case StringType => Text(v.s)
    case SyncType => Unobserved
    case UnhandledType => Content(v.content)
    case StructType(fields) =>
      Node(seq(|fields|, i requires 0 <= i < |fields| => State(h, Children(h, v)[i].value, fields[i].typ)))
    case SliceType(elem, _) =>
      var items := Children(h, v);
      if v.cell.None? then Nil
      else Node(seq(|items|, i requires 0 <= i < |items| => State(h, items[i].value, elem)))
    case MapType(_, val) =>
      if v.cell.None? then Table(map[])
      else
        var entries := EntriesAt(h, v.cell.value);
        Table(map k | k in KeySet(entries) :: State(h, MapIndex(entries, k), val))
    case PointerType(elem) =>
      if v.target.None? then Nil else Node([State(h, Target(h, v.target.value), elem)])
  }

  // ---------- What may follow a value ----------

  /** A value of the type can end in a nil slice or pointer, which a byte below 0x40 after it would complete. */
  predicate NilOpen(t: Type) {
    match t
    case StructType(fields) => fields != [] && NilOpen(fields[|fields| - 1].typ)
    case SliceType(elem, nilable) => nilable || NilOpen(elem)
    case PointerType(_) => true
    case _ => false
  }

  /** A value of the type can end in a map, which an entry after it would continue. */
  predicate MapOpen(t: Type) {
    match t
    case StructType(fields) => fields != [] && MapOpen(fields[|fields| - 1].typ)
    case SliceType(elem, _) => MapOpen(elem)
    case MapType(_, _) => true
    case PointerType(elem) => MapOpen(elem)
    case _ => false
  }

  /** A value of the type can end in a nil pointer to a struct, which a label after it would complete. */
  predicate LabelOpen(t: Type) {
    match t
    case StructType(fields) => fields != [] && LabelOpen(fields[|fields| - 1].typ)
    case SliceType(elem, _) => LabelOpen(elem)
    case PointerType(elem) => elem.StructType? || LabelOpen(elem)
    case _ => false
  }

  /** What may follow a nil slice or pointer: the next label, the end of a map entry, or nothing. */
  predicate Stop(r: Bytes) {
    r == [] || r[0] == LBRACKET || r[0] == RBRACE
  }

  /** What may follow a map: anything but an entry. */
  predicate NoEntry(r: Bytes) {
    r == [] || r[0] != LBRACE
  }

  /** What may follow a nil pointer to a struct: the end of a map entry, or nothing. */
  predicate NoLabel(r: Bytes) {
    r == [] || r[0] == RBRACE
  }

  predicate Follows(t: Type, r: Bytes) {
    (NilOpen(t) ==> Stop(r)) && (MapOpen(t) ==> NoEntry(r)) && (LabelOpen(t) ==> NoLabel(r))
  }

  // ---------- The decodable types ----------

  /** Every value of the type starts with a byte below 0x40: a boolean or a length. */
  predicate LowStart(t: Type) {
    t.BoolType? || t.StringType? || (t.SliceType? && !t.nilable)
  }

  /** Every value of the type starts with a label. */
  predicate LabelStart(t: Type) {
    t.StructType? && t.fields != []
  }

  /** The decodable types: no map or pointer directly inside a slice, no slice inside a slice that can end in a nil
      slice or pointer, no map keys with a colon, nothing that the walk does not handle; pointers only to what starts
      with a low byte or a label, and the latter only where no label follows. */
  predicate Decodable(t: Type) {
    match t
    case UnhandledType => false
    case StructType(fields) =>
      && (forall i :: 0 <= i < |fields| ==> Decodable(fields[i].typ))
      && (forall i :: 0 <= i < |fields| - 1 ==> !LabelOpen(fields[i].typ))
    case SliceType(elem, _) =>
      && Decodable(elem) && !elem.MapType? && !elem.PointerType?
      && (elem.SliceType? ==> !NilOpen(elem)) && !LabelOpen(elem)
    case MapType(keys, val) => Decodable(val) && keys != StringKeys
    case PointerType(elem) => Decodable(elem) && (LowStart(elem) || LabelStart(elem))
    case _ => true
  }

  /** All values of the type hold the same: sync primitives, and structs of such. */
  predicate Single(t: Type) {
    match t
    case SyncType => true
    case StructType(fields) => forall i :: 0 <= i < |fields| ==> Single(fields[i].typ)
    case _ => false
  }

  /** What lies below the depth limit, when the value is met at `depth`, has only one state. */
  predicate Fits(t: Type, depth: nat)
    decreases t
  {
    if depth > MAX_DEPTH then Single(t)
    else match t
      case StructType(fields) => forall i :: 0 <= i < |fields| ==> Fits(fields[i].typ, depth + 1)
      case SliceType(elem, _) => Fits(elem, depth + 1)
      case MapType(_, val) => Fits(val, depth + 1)
      case PointerType(elem) => depth < MAX_DEPTH && Fits(elem, depth + 1)
      case _ => true
  }

  /** A value of the type has state `n` levels below it: a scalar in itself, a slice or map in its length and below, a
      pointer in what it points to. */
  predicate StateAt(t: Type, n: nat)
    decreases t
  {
    match t
    case SyncType => false
    case StructType(fields) => n > 0 && exists i :: 0 <= i < |fields| && StateAt(fields[i].typ, n - 1)
    case SliceType(elem, _) => n == 0 || StateAt(elem, n - 1)
    case MapType(_, val) => n == 0 || StateAt(val, n - 1)
    case PointerType(elem) => n > 0 && (n == 1 || StateAt(elem, n - 1))
    case _ => n == 0
  }

  /** All state of the type, when a value of it is met at level `depth`, lies at levels up to 8. */
  ghost predicate WithinLevelEight(t: Type, depth: nat) {
    forall n: nat :: StateAt(t, n) ==> depth + n <= 8
  }

  /** All that lies below the depth limit has one state exactly when the state lies at levels up to 8. */
  lemma FitsExactly(t: Type, depth: nat)
    ensures Fits(t, depth) <==> WithinLevelEight(t, depth)
  {
    if Fits(t, depth) {
      forall n: nat | StateAt(t, n)
        ensures depth + n <= 8
      {
        StateAbove(t, depth, n);
      }
    } else {
      var n := StateBelow(t, depth);
    }
  }

  lemma {:induction false} SingleHasNoState(t: Type, n: nat)
    requires Single(t)
    ensures !StateAt(t, n)
    decreases t
  {
    if t.StructType? && n > 0 {
      forall i | 0 <= i < |t.fields|
        ensures !StateAt(t.fields[i].typ, n - 1)
      {
        SingleHasNoState(t.fields[i].typ, n - 1);
      }
    }
  }

  lemma {:induction false} StateAbove(t: Type, depth: nat, n: nat)
    requires Fits(t, depth) && StateAt(t, n)
    ensures depth + n <= 8
    decreases t
  {
    if depth > MAX_DEPTH {
      SingleHasNoState(t, n);
    } else if n > 0 {
      match t
      case StructType(fields) =>
        var i :| 0 <= i < |fields| && StateAt(fields[i].typ, n - 1);
        StateAbove(fields[i].typ, depth + 1, n - 1);
      case SliceType(elem, _) => StateAbove(elem, depth + 1, n - 1);
      case MapType(_, val) => StateAbove(val, depth + 1, n - 1);
      case PointerType(elem) =>
        if n > 1 || StateAt(elem, 0) {
          StateAbove(elem, depth + 1, n - 1);
        }
      case _ =>
    }
  }

  lemma {:induction false} SomeState(t: Type) returns (n: nat)
    requires !Single(t)
    ensures StateAt(t, n)
    decreases t
  {
    match t
    case StructType(fields) =>
      var i :| 0 <= i < |fields| && !Single(fields[i].typ);
      n := SomeState(fields[i].typ);
      n := n + 1;
    case PointerType(_) => n := 1;
    case _ => n := 0;
  }

  lemma {:induction false} StateBelow(t: Type, depth: nat) returns (n: nat)
    requires !Fits(t, depth)
    ensures StateAt(t, n) && depth + n > 8
    decreases t
  {
    if depth > MAX_DEPTH {
      n := SomeState(t);
    } else {
      match t
      case StructType(fields) =>
        var i :| 0 <= i < |fields| && !Fits(fields[i].typ, depth + 1);
        n := StateBelow(fields[i].typ, depth + 1);
        n := n + 1;
      case SliceType(elem, _) =>
        n := StateBelow(elem, depth + 1);
        n := n + 1;
      case MapType(_, val) =>
        n := StateBelow(val, depth + 1);
        n := n + 1;
      case PointerType(elem) =>
        if depth < MAX_DEPTH {
          n := StateBelow(elem, depth + 1);
          n := n + 1;
        } else {
          n := 1;
        }
    }
  }

  predicate PointerFree(t: Type) {
    match t
    case StructType(fields) => forall i :: 0 <= i < |fields| ==> PointerFree(fields[i].typ)
    case SliceType(elem, _) => PointerFree(elem)
    case MapType(_, val) => PointerFree(val)
    case PointerType(_) => false
    case _ => true
  }

  /** What has one state only cannot be told from nothing, whatever follows. */
  lemma {:induction false} SingleClosed(t: Type)
    requires Single(t)
    ensures Decodable(t) && PointerFree(t) && !NilOpen(t) && !MapOpen(t) && !LabelOpen(t)
    decreases t
  {
    if t.StructType? {
      forall i | 0 <= i < |t.fields|
        ensures Decodable(t.fields[i].typ) && PointerFree(t.fields[i].typ) && !LabelOpen(t.fields[i].typ)
        ensures !NilOpen(t.fields[i].typ) && !MapOpen(t.fields[i].typ)
      {
        SingleClosed(t.fields[i].typ);
      }
    }
  }

  lemma {:induction false} SingleState(h: Heap, v: Value, h': Heap, v': Value, t: Type)
    requires Single(t) && HasType(h, v, t) && HasType(h', v', t)
    ensures State(h, v, t) == State(h', v', t)
    decreases t
  {
    if t.StructType? {
      forall i | 0 <= i < |t.fields|
        ensures State(h, Children(h, v)[i].value, t.fields[i].typ) ==
                State(h', Children(h', v')[i].value, t.fields[i].typ)
      {
        SingleState(h, Children(h, v)[i].value, h', Children(h', v')[i].value, t.fields[i].typ);
      }
    }
  }

  lemma {:induction false} PointerFreeNotLabelOpen(t: Type)
    requires PointerFree(t)
    ensures !LabelOpen(t)
    decreases t
  {
    match t
    case StructType(fields) =>
      if fields != [] {
        PointerFreeNotLabelOpen(fields[|fields| - 1].typ);
      }
    case SliceType(elem, _) => PointerFreeNotLabelOpen(elem);
    case _ =>
  }
}
