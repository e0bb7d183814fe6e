/** The walk without its visited set, and when the visited set makes no difference. */
module SnapshotPlain {
  import opened GoTypes
  import opened Ordering
  import opened Text
  import opened ObjectGraph

  /** What the walk would write if it followed every pointer. */
  function Plain(h: Heap, v: Value, depth: nat): Bytes
    decreases Fuel(depth), 0
  {
    if depth > MAX_DEPTH || v == Pointer(None) then []
    else if v.Pointer? then Plain(h, Target(h, v.target.value), depth + 1)
    else Header(h, v) + PlainItems(h, Children(h, v), depth + 1)
  }

  function PlainItems(h: Heap, items: seq<Item>, depth: nat): Bytes
    decreases Fuel(depth), 1 + |items|
  {
    if items == [] then []
    else items[0].prefix + Plain(h, items[0].value, depth) + items[0].suffix + PlainItems(h, items[1..], depth)
  }

  /** How often the walk meets a pointer that was followed before. */
  function Repeats(h: Heap, v: Value, followed: seq<Address>, depth: nat): nat
    decreases Fuel(depth), 0
  {
    if depth > MAX_DEPTH || v == Pointer(None) then 0
    else if v.Pointer? then
      if v.target.value in followed then 1
      else Repeats(h, Target(h, v.target.value), followed + [v.target.value], depth + 1)
    else ItemRepeats(h, Children(h, v), followed, depth + 1)
  }

  function ItemRepeats(h: Heap, items: seq<Item>, followed: seq<Address>, depth: nat): nat
    decreases Fuel(depth), 1 + |items|
  {
    if items == [] then 0
    else
      Repeats(h, items[0].value, followed, depth)
      + ItemRepeats(h, items[1..], Snapshot(h, items[0].value, followed, depth).followed, depth)
  }

  predicate Unshared(h: Heap, v: Value, followed: seq<Address>, depth: nat) {
    Repeats(h, v, followed, depth) == 0
  }

  /** A walk that meets no pointer twice writes what it would write without the visited set. */
  lemma {:induction false} UnsharedWalk(h: Heap, v: Value, followed: seq<Address>, depth: nat)
    requires Unshared(h, v, followed, depth)
    ensures Snapshot(h, v, followed, depth).bytes == Plain(h, v, depth)
    decreases Fuel(depth), 0
  {
    if depth <= MAX_DEPTH && v != Pointer(None) {
      if v.Pointer? {
        UnsharedWalk(h, Target(h, v.target.value), followed + [v.target.value], depth + 1);
      } else {
        UnsharedItemsWalk(h, Children(h, v), followed, depth + 1);
      }
    }
  }

  lemma {:induction false} UnsharedItemsWalk(h: Heap, items: seq<Item>, followed: seq<Address>, depth: nat)
    requires ItemRepeats(h, items, followed, depth) == 0
    ensures SnapshotItems(h, items, followed, depth).bytes == PlainItems(h, items, depth)
    decreases Fuel(depth), 1 + |items|
  {
    if items != [] {
      UnsharedWalk(h, items[0].value, followed, depth);
      UnsharedItemsWalk(h, items[1..], Snapshot(h, items[0].value, followed, depth).followed, depth);
    }
  }

  /** A value without nested values writes its header; one without a header writes its nested values. */
  lemma OneKindOfPlain(h: Heap, v: Value, depth: nat)
    requires depth <= MAX_DEPTH && !v.Pointer?
    ensures Children(h, v) == [] ==> Plain(h, v, depth) == Header(h, v)
    ensures Header(h, v) == [] ==> Plain(h, v, depth) == PlainItems(h, Children(h, v), depth + 1)
  {
    assert Header(h, v) + [] == Header(h, v);
    var nested := PlainItems(h, Children(h, v), depth + 1);
    assert [] + nested == nested;
  }
}
