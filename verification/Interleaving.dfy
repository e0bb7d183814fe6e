/** Sequences that several goroutines produce together. */
module Interleaving {

  /** `merged` is some interleaving of the sequences `parts`. */
  ghost predicate Interleaves<T>(merged: seq<T>, parts: seq<seq<T>>)
    decreases |merged|
  {
    if merged == [] then forall i :: 0 <= i < |parts| ==> parts[i] == []
    else exists i :: 0 <= i < |parts| && NextFrom(merged, parts, i)
                     && Interleaves(merged[1..], parts[i := parts[i][1..]])
  }

  ghost predicate NextFrom<T>(merged: seq<T>, parts: seq<seq<T>>, i: nat)
    requires merged != [] && i < |parts|
  {
    parts[i] != [] && parts[i][0] == merged[0]
  }

  /** The elements of `s` that belong to `i`. */
  function Project<T>(s: seq<T>, owner: T -> int, i: int): seq<T> {
    if s == [] then []
    else (if owner(s[0]) == i then [s[0]] else []) + Project(s[1..], owner, i)
  }

  lemma ProjectFirst<T>(s: seq<T>, owner: T -> int, i: int)
    requires s != []
    ensures Project(s, owner, i) == (if owner(s[0]) == i then [s[0]] else []) + Project(s[1..], owner, i)
  {
  }

  lemma {:induction false} ProjectAppend<T>(s: seq<T>, x: T, owner: T -> int, i: int)
    ensures Project(s + [x], owner, i) == Project(s, owner, i) + if owner(x) == i then [x] else []
  {
    if s == [] {
      assert s + [x] == [x] && [x][1..] == [];
    } else {
      assert (s + [x])[1..] == s[1..] + [x];
      ProjectAppend(s[1..], x, owner, i);
      ProjectFirst(s, owner, i);
      ProjectFirst(s + [x], owner, i);
    }
  }

  /** What belongs to `k` is in part `i` only. */
  ghost predicate OnlyIn<T>(parts: seq<seq<T>>, owner: T -> int, k: int, i: nat) {
    forall j :: 0 <= j < |parts| && j != i ==> forall x :: x in parts[j] ==> owner(x) != k
  }

  lemma OnlyInRest<T>(parts: seq<seq<T>>, owner: T -> int, k: int, i: nat, j: nat)
    requires OnlyIn(parts, owner, k, i) && j < |parts| && parts[j] != []
    ensures OnlyIn(parts[j := parts[j][1..]], owner, k, i)
  {
    var rest := parts[j := parts[j][1..]];
    forall m, x | 0 <= m < |rest| && m != i && x in rest[m]
      ensures owner(x) != k
    {
      assert x in parts[m];
    }
  }

  /** What one goroutine alone produces, it finds in its own order in any interleaving. */
  lemma {:induction false} ProjectInterleaving<T>(merged: seq<T>, parts: seq<seq<T>>, owner: T -> int, k: int, i: nat)
    requires Interleaves(merged, parts) && OnlyIn(parts, owner, k, i) && i < |parts|
    ensures Project(merged, owner, k) == Project(parts[i], owner, k)
    decreases |merged|
  {
    if merged != [] {
      var j :| 0 <= j < |parts| && NextFrom(merged, parts, j)
               && Interleaves(merged[1..], parts[j := parts[j][1..]]);
      OnlyInRest(parts, owner, k, i, j);
      ProjectInterleaving(merged[1..], parts[j := parts[j][1..]], owner, k, i);
      assert merged[0] in parts[j];
    }
  }

  /** All elements of all parts. */
  ghost function Union<T>(parts: seq<seq<T>>): multiset<T> {
    if parts == [] then multiset{} else multiset(parts[0]) + Union(parts[1..])
  }

  lemma {:induction false} UnionUpdate<T>(parts: seq<seq<T>>, i: nat)
    requires i < |parts| && parts[i] != []
    ensures Union(parts) == multiset{parts[i][0]} + Union(parts[i := parts[i][1..]])
  {
    var rest := parts[i := parts[i][1..]];
    if i == 0 {
      assert parts[0] == [parts[0][0]] + parts[0][1..];
      assert rest[1..] == parts[1..];
    } else {
      assert rest[1..] == parts[1..][i - 1 := parts[i][1..]];
      UnionUpdate(parts[1..], i - 1);
    }
  }

  lemma {:induction false} UnionEmpty<T>(parts: seq<seq<T>>)
    requires forall i :: 0 <= i < |parts| ==> parts[i] == []
    ensures Union(parts) == multiset{}
  {
    if parts != [] {
      UnionEmpty(parts[1..]);
    }
  }

  lemma MultisetStep<T>(merged: seq<T>, parts: seq<seq<T>>, i: nat)
    requires merged != [] && i < |parts| && NextFrom(merged, parts, i)
    requires multiset(merged[1..]) == Union(parts[i := parts[i][1..]])
    ensures multiset(merged) == Union(parts)
  {
    UnionUpdate(parts, i);
    assert merged == [merged[0]] + merged[1..];
  }

  /** Interleavings of the same sequences are permutations of each other. */
  lemma {:induction false} InterleavingMultiset<T>(merged: seq<T>, parts: seq<seq<T>>)
    requires Interleaves(merged, parts)
    ensures multiset(merged) == Union(parts)
    decreases |merged|
  {
    if merged == [] {
      UnionEmpty(parts);
    } else {
      var i: nat :| i < |parts| && NextFrom(merged, parts, i)
                    && Interleaves(merged[1..], parts[i := parts[i][1..]]);
      InterleavingMultiset(merged[1..], parts[i := parts[i][1..]]);
      MultisetStep(merged, parts, i);
    }
  }
}
