/** `weightedSample` and `buildWeightedKeys`: drawing message types in proportion to their weights. */
module Sampling {
  import opened GoTypes
  import opened Ordering

  /** The sum of the first `n` weights. */
  function Sum(weights: seq<int>, n: nat): int
    requires n <= |weights|
  {
    if n == 0 then 0 else Sum(weights, n - 1) + weights[n - 1]
  }

  function Total(weights: seq<int>): int {
    Sum(weights, |weights|)
  }

  /** The total of one weight is that weight, and the total of joined lists the sum of theirs. */
  lemma {:induction false} TotalOfJoin(a: seq<int>, b: seq<int>, x: int)
    ensures Total([x]) == x && Total(a + b) == Total(a) + Total(b)
  {
    assert Sum([x], 0) == 0;
    SumOfFront(a + b, a, |a|);
    SumOfJoin(a, b, |b|);
  }

  lemma {:induction false} SumOfFront(s: seq<int>, a: seq<int>, n: nat)
    requires n <= |a| && a <= s
    ensures Sum(s, n) == Sum(a, n)
  {
    if n > 0 {
      SumOfFront(s, a, n - 1);
    }
  }

  lemma {:induction false} SumOfJoin(a: seq<int>, b: seq<int>, n: nat)
    requires n <= |b|
    ensures Sum(a + b, |a| + n) == Total(a) + Sum(b, n)
  {
    if n > 0 {
      SumOfJoin(a, b, n - 1);
    } else {
      SumOfFront(a + b, a, |a|);
    }
  }

  /** A draw picks position `i`: it is below the sum that ends there, and not below any earlier one. */
  ghost predicate Picks(weights: seq<int>, r: int, i: nat)
    requires i < |weights|
  {
    r < Sum(weights, i + 1) && forall j :: 0 < j <= i ==> Sum(weights, j) <= r
  }

  /** The draw picks position `i` and no other. */
  ghost predicate OnlyPick(weights: seq<int>, r: int, i: nat)
    requires i < |weights|
  {
    Picks(weights, r, i) && forall j :: 0 <= j < |weights| && Picks(weights, r, j) ==> j == i
  }

  datatype Sample = Picked(key: Bytes) | Panicked

  /** `draw` is what `rng.Intn(total)` returns; it panics when the total is negative.  An empty list of keys makes
      `keys[0]` panic, too. */
  method WeightedSample(keys: seq<Bytes>, weights: seq<int>, draw: int) returns (sample: Sample)
    requires |keys| == |weights|
    requires Total(weights) > 0 ==> 0 <= draw < Total(weights)
    ensures Total(weights) < 0 || keys == [] ==> sample == Panicked
    ensures Total(weights) == 0 && keys != [] ==> sample == Picked(keys[0])
    ensures Total(weights) > 0 ==>
              exists i :: 0 <= i < |keys| && OnlyPick(weights, draw, i) && sample == Picked(keys[i])
  {
    var total := 0;
    for i := 0 to |weights|
      invariant total == Sum(weights, i)
    {
      total := total + weights[i];
    }
    if total == 0 {
      if keys == [] {
        return Panicked;
      }
      return Picked(keys[0]);
    }
    if total < 0 {
      return Panicked;
    }
    var fallback := keys[|keys| - 1];
    var r := draw;
    for i := 0 to |weights|
      invariant r == draw - Sum(weights, i)
      invariant forall j :: 0 < j <= i ==> Sum(weights, j) <= draw
    {
      r := r - weights[i];
      if r < 0 {
        assert Picks(weights, draw, i);
        OnePosition(weights, draw, i);
        return Picked(keys[i]);
      }
    }
    return Picked(fallback);
  }

  // ---------- Every draw is accounted for ----------

  /** A draw below the total picks a position, so the loop never falls through. */
  lemma {:induction false} SomePosition(weights: seq<int>, r: int, n: nat) returns (i: nat)
    requires 0 < n <= |weights| && r < Sum(weights, n)
    requires 0 <= r
    ensures i < n && Picks(weights, r, i)
  {
    if j: nat :| 0 < j < n && r < Sum(weights, j) {
      i := SomePosition(weights, r, j);
    } else {
      i := n - 1;
    }
  }

  /** No draw picks two positions. */
  lemma OnePosition(weights: seq<int>, r: int, i: nat)
    requires i < |weights| && Picks(weights, r, i)
    ensures OnlyPick(weights, r, i)
  {
    forall j: nat | j < |weights| && Picks(weights, r, j)
      ensures j == i
    {
    }
  }

  /** A position without a positive weight is never drawn. */
  lemma OnlyPositiveDrawn(weights: seq<int>, r: int, i: nat)
    requires i < |weights| && 0 <= r && Picks(weights, r, i)
    ensures weights[i] > 0
  {
    assert Sum(weights, 0) == 0;
    assert Sum(weights, i) <= r;
  }

  /** The draws that pick position `i`. */
  ghost function Draws(weights: seq<int>, i: nat): set<int>
    requires i < |weights|
  {
    set r | 0 <= r < Total(weights) && Picks(weights, r, i)
  }

  ghost predicate NonNegative(weights: seq<int>) {
    forall i :: 0 <= i < |weights| ==> weights[i] >= 0
  }

  lemma {:induction false} SumMonotone(weights: seq<int>, m: nat, n: nat)
    requires NonNegative(weights) && m <= n <= |weights|
    ensures Sum(weights, m) <= Sum(weights, n)
  {
    if m < n {
      SumMonotone(weights, m, n - 1);
    }
  }

  predicate Within(lo: int, r: int, hi: int) {
    lo <= r < hi
  }

  ghost function Interval(lo: int, hi: int): set<int> {
    set r | lo <= r < hi && Within(lo, r, hi)
  }

  lemma {:induction false} IntervalSize(lo: int, hi: int)
    requires lo <= hi
    ensures |Interval(lo, hi)| == hi - lo
    decreases hi - lo
  {
    if lo < hi {
      IntervalSize(lo, hi - 1);
      assert Interval(lo, hi) == Interval(lo, hi - 1) + {hi - 1};
    } else {
      assert Interval(lo, hi) == {};
    }
  }

  /** Without negative weights, position `i` is picked by the draws between the sums before and after it. */
  lemma PicksWithin(weights: seq<int>, r: int, i: nat)
    requires NonNegative(weights) && i < |weights| && 0 <= r
    ensures Picks(weights, r, i) <==> Sum(weights, i) <= r < Sum(weights, i + 1)
  {
    assert Sum(weights, 0) == 0;
    if Picks(weights, r, i) {
      assert i > 0 ==> Sum(weights, i) <= r;
    }
    if Sum(weights, i) <= r < Sum(weights, i + 1) {
      forall j | 0 < j <= i
        ensures Sum(weights, j) <= r
      {
        SumMonotone(weights, j, i);
      }
    }
  }

  lemma DrawsAreAnInterval(weights: seq<int>, i: nat)
    requires NonNegative(weights) && i < |weights|
    ensures Draws(weights, i) == Interval(Sum(weights, i), Sum(weights, i + 1))
  {
    assert Sum(weights, 0) == 0;
    SumMonotone(weights, 0, i);
    SumMonotone(weights, i + 1, |weights|);
    var lo, hi := Sum(weights, i), Sum(weights, i + 1);
    forall r
      ensures r in Draws(weights, i) <==> Within(lo, r, hi)
    {
      if 0 <= r {
        PicksWithin(weights, r, i);
      }
    }
    assert forall r :: r in Interval(lo, hi) <==> Within(lo, r, hi);
  }

  /** Sampling is proportional exactly when no weight is negative: then position `i` is picked by `weights[i]` of
      the `Total(weights)` equally likely draws. */
  lemma Proportional(weights: seq<int>)
    ensures (forall i :: 0 <= i < |weights| ==> |Draws(weights, i)| == weights[i]) <==> NonNegative(weights)
  {
    if NonNegative(weights) {
      forall i | 0 <= i < |weights|
        ensures |Draws(weights, i)| == weights[i]
      {
        DrawsAreAnInterval(weights, i);
        IntervalSize(Sum(weights, i), Sum(weights, i + 1));
      }
    }
  }

  // ---------- Which keys can be drawn ----------

  method BuildWeightedKeys(configured: map<Bytes, int>, registered: set<Bytes>)
    returns (keys: seq<Bytes>, weights: seq<int>)
    ensures Distinct(keys) && InByteOrder(keys)
    ensures forall k :: k in keys <==> k in registered && (configured == map[] || k in configured)
    ensures |weights| == |keys|
    ensures forall i :: 0 <= i < |keys| ==> weights[i] == if keys[i] in configured then configured[keys[i]] else 1
  {
    var chosen := registered;
    if |configured| > 0 {
      chosen := Configured(configured, registered);
    }
    keys := InOrder(chosen);
    weights := [];
    for i := 0 to |keys|
      invariant |weights| == i
      invariant forall j :: 0 <= j < i ==> weights[j] == if keys[j] in configured then configured[keys[j]] else 1
    {
      weights := weights + [if keys[i] in configured then configured[keys[i]] else 1];
    }
  }

  method InOrder(chosen: set<Bytes>) returns (keys: seq<Bytes>)
    ensures Distinct(keys) && InByteOrder(keys)
    ensures forall k :: k in keys <==> k in chosen
  {
    LexTotalPreorder();
    keys := SortedKeys(LexLeq, chosen);
    SortedListElements(LexLeq, chosen);
    SortedInByteOrder(keys);
    assert forall k :: k in keys <==> k in Elements(keys);
  }

  /** The loop over the configured weights. */
  method Configured(configured: map<Bytes, int>, registered: set<Bytes>) returns (chosen: set<Bytes>)
    ensures forall k :: k in chosen <==> k in configured && k in registered
  {
    chosen := {};
    var rest := configured.Keys;
    while rest != {}
      invariant rest <= configured.Keys
      invariant chosen == (configured.Keys - rest) * registered
      decreases rest
    {
      var k :| k in rest;
      if k in registered {
        chosen := chosen + {k};
      }
      rest := rest - {k};
    }
  }

  /** The draws that yield a message type. */
  ghost function DrawsOf(keys: seq<Bytes>, weights: seq<int>, key: Bytes): set<int>
    requires |keys| == |weights|
  {
    set r, i | 0 <= i < |keys| && r in Draws(weights, i) && keys[i] == key :: r
  }

  /** For the lists that `BuildWeightedKeys` makes, each registered message type is drawn as often as it was given
      weight; without any configured weights it counts once, and otherwise a type that is not configured is never
      drawn. */
  lemma KeyShare(configured: map<Bytes, int>, registered: set<Bytes>, keys: seq<Bytes>, weights: seq<int>, key: Bytes)
    requires Distinct(keys)
    requires forall k :: k in keys <==> k in registered && (configured == map[] || k in configured)
    requires |weights| == |keys|
    requires forall i :: 0 <= i < |keys| ==> weights[i] == if keys[i] in configured then configured[keys[i]] else 1
    requires forall i :: 0 <= i < |keys| ==> weights[i] >= 0
    ensures |DrawsOf(keys, weights, key)| ==
            if key !in registered then 0
            else if key in configured then configured[key]
            else if configured == map[] then 1 else 0
  {
    if key in keys {
      var i :| 0 <= i < |keys| && keys[i] == key;
      assert DrawsOf(keys, weights, key) == Draws(weights, i);
      Proportional(weights);
    } else {
      assert DrawsOf(keys, weights, key) == {};
    }
  }
}
