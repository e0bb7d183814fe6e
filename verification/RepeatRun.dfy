/** `RepeatRunExecutor`: one oracle and several perturbed probes, compared in the shape of a star. */
module RepeatRun {
  import opened GoTypes
  import opened Comparison
  import Observer

  // ---------- repeatCompareResponses ----------

  /** The transactions that are compared. */
  function Compared(p: Pair, txCount: nat): nat {
    Min(Common(p), txCount)
  }

  ghost function RepeatFindings(p: Pair, txCount: nat): seq<Finding> {
    HashFindings(p) + PerTx(p, DimErrorCode, Compared(p, txCount)) + PerTx(p, DimWriteSet, Compared(p, txCount))
  }

  /** The finding is one that the repeat comparator makes about the two responses. */
  ghost predicate RepeatReported(f: Finding, height: int, probeIndex: int, txCount: nat, l: Response, r: Response,
                                 lws: Option<WriteSets>, rws: Option<WriteSets>) {
    && f.height == height && f.probeIndex == probeIndex
    && f.dimension in {DimAppHash, DimErrorCode, DimWriteSet} && f.txIndex < txCount
    && AboutResponses(f, l, r, lws, rws)
  }

  lemma RepeatMeans(p: Pair, txCount: nat, f: Finding)
    ensures f in RepeatFindings(p, txCount) <==>
            RepeatReported(f, p.height, p.probeIndex, txCount, p.left, p.right, p.leftWS, p.rightWS)
  {
    var n := Compared(p, txCount);
    HashMeans(p, f);
    PerTxMeans(p, DimErrorCode, n, f);
    PerTxMeans(p, DimWriteSet, n, f);
    MemberOfConcat(HashFindings(p), PerTx(p, DimErrorCode, n), f);
    MemberOfConcat(HashFindings(p) + PerTx(p, DimErrorCode, n), PerTx(p, DimWriteSet, n), f);
    if IsFindingOf(f, p) && f.dimension != DimAppHash {
      WithinCommon(p, f);
    }
  }

  method RepeatCompareResponses(p: Pair, txCount: nat) returns (findings: seq<Finding>)
    ensures findings == RepeatFindings(p, txCount)
    ensures forall f :: f in findings <==>
      RepeatReported(f, p.height, p.probeIndex, txCount, p.left, p.right, p.leftWS, p.rightWS)
  {
    forall f
      ensures f in RepeatFindings(p, txCount) <==>
              RepeatReported(f, p.height, p.probeIndex, txCount, p.left, p.right, p.leftWS, p.rightWS)
    {
      RepeatMeans(p, txCount, f);
    }
    findings := CompareHashes(p);
    var n := Min(|p.left.txResults|, |p.right.txResults|);
    if txCount < n {
      n := txCount;
    }
    findings := CompareCodes(p, n, findings);
    findings := CompareWriteSets(p, n, findings);
  }

  // ---------- The two comparators agree ----------

  ghost function Filter(fs: seq<Finding>, keep: Finding -> bool): seq<Finding> {
    if fs == [] then []
    else Filter(fs[..|fs| - 1], keep) + if keep(fs[|fs| - 1]) then [fs[|fs| - 1]] else []
  }

  lemma {:induction false} FilterConcat(a: seq<Finding>, b: seq<Finding>, keep: Finding -> bool)
    ensures Filter(a + b, keep) == Filter(a, keep) + Filter(b, keep)
  {
    if b == [] {
      assert a + b == a;
    } else {
      assert (a + b)[..|a + b| - 1] == a + b[..|b| - 1];
      FilterConcat(a, b[..|b| - 1], keep);
    }
  }

  lemma {:induction false} FilterNone(fs: seq<Finding>, keep: Finding -> bool)
    requires forall f :: f in fs ==> !keep(f)
    ensures Filter(fs, keep) == []
  {
    if fs != [] {
      assert fs[|fs| - 1] in fs;
      FilterNone(fs[..|fs| - 1], keep);
    }
  }

  lemma {:induction false} FilterPerTx(p: Pair, d: Dimension, n: nat, m: nat, keep: Finding -> bool)
    requires m <= n <= Common(p)
    requires forall i :: 0 <= i < n ==> (keep(FindingAt(p, d, i)) <==> i < m)
    ensures Filter(PerTx(p, d, n), keep) == PerTx(p, d, m)
  {
    if n > 0 {
      var before, found := PerTx(p, d, n - 1), Found(p, d, n - 1);
      PerTxStep(p, d, n - 1, before, found);
      FilterConcat(before, found, keep);
      FilterFound(p, d, n - 1, found, keep);
      FilterPerTx(p, d, n - 1, if m == n then n - 1 else m, keep);
      NothingAdded(PerTx(p, d, m));
    }
  }

  lemma FilterFound(p: Pair, d: Dimension, i: nat, found: seq<Finding>, keep: Finding -> bool)
    requires i < Common(p) && found == Found(p, d, i)
    ensures Filter(found, keep) == if keep(FindingAt(p, d, i)) then found else []
  {
    if found != [] {
      assert found[..0] == [] && found == [FindingAt(p, d, i)];
    }
  }

  /** The dimensions that both comparators look at. */
  ghost predicate Repeated(f: Finding) {
    f.dimension in {DimAppHash, DimErrorCode, DimWriteSet}
  }

  lemma FilterFive(a: seq<Finding>, b: seq<Finding>, c: seq<Finding>, d: seq<Finding>, e: seq<Finding>,
                   keep: Finding -> bool)
    ensures Filter(a + b + c + d + e, keep)
            == Filter(a, keep) + Filter(b, keep) + Filter(c, keep) + Filter(d, keep) + Filter(e, keep)
  {
    FilterConcat(a + b + c + d, e, keep);
    FilterConcat(a + b + c, d, keep);
    FilterConcat(a + b, c, keep);
    FilterConcat(a, b, keep);
  }

  /** `keep` keeps what both comparators look at, up to transaction `m`. */
  ghost predicate KeepsUpTo(p: Pair, keep: Finding -> bool, m: nat) {
    forall f: Finding :: f.txIndex < Common(p) ==> (keep(f) <==> Repeated(f) && f.txIndex < m)
  }

  lemma FilterDimension(p: Pair, d: Dimension, m: nat, keep: Finding -> bool)
    requires m <= Common(p) && KeepsUpTo(p, keep, m)
    ensures Filter(PerTx(p, d, Common(p)), keep)
            == if d in {DimAppHash, DimErrorCode, DimWriteSet} then PerTx(p, d, m) else []
  {
    FilterPerTx(p, d, Common(p), if d in {DimAppHash, DimErrorCode, DimWriteSet} then m else 0, keep);
  }

  lemma FilterResponses(p: Pair, m: nat, keep: Finding -> bool)
    requires m <= Common(p) && KeepsUpTo(p, keep, m)
    ensures Filter(ResponseFindings(p), keep)
            == HashFindings(p) + PerTx(p, DimErrorCode, m) + PerTx(p, DimWriteSet, m)
  {
    var n := Common(p);
    FilterFive(HashFindings(p), PerTx(p, DimErrorCode, n), PerTx(p, DimGas, n), PerTx(p, DimEvents, n),
               PerTx(p, DimWriteSet, n), keep);
    FilterHash(p, keep);
    FilterDimension(p, DimErrorCode, m, keep);
    FilterDimension(p, DimGas, m, keep);
    FilterDimension(p, DimEvents, m, keep);
    FilterDimension(p, DimWriteSet, m, keep);
    DropEmpty(HashFindings(p) + PerTx(p, DimErrorCode, m), PerTx(p, DimWriteSet, m));
  }

  lemma DropEmpty<T>(a: seq<T>, b: seq<T>)
    ensures a + [] + [] + b == a + b
  {
  }

  lemma FilterHash(p: Pair, keep: Finding -> bool)
    requires forall f: Finding :: f.dimension == DimAppHash && f.txIndex == -1 ==> keep(f)
    ensures Filter(HashFindings(p), keep) == HashFindings(p)
  {
    var fs := HashFindings(p);
    if fs != [] {
      assert fs[..0] == [] && fs == [fs[0]];
    }
  }

  lemma {:induction false} MutationDimension(p: Pair, ms: seq<seq<Observer.MutationRecord>>, n: nat)
    ensures forall f :: f in MutationFindings(p, ms, n) ==> !Repeated(f)
  {
    if n > 0 {
      MutationDimension(p, ms, n - 1);
    }
  }

  lemma FilterProviders(input: Input, keep: Finding -> bool)
    requires input.oracle.Some? && input.probe.Some?
    requires forall f :: keep(f) ==> Repeated(f)
    ensures Filter(ProviderFindings(input), keep) == []
  {
    MutationDimension(PairOf(input), IfPresent(input.oracleMutations), MutationSlots(input));
    FilterNone(ProviderFindings(input), keep);
  }

  /** On the same two responses, the repeat comparator reports exactly those findings of `compare.Run` that are
      about an app hash, an error code or a write set and about one of the first `txCount` transactions, in the
      same order. */
  lemma ComparatorsAgree(input: Input, txCount: nat)
    requires input.oracle.Some? && input.probe.Some?
    ensures RepeatFindings(PairOf(input), txCount) ==
            Filter(ResponseFindings(PairOf(input)) + ProviderFindings(input),
                   f => Repeated(f) && f.txIndex < txCount)
  {
    var keep := f => Repeated(f) && f.txIndex < txCount;
    FilterConcat(ResponseFindings(PairOf(input)), ProviderFindings(input), keep);
    FilterResponses(PairOf(input), Compared(PairOf(input), txCount), keep);
    FilterProviders(input, keep);
  }

  /** With a count that covers the shorter result list, the limit drops nothing. */
  lemma ComparatorsAgreeInFull(input: Input, txCount: nat)
    requires input.oracle.Some? && input.probe.Some?
    requires txCount >= Common(PairOf(input))
    ensures RepeatFindings(PairOf(input), txCount) ==
            Filter(ResponseFindings(PairOf(input)) + ProviderFindings(input), f => Repeated(f))
  {
    var keep := f => Repeated(f);
    FilterConcat(ResponseFindings(PairOf(input)), ProviderFindings(input), keep);
    FilterResponses(PairOf(input), Common(PairOf(input)), keep);
    FilterProviders(input, keep);
  }

  // ---------- Probe configurations ----------

  datatype ProbeConfig = ProbeConfig(workers: nat, seed: int)

  /** As many configurations as asked for, at least one; no two have the same seed. */
  method GenerateProbeConfigs(n: int) returns (configs: seq<ProbeConfig>)
    ensures |configs| == Max(n, 1)
    ensures forall i, j :: 0 <= i < j < |configs| ==> configs[i].seed != configs[j].seed
    ensures forall c :: c in configs ==> 4 <= c.workers < 8
    ensures configs[0] == ProbeConfig(4, 0)
    ensures forall i :: 0 < i < |configs| ==> configs[i] == ProbeConfig(4 + (i - 1) % 4, i)
  {
    var count := if n < 1 then 1 else n;
    configs := [];
    for i := 0 to count
      invariant |configs| == i
      invariant forall k :: 0 <= k < i ==> configs[k].seed == k && 4 <= configs[k].workers < 8
      invariant i > 0 ==> configs[0] == ProbeConfig(4, 0)
      invariant forall k :: 0 < k < i ==> configs[k] == ProbeConfig(4 + (k - 1) % 4, k)
    {
      if i == 0 {
        configs := configs + [ProbeConfig(4, 0)];
      } else {
        configs := configs + [ProbeConfig(4 + (i - 1) % 4, i)];
      }
    }
  }

  // ---------- RunBlock ----------

  /** One app's execution of the block: its response, if `FinalizeBlock` succeeded, and its write sets. */
  datatype Execution = Execution(response: Option<Response>, writeSets: WriteSets)

  function PairOfApps(height: int, probeIndex: int, l: Execution, r: Execution): Pair
    requires l.response.Some? && r.response.Some?
  {
    Pair(height, probeIndex, l.response.value, r.response.value, Some(l.writeSets), Some(r.writeSets))
  }

  ghost predicate AllSucceed(apps: seq<Execution>) {
    forall i :: 0 <= i < |apps| ==> apps[i].response.Some?
  }

  /** The findings of the first `n` probes: the oracle against probe 0, then probe 0 against each other one. */
  ghost function StarFindings(height: int, oracle: Execution, probes: seq<Execution>, txCount: nat, n: nat)
    : seq<Finding>
    requires oracle.response.Some? && AllSucceed(probes) && 0 < n <= |probes|
  {
    if n == 1 then RepeatFindings(PairOfApps(height, 0, oracle, probes[0]), txCount)
    else
      StarFindings(height, oracle, probes, txCount, n - 1)
      + RepeatFindings(PairOfApps(height, n - 1, probes[0], probes[n - 1]), txCount)
  }

  /** The finding is about the edge of the star that its probe index names: index 0 is the oracle against probe 0,
      index `i` probe 0 against probe `i`. */
  ghost predicate StarReported(f: Finding, height: int, oracle: Execution, probes: seq<Execution>, txCount: nat)
    requires oracle.response.Some? && AllSucceed(probes) && probes != []
  {
    && 0 <= f.probeIndex < |probes|
    && var l, r := if f.probeIndex == 0 then oracle else probes[0], probes[f.probeIndex];
    && RepeatReported(f, height, f.probeIndex, txCount, l.response.value, r.response.value,
                      Some(l.writeSets), Some(r.writeSets))
  }

  /** The findings about edge `i` of the star. */
  ghost function EdgeFindings(height: int, oracle: Execution, probes: seq<Execution>, txCount: nat, i: nat)
    : seq<Finding>
    requires oracle.response.Some? && AllSucceed(probes) && i < |probes|
  {
    RepeatFindings(PairOfApps(height, i, if i == 0 then oracle else probes[0], probes[i]), txCount)
  }

  lemma EdgeReports(f: Finding, height: int, oracle: Execution, probes: seq<Execution>, txCount: nat, i: nat)
    requires oracle.response.Some? && AllSucceed(probes) && i < |probes|
    ensures f in EdgeFindings(height, oracle, probes, txCount, i) ==> f.probeIndex == i
    ensures f.probeIndex == i ==>
              (f in EdgeFindings(height, oracle, probes, txCount, i) <==>
               StarReported(f, height, oracle, probes, txCount))
  {
    RepeatMeans(PairOfApps(height, i, if i == 0 then oracle else probes[0], probes[i]), txCount, f);
  }

  lemma {:induction false} StarMember(f: Finding, height: int, oracle: Execution, probes: seq<Execution>,
                                      txCount: nat, n: nat)
    requires oracle.response.Some? && AllSucceed(probes) && 0 < n <= |probes|
    ensures f in StarFindings(height, oracle, probes, txCount, n) <==>
            0 <= f.probeIndex < n && f in EdgeFindings(height, oracle, probes, txCount, f.probeIndex)
  {
    EdgeReports(f, height, oracle, probes, txCount, n - 1);
    EdgeMember(f, height, oracle, probes, txCount, n);
    if n > 1 {
      StarMember(f, height, oracle, probes, txCount, n - 1);
    }
  }

  lemma EdgeMember(f: Finding, height: int, oracle: Execution, probes: seq<Execution>, txCount: nat, n: nat)
    requires oracle.response.Some? && AllSucceed(probes) && 0 < n <= |probes|
    ensures f in StarFindings(height, oracle, probes, txCount, n) <==>
            || (n > 1 && f in StarFindings(height, oracle, probes, txCount, n - 1))
            || f in EdgeFindings(height, oracle, probes, txCount, n - 1)
  {
    if n > 1 {
      MemberOfConcat(StarFindings(height, oracle, probes, txCount, n - 1),
                     EdgeFindings(height, oracle, probes, txCount, n - 1), f);
    }
  }

  lemma StarReports(f: Finding, height: int, oracle: Execution, probes: seq<Execution>, txCount: nat)
    requires oracle.response.Some? && AllSucceed(probes) && probes != []
    ensures f in StarFindings(height, oracle, probes, txCount, |probes|) <==>
            StarReported(f, height, oracle, probes, txCount)
  {
    StarMember(f, height, oracle, probes, txCount, |probes|);
    if 0 <= f.probeIndex < |probes| {
      EdgeReports(f, height, oracle, probes, txCount, f.probeIndex);
    }
  }

  /** Edge by edge, and within an edge as the comparator reports. */
  ghost predicate EdgesInOrder(fs: seq<Finding>) {
    forall i, j :: 0 <= i < j < |fs| ==>
      || fs[i].probeIndex < fs[j].probeIndex
      || (fs[i].probeIndex == fs[j].probeIndex && Before(fs[i], fs[j]))
  }

  ghost predicate AllOfEdge(fs: seq<Finding>, i: int) {
    forall k :: 0 <= k < |fs| ==> fs[k].probeIndex == i
  }

  ghost predicate AllBelowEdge(fs: seq<Finding>, i: int) {
    forall k :: 0 <= k < |fs| ==> fs[k].probeIndex < i
  }

  lemma EdgeInOrder(height: int, oracle: Execution, probes: seq<Execution>, txCount: nat, i: nat)
    requires oracle.response.Some? && AllSucceed(probes) && i < |probes|
    ensures
      var fs := EdgeFindings(height, oracle, probes, txCount, i);
      InOrder(fs) && AllOfEdge(fs, i)
  {
    var p := PairOfApps(height, i, if i == 0 then oracle else probes[0], probes[i]);
    RepeatInOrder(p, Compared(p, txCount));
    var fs := EdgeFindings(height, oracle, probes, txCount, i);
    forall k | 0 <= k < |fs|
      ensures fs[k].probeIndex == i
    {
      EdgeReports(fs[k], height, oracle, probes, txCount, i);
    }
  }

  lemma RepeatInOrder(p: Pair, n: nat)
    requires n <= Common(p)
    ensures InOrder(HashFindings(p) + PerTx(p, DimErrorCode, n) + PerTx(p, DimWriteSet, n))
  {
    PerTxInOrder(p, DimErrorCode, n);
    PerTxInOrder(p, DimWriteSet, n);
    JoinInOrder(HashFindings(p), PerTx(p, DimErrorCode, n), DimErrorCode);
    JoinInOrder(HashFindings(p) + PerTx(p, DimErrorCode, n), PerTx(p, DimWriteSet, n), DimWriteSet);
  }

  lemma JoinEdges(a: seq<Finding>, b: seq<Finding>, i: int)
    requires EdgesInOrder(a) && AllBelowEdge(a, i) && InOrder(b) && AllOfEdge(b, i)
    ensures EdgesInOrder(a + b) && AllBelowEdge(a + b, i + 1)
  {
  }

  lemma {:induction false} StarInOrder(height: int, oracle: Execution, probes: seq<Execution>, txCount: nat, n: nat)
    returns (fs: seq<Finding>)
    requires oracle.response.Some? && AllSucceed(probes) && 0 < n <= |probes|
    ensures fs == StarFindings(height, oracle, probes, txCount, n)
    ensures EdgesInOrder(fs) && AllBelowEdge(fs, n)
  {
    var edge := OneEdge(height, oracle, probes, txCount, n);
    if n == 1 {
      fs := edge;
      JoinEdges([], edge, 0);
      assert [] + edge == edge;
    } else {
      var before := StarInOrder(height, oracle, probes, txCount, n - 1);
      JoinEdges(before, edge, n - 1);
      fs := before + edge;
    }
  }

  lemma OneEdge(height: int, oracle: Execution, probes: seq<Execution>, txCount: nat, n: nat)
    returns (edge: seq<Finding>)
    requires oracle.response.Some? && AllSucceed(probes) && 0 < n <= |probes|
    ensures InOrder(edge) && AllOfEdge(edge, n - 1)
    ensures n == 1 ==> StarFindings(height, oracle, probes, txCount, n) == edge
    ensures n > 1 ==>
      StarFindings(height, oracle, probes, txCount, n) == StarFindings(height, oracle, probes, txCount, n - 1) + edge
  {
    edge := EdgeFindings(height, oracle, probes, txCount, n - 1);
    EdgeInOrder(height, oracle, probes, txCount, n - 1);
  }

  datatype BlockOutcome = BlockFailed | BlockDone(verdict: Verdict, height: int, findings: seq<Finding>)

  class RepeatRunExecutor {
    var n: int
    /** The number of probe apps. */
    var probes: nat

    constructor (n: int)
      ensures this.n == Max(n, 1) && probes == 0
    {
      this.n := if n < 1 then 1 else n;
      probes := 0;
    }

    /** Sets up the apps, unless one of them fails. */
    method Init(succeeds: bool)
      modifies this`probes
      ensures probes == if succeeds then Max(n, 1) else old(probes)
    {
      var configs := GenerateProbeConfigs(n);
      if succeeds {
        probes := |configs|;
      }
    }

    /** `built` tells whether all transactions could be built, `committed` whether every commit succeeded. */
    method RunBlock(height: int, txCount: nat, built: bool, oracle: Execution, runs: seq<Execution>, committed: bool)
      returns (o: BlockOutcome)
      requires 0 < probes == |runs|
      ensures o.BlockDone? <==> built && oracle.response.Some? && AllSucceed(runs) && committed
      ensures o.BlockDone? ==>
                && o.height == height
                && o.findings == StarFindings(height, oracle, runs, txCount, |runs|)
                && (forall f :: f in o.findings <==> StarReported(f, height, oracle, runs, txCount))
                && EdgesInOrder(o.findings)
                && (o.verdict == Match <==> o.findings == [])
    {
      if !built || oracle.response.None? {
        return BlockFailed;
      }
      for i := 0 to |runs|
        invariant forall k :: 0 <= k < i ==> runs[k].response.Some?
      {
        if runs[i].response.None? {
          return BlockFailed;
        }
      }
      var all := RepeatCompareResponses(PairOfApps(height, 0, oracle, runs[0]), txCount);
      for i := 1 to |runs|
        invariant all == StarFindings(height, oracle, runs, txCount, i)
      {
        var found := RepeatCompareResponses(PairOfApps(height, i, runs[0], runs[i]), txCount);
        all := all + found;
      }
      if !committed {
        return BlockFailed;
      }
      forall f
        ensures f in all <==> StarReported(f, height, oracle, runs, txCount)
      {
        StarReports(f, height, oracle, runs, txCount);
      }
      ghost var star := StarInOrder(height, oracle, runs, txCount, |runs|);
      if |all| > 0 {
        return BlockDone(Divergence, height, all);
      } else {
        return BlockDone(Match, height, []);
      }
    }
  }

  // ---------- What a match means ----------

  lemma NoRepeatFindings(p: Pair, txCount: nat)
    ensures RepeatFindings(p, txCount) == [] <==> Agree(p, {DimErrorCode, DimWriteSet}, Compared(p, txCount))
  {
    NothingDiffers(p, DimErrorCode, Compared(p, txCount));
    NothingDiffers(p, DimWriteSet, Compared(p, txCount));
  }

  /** Two executions agree on the app hash and on the code and the write set of transaction `i`. */
  ghost predicate SameAt(a: Execution, b: Execution, i: nat)
    requires a.response.Some? && b.response.Some?
    requires i < |a.response.value.txResults| && i < |b.response.value.txResults|
  {
    && a.response.value.txResults[i].code == b.response.value.txResults[i].code
    && TxWriteSet(a.writeSets, i) == TxWriteSet(b.writeSets, i)
  }

  /** Agreement on the first `n` transactions, as far as both executions have results. */
  ghost predicate Same(a: Execution, b: Execution, n: nat)
    requires a.response.Some? && b.response.Some?
  {
    && a.response.value.appHash == b.response.value.appHash
    && forall i :: 0 <= i < n && i < |a.response.value.txResults| && i < |b.response.value.txResults| ==>
      SameAt(a, b, i)
  }

  lemma EdgeMeans(height: int, probeIndex: int, a: Execution, b: Execution, txCount: nat)
    requires a.response.Some? && b.response.Some?
    ensures RepeatFindings(PairOfApps(height, probeIndex, a, b), txCount) == [] <==> Same(a, b, txCount)
  {
    var p := PairOfApps(height, probeIndex, a, b);
    NoRepeatFindings(p, txCount);
    forall i | 0 <= i < Compared(p, txCount)
      ensures SameAt(a, b, i) <==> !Differs(p, DimErrorCode, i) && !Differs(p, DimWriteSet, i)
    {
    }
    if Same(a, b, txCount) {
      forall d, i | d in {DimErrorCode, DimWriteSet} && 0 <= i < Compared(p, txCount)
        ensures !Differs(p, d, i)
      {
        assert SameAt(a, b, i);
      }
    }
  }

  /** The edges of the star to the first `n` probes. */
  ghost predicate EdgesSame(oracle: Execution, probes: seq<Execution>, txCount: nat, n: nat)
    requires oracle.response.Some? && AllSucceed(probes) && 0 < n <= |probes|
  {
    Same(oracle, probes[0], txCount) && forall i :: 0 < i < n ==> Same(probes[0], probes[i], txCount)
  }

  lemma EdgesStep(oracle: Execution, probes: seq<Execution>, txCount: nat, n: nat)
    requires oracle.response.Some? && AllSucceed(probes) && 0 < n < |probes|
    ensures EdgesSame(oracle, probes, txCount, n + 1) <==>
            EdgesSame(oracle, probes, txCount, n) && Same(probes[0], probes[n], txCount)
  {
  }

  lemma {:induction false} StarMeans(height: int, oracle: Execution, probes: seq<Execution>, txCount: nat, n: nat)
    requires oracle.response.Some? && AllSucceed(probes) && 0 < n <= |probes|
    ensures StarFindings(height, oracle, probes, txCount, n) == [] <==> EdgesSame(oracle, probes, txCount, n)
  {
    if n == 1 {
      EdgeMeans(height, 0, oracle, probes[0], txCount);
    } else {
      StarMeans(height, oracle, probes, txCount, n - 1);
      EdgeMeans(height, n - 1, probes[0], probes[n - 1], txCount);
      EdgesStep(oracle, probes, txCount, n - 1);
    }
  }

  /** The transactions that probe 0 has a result for. */
  function PivotCount(probes: seq<Execution>, txCount: nat): nat
    requires probes != [] && probes[0].response.Some?
  {
    Min(txCount, |probes[0].response.value.txResults|)
  }

  lemma PairThroughPivot(a: Execution, pivot: Execution, b: Execution, txCount: nat)
    requires a.response.Some? && pivot.response.Some? && b.response.Some?
    requires Same(pivot, a, txCount) && Same(pivot, b, txCount)
    ensures Same(a, b, Min(txCount, |pivot.response.value.txResults|))
  {
    forall i | 0 <= i < txCount && i < |pivot.response.value.txResults| && i < |a.response.value.txResults|
               && i < |b.response.value.txResults|
      ensures SameAt(a, b, i)
    {
      assert SameAt(pivot, a, i) && SameAt(pivot, b, i);
    }
  }

  lemma SameSymmetric(a: Execution, b: Execution, n: nat)
    requires a.response.Some? && b.response.Some? && Same(a, b, n)
    ensures Same(b, a, n)
  {
    forall i | 0 <= i < n && i < |a.response.value.txResults| && i < |b.response.value.txResults|
      ensures SameAt(b, a, i)
    {
      assert SameAt(a, b, i);
    }
  }

  ghost predicate PairwiseSame(apps: seq<Execution>, n: nat)
    requires AllSucceed(apps)
  {
    forall i, j :: 0 <= i < |apps| && 0 <= j < |apps| ==> Same(apps[i], apps[j], n)
  }

  /** Only the edges of a star are compared, yet no finding means that the oracle and all probes agree pairwise,
      on every transaction that probe 0 has a result for; and agreement gives no finding. */
  lemma StarIsComplete(height: int, oracle: Execution, probes: seq<Execution>, txCount: nat)
    requires oracle.response.Some? && AllSucceed(probes) && probes != []
    ensures AllSucceed([oracle] + probes)
    ensures VerdictOf(StarFindings(height, oracle, probes, txCount, |probes|)) == Match <==>
            PairwiseSame([oracle] + probes, PivotCount(probes, txCount))
  {
    assert AllSucceed([oracle] + probes);
    if StarFindings(height, oracle, probes, txCount, |probes|) == [] {
      MatchToPairs(height, [oracle] + probes, oracle, probes, txCount);
    }
    if PairwiseSame([oracle] + probes, PivotCount(probes, txCount)) {
      PairsToMatch(height, [oracle] + probes, oracle, probes, txCount);
    }
  }

  lemma MatchToPairs(height: int, apps: seq<Execution>, oracle: Execution, probes: seq<Execution>, txCount: nat)
    requires apps == [oracle] + probes && AllSucceed(apps)
    requires oracle.response.Some? && AllSucceed(probes) && probes != []
    requires StarFindings(height, oracle, probes, txCount, |probes|) == []
    ensures PairwiseSame(apps, PivotCount(probes, txCount))
  {
    StarMeans(height, oracle, probes, txCount, |probes|);
    SameSymmetric(oracle, probes[0], txCount);
    forall i | 0 <= i < |apps|
      ensures Same(probes[0], apps[i], txCount)
    {
      if i > 1 {
        assert apps[i] == probes[i - 1];
      }
    }
    forall i, j | 0 <= i < |apps| && 0 <= j < |apps|
      ensures Same(apps[i], apps[j], PivotCount(probes, txCount))
    {
      PairThroughPivot(apps[i], probes[0], apps[j], txCount);
    }
  }

  lemma PairsToMatch(height: int, apps: seq<Execution>, oracle: Execution, probes: seq<Execution>, txCount: nat)
    requires apps == [oracle] + probes && AllSucceed(apps)
    requires oracle.response.Some? && AllSucceed(probes) && probes != []
    requires PairwiseSame(apps, PivotCount(probes, txCount))
    ensures StarFindings(height, oracle, probes, txCount, |probes|) == []
  {
    StarMeans(height, oracle, probes, txCount, |probes|);
    assert Same(apps[0], apps[1], PivotCount(probes, txCount));
    WithinPivot(oracle, probes[0], txCount);
    forall i | 0 < i < |probes|
      ensures Same(probes[0], probes[i], txCount)
    {
      assert Same(apps[1], apps[i + 1], PivotCount(probes, txCount));
      WithinPivot(probes[0], probes[i], txCount);
    }
  }

  lemma WithinPivot(a: Execution, b: Execution, txCount: nat)
    requires a.response.Some? && b.response.Some?
    requires
      || Same(a, b, Min(txCount, |a.response.value.txResults|))
      || Same(a, b, Min(txCount, |b.response.value.txResults|))
    ensures Same(a, b, txCount)
  {
  }

  /** Every app returned a result for each of the block's transactions. */
  ghost predicate Complete(apps: seq<Execution>, txCount: nat) {
    AllSucceed(apps) && forall i :: 0 <= i < |apps| ==> |apps[i].response.value.txResults| == txCount
  }

  /** All apps agree on the app hash and on every error code and write set. */
  ghost predicate AllAgree(apps: seq<Execution>, txCount: nat)
    requires Complete(apps, txCount)
  {
    forall i, j :: 0 <= i < |apps| && 0 <= j < |apps| ==>
      && apps[i].response.value.appHash == apps[j].response.value.appHash
      && forall tx :: 0 <= tx < txCount ==> SameAt(apps[i], apps[j], tx)
  }

  lemma CompleteAgreement(apps: seq<Execution>, txCount: nat)
    requires Complete(apps, txCount)
    ensures PairwiseSame(apps, txCount) <==> AllAgree(apps, txCount)
  {
    if PairwiseSame(apps, txCount) {
      forall i, j | 0 <= i < |apps| && 0 <= j < |apps|
        ensures apps[i].response.value.appHash == apps[j].response.value.appHash
        ensures forall tx :: 0 <= tx < txCount ==> SameAt(apps[i], apps[j], tx)
      {
        assert Same(apps[i], apps[j], txCount);
      }
    }
  }

  /** When probe 0 returns a result for each transaction, a match means that all apps agree on everything that is
      compared: on each transaction that both of any two have a result for, and so, when all returned results for
      each transaction, on every error code and write set. */
  lemma MatchMeansAgreement(height: int, oracle: Execution, probes: seq<Execution>, txCount: nat)
    requires oracle.response.Some? && AllSucceed(probes) && probes != []
    requires |probes[0].response.value.txResults| >= txCount
    ensures
      var apps := [oracle] + probes;
      var matched := VerdictOf(StarFindings(height, oracle, probes, txCount, |probes|)) == Match;
      && AllSucceed(apps)
      && (matched <==> PairwiseSame(apps, txCount))
      && (Complete(apps, txCount) ==> (matched <==> AllAgree(apps, txCount)))
  {
    StarIsComplete(height, oracle, probes, txCount);
    if Complete([oracle] + probes, txCount) {
      CompleteAgreement([oracle] + probes, txCount);
    }
  }

  // ---------- Which numbers of results make a match mean agreement ----------

  /** The apps return so many results. */
  ghost predicate HasLengths(apps: seq<Execution>, lens: seq<nat>) {
    && |apps| == |lens| && AllSucceed(apps)
    && forall i :: 0 <= i < |apps| ==> |apps[i].response.value.txResults| == lens[i]
  }

  /** A run of the oracle and at least one probe with so many results. */
  ghost predicate HasProfile(oracle: Execution, probes: seq<Execution>, lens: seq<nat>) {
    oracle.response.Some? && AllSucceed(probes) && probes != [] && HasLengths([oracle] + probes, lens)
  }

  /** Whatever the results hold: with so many of them, a match means that all apps agree pairwise. */
  ghost predicate MatchIsAgreement(height: int, lens: seq<nat>, txCount: nat) {
    forall oracle, probes | HasProfile(oracle, probes, lens) ::
      VerdictOf(StarFindings(height, oracle, probes, txCount, |probes|)) == Match ==>
        PairwiseSame([oracle] + probes, txCount)
  }

  /** No two apps other than probe 0 have results for a transaction that probe 0 has none for. */
  predicate PivotCovers(lens: seq<nat>, txCount: nat)
    requires |lens| >= 2
  {
    forall i, j :: 0 <= i < j < |lens| && i != 1 && j != 1 ==> Min(txCount, Min(lens[i], lens[j])) <= lens[1]
  }

  lemma CoveredAgreement(apps: seq<Execution>, lens: seq<nat>, txCount: nat)
    requires |lens| >= 2 && HasLengths(apps, lens) && PivotCovers(lens, txCount)
    requires PairwiseSame(apps, Min(txCount, lens[1]))
    ensures PairwiseSame(apps, txCount)
  {
    forall i, j | 0 <= i < |apps| && 0 <= j < |apps|
      ensures Same(apps[i], apps[j], txCount)
    {
      assert Same(apps[i], apps[j], Min(txCount, lens[1]));
      if i != j {
        assert i < j || j < i;
        assert Min(txCount, Min(lens[i], lens[j])) <= lens[1];
      }
    }
  }

  /** An app without write sets whose codes are all 0, except for code 1 for transaction `tx` if it is `odd`. */
  function OddApp(len: nat, odd: bool, tx: nat): Execution {
    var results := seq(len, k requires 0 <= k < len => TxResult(if odd && k == tx then 1 else 0, 0, []));
    Execution(Some(Response([], results)), [])
  }

  function OddApps(lens: seq<nat>, odd: nat, tx: nat): seq<Execution> {
    seq(|lens|, i requires 0 <= i < |lens| => OddApp(lens[i], i == odd, tx))
  }

  /** Otherwise there are apps that agree as far as probe 0 has results, and disagree beyond. */
  lemma HiddenDisagreement(lens: seq<nat>, txCount: nat) returns (apps: seq<Execution>)
    requires |lens| >= 2 && !PivotCovers(lens, txCount)
    ensures HasLengths(apps, lens)
    ensures PairwiseSame(apps, Min(txCount, lens[1])) && !PairwiseSame(apps, txCount)
  {
    var i, j :| 0 <= i < j < |lens| && i != 1 && j != 1 && Min(txCount, Min(lens[i], lens[j])) > lens[1];
    apps := OddApps(lens, i, lens[1]);
    assert !SameAt(apps[i], apps[j], lens[1]);
    assert !Same(apps[i], apps[j], txCount);
  }

  /** A match means pairwise agreement, for all runs with so many results, exactly when no two apps other than
      probe 0 have results for a transaction that probe 0 has none for. */
  lemma MatchIsAgreementExactly(height: int, lens: seq<nat>, txCount: nat)
    requires |lens| >= 2
    ensures MatchIsAgreement(height, lens, txCount) <==> PivotCovers(lens, txCount)
  {
    if PivotCovers(lens, txCount) {
      forall oracle, probes | HasProfile(oracle, probes, lens)
          && VerdictOf(StarFindings(height, oracle, probes, txCount, |probes|)) == Match
        ensures PairwiseSame([oracle] + probes, txCount)
      {
        StarIsComplete(height, oracle, probes, txCount);
        CoveredAgreement([oracle] + probes, lens, txCount);
      }
    } else {
      MatchHidesDisagreement(height, lens, txCount);
    }
  }

  /** The second half on its own: for such numbers of results there is a run that matches although two apps
      disagree. */
  lemma MatchHidesDisagreement(height: int, lens: seq<nat>, txCount: nat)
    requires |lens| >= 2 && !PivotCovers(lens, txCount)
    ensures !MatchIsAgreement(height, lens, txCount)
  {
    var apps := HiddenDisagreement(lens, txCount);
    var oracle, probes := apps[0], apps[1..];
    assert [oracle] + probes == apps && probes[0] == apps[1];
    assert HasProfile(oracle, probes, lens);
    StarIsComplete(height, oracle, probes, txCount);
  }
}
