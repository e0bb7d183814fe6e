/** `RunHarness`: the loops over stores and blocks, their tallies, block numbers and exit code. */
module Harness {
  import opened GoTypes
  import opened Comparison
  import opened Conflict
  import opened StatePattern

  datatype Config = Config(failOnDivergence: bool, hotKeyMinTxs: int)

  /** What running a block yields. */
  datatype BlockResult = BlockResult(verdict: Verdict, findings: seq<Finding>, oracleTxCodes: seq<nat>,
                                     hotKeys: seq<HotKeyStat>, msgKeys: seq<Bytes>, txWriteSets: seq<seq<Bytes>>)

  /** One step of a store's iteration: an error, or a block, given by its own height and by what running it at an
      effective height yields (`None` when `RunBlock` fails). */
  datatype Item =
    | IterError
    | Block(height: int, run: int -> Option<BlockResult>)

  /** `ready` tells whether the executor could be initialised for the store. */
  datatype Store = Store(name: Bytes, isCanary: bool, blockCount: nat, ready: bool, items: seq<Item>)

  datatype BlockOutcome = BlockOutcome(index: nat, total: nat, fixture: Bytes, isCanary: bool, verdict: Verdict,
                                       findings: seq<Finding>, oracleTxCodes: seq<nat>, hotKeys: seq<HotKeyStat>)

  datatype Summary = Summary(totalBlocks: nat, okCount: nat, divergenceCount: nat, canaryExpected: nat,
                             canaryMissed: nat, hotKeyBlocks: nat, statePatterns: seq<Entry>)
  {
    function ExitCode(failOnDivergence: bool): int {
      if canaryMissed > 0 then 1
      else if failOnDivergence && divergenceCount > 0 then 1
      else 0
    }
  }

  class Reporter {
    var blocks: seq<BlockOutcome>

    constructor ()
      ensures blocks == []
    {
      blocks := [];
    }

    method Block(o: BlockOutcome)
      modifies this
      ensures blocks == old(blocks) + [o]
    {
      blocks := blocks + [o];
    }
  }

  // ---------- The state of the loops ----------

  datatype Tally = Tally(ok: nat, divergence: nat, canaryExpected: nat, canaryMissed: nat, hotKeyBlocks: nat)

  datatype Progress = Progress(blockNum: nat, tally: Tally, reported: seq<BlockOutcome>, patterns: Patterns)

  function HotOnly(hotKeys: seq<HotKeyStat>, minTxs: int): seq<HotKeyStat> {
    if hotKeys == [] then []
    else
      var last := hotKeys[|hotKeys| - 1];
      HotOnly(hotKeys[..|hotKeys| - 1], minTxs) + if |last.txs| >= minTxs then [last] else []
  }

  /** The filter keeps exactly the keys that enough transactions re-executed on. */
  lemma {:induction false} HotOnlyExact(hotKeys: seq<HotKeyStat>, minTxs: int, h: HotKeyStat)
    ensures h in HotOnly(hotKeys, minTxs) <==> h in hotKeys && |h.txs| >= minTxs
  {
    if hotKeys != [] {
      var front, last := hotKeys[..|hotKeys| - 1], hotKeys[|hotKeys| - 1];
      HotOnlyExact(front, minTxs, h);
      assert hotKeys == front + [last];
    }
  }

  method FilterHotKeys(c: Config, hotKeys: seq<HotKeyStat>) returns (hot: seq<HotKeyStat>)
    ensures hot == if c.hotKeyMinTxs > 0 then HotOnly(hotKeys, c.hotKeyMinTxs) else []
  {
    hot := [];
    if c.hotKeyMinTxs > 0 {
      for i := 0 to |hotKeys|
        invariant hot == HotOnly(hotKeys[..i], c.hotKeyMinTxs)
      {
        assert hotKeys[..i + 1][..i] == hotKeys[..i];
        if |hotKeys[i].txs| >= c.hotKeyMinTxs {
          hot := hot + [hotKeys[i]];
        }
      }
      assert hotKeys[..|hotKeys|] == hotKeys;
    }
  }

  function OutcomeOf(c: Config, total: nat, s: Store, index: nat, res: BlockResult): BlockOutcome {
    BlockOutcome(index, total, s.name, s.isCanary, res.verdict, res.findings, res.oracleTxCodes,
                 if c.hotKeyMinTxs > 0 then HotOnly(res.hotKeys, c.hotKeyMinTxs) else [])
  }

  function Counted(t: Tally, o: BlockOutcome): Tally {
    var u := if o.hotKeys != [] then t.(hotKeyBlocks := t.hotKeyBlocks + 1) else t;
    match (o.isCanary, o.verdict)
    case (true, Divergence) => u.(canaryExpected := u.canaryExpected + 1)
    case (true, Match) => u.(canaryMissed := u.canaryMissed + 1)
    case (false, Match) => u.(ok := u.ok + 1)
    case (false, Divergence) => u.(divergence := u.divergence + 1)
  }

  function RecordedBlock(m: Patterns, msgKeys: seq<Bytes>, writeSets: seq<seq<Bytes>>): Patterns {
    if writeSets == [] then m else Recorded(m, msgKeys, writeSets, |msgKeys|)
  }

  /** The height a block is run at: its own, or its place in the store. */
  function EffectiveHeight(item: Item, localHeight: nat): int
    requires item.Block?
  {
    if item.height > 0 then item.height else localHeight
  }

  function AfterBlock(c: Config, total: nat, s: Store, localHeight: nat, p: Progress, item: Item): Progress
    requires item.Block?
  {
    match item.run(EffectiveHeight(item, localHeight))
    case None => p.(blockNum := p.blockNum + 1)
    case Some(res) =>
      var o := OutcomeOf(c, total, s, p.blockNum + 1, res);
      Progress(p.blockNum + 1, Counted(p.tally, o), p.reported + [o],
               RecordedBlock(p.patterns, res.msgKeys, res.txWriteSets))
  }

  /** How many blocks a store yields: those before the first iteration error. */
  function Yielded(items: seq<Item>): (n: nat)
    ensures n <= |items|
    ensures forall i :: 0 <= i < n ==> items[i].Block?
    ensures n < |items| ==> items[n].IterError?
  {
    if items == [] || items[0].IterError? then 0
    else
      assert forall i :: 0 <= i < Yielded(items[1..]) ==> items[1..][i] == items[i + 1];
      1 + Yielded(items[1..])
  }

  function AfterBlocks(c: Config, total: nat, s: Store, p: Progress, n: nat): Progress
    requires n <= Yielded(s.items)
  {
    if n == 0 then p
    else AfterBlock(c, total, s, n, AfterBlocks(c, total, s, p, n - 1), s.items[n - 1])
  }

  function AfterStore(c: Config, total: nat, s: Store, p: Progress): Progress {
    if !s.ready then p.(blockNum := p.blockNum + s.blockCount)
    else AfterBlocks(c, total, s, p, Yielded(s.items))
  }

  function AfterStores(c: Config, total: nat, stores: seq<Store>, p: Progress, n: nat): Progress
    requires n <= |stores|
  {
    if n == 0 then p
    else AfterStore(c, total, stores[n - 1], AfterStores(c, total, stores, p, n - 1))
  }

  function BlockTotal(stores: seq<Store>, n: nat): nat
    requires n <= |stores|
  {
    if n == 0 then 0 else BlockTotal(stores, n - 1) + stores[n - 1].blockCount
  }

  const NO_TALLY := Tally(0, 0, 0, 0, 0)

  function Start(): Progress {
    Progress(0, NO_TALLY, [], map[])
  }

  /** Where a whole run ends. */
  function Final(c: Config, stores: seq<Store>): Progress {
    AfterStores(c, BlockTotal(stores, |stores|), stores, Start(), |stores|)
  }

  function SummaryOf(stores: seq<Store>, p: Progress, patterns: seq<Entry>): Summary {
    Summary(BlockTotal(stores, |stores|), p.tally.ok, p.tally.divergence, p.tally.canaryExpected,
            p.tally.canaryMissed, p.tally.hotKeyBlocks, patterns)
  }

  // ---------- The loops ----------

  /** The counters of a run. */
  class Counters {
    var okCount: nat
    var divergenceCount: nat
    var canaryExpected: nat
    var canaryMissed: nat
    var hotKeyBlocks: nat

    constructor ()
      ensures View() == NO_TALLY
    {
      okCount, divergenceCount, canaryExpected, canaryMissed, hotKeyBlocks := 0, 0, 0, 0, 0;
    }

    function View(): Tally
      reads this
    {
      Tally(okCount, divergenceCount, canaryExpected, canaryMissed, hotKeyBlocks)
    }

    method Add(o: BlockOutcome)
      modifies this
      ensures View() == Counted(old(View()), o)
    {
      if |o.hotKeys| > 0 {
        hotKeyBlocks := hotKeyBlocks + 1;
      }
      if o.isCanary && o.verdict == Divergence {
        canaryExpected := canaryExpected + 1;
      } else if o.isCanary && o.verdict == Match {
        canaryMissed := canaryMissed + 1;
      } else if o.verdict == Match {
        okCount := okCount + 1;
      } else if o.verdict == Divergence {
        divergenceCount := divergenceCount + 1;
      }
    }
  }

  /** The inner loop, over the blocks of one store. */
  method RunStore(c: Config, total: nat, s: Store, blockNum: nat, rep: Reporter, counters: Counters,
                  patterns: StatePatternTracker, ghost p: Progress)
    returns (blockNum': nat)
    requires p == Progress(blockNum, counters.View(), rep.blocks, patterns.patterns)
    modifies rep, counters, patterns
    ensures AfterBlocks(c, total, s, p, Yielded(s.items))
            == Progress(blockNum', counters.View(), rep.blocks, patterns.patterns)
  {
    blockNum' := blockNum;
    var localHeight := 0;
    var n := Yielded(s.items);
    while localHeight < |s.items| && !s.items[localHeight].IterError?
      invariant localHeight <= n
      invariant AfterBlocks(c, total, s, p, localHeight)
                == Progress(blockNum', counters.View(), rep.blocks, patterns.patterns)
    {
      var item := s.items[localHeight];
      localHeight := localHeight + 1;
      blockNum' := blockNum' + 1;
      var result := item.run(EffectiveHeight(item, localHeight));
      if result.Some? {
        var res := result.value;
        patterns.RecordBlock(res.msgKeys, res.txWriteSets);
        var hot := FilterHotKeys(c, res.hotKeys);
        var outcome := BlockOutcome(blockNum', total, s.name, s.isCanary, res.verdict, res.findings,
                                    res.oracleTxCodes, hot);
        rep.Block(outcome);
        counters.Add(outcome);
      }
    }
  }

  method RunHarness(c: Config, stores: seq<Store>, rep: Reporter) returns (exit: int, summary: Summary)
    requires rep.blocks == []
    modifies rep
    ensures rep.blocks == Final(c, stores).reported
    ensures exists turns ::
      && InTurn(c, BlockTotal(stores, |stores|), stores, turns, rep.blocks)
      && forall t :: IsTurn(stores, t) <==> t in turns
    ensures summary.totalBlocks == BlockTotal(stores, |stores|)
    ensures summary.okCount == Kind(rep.blocks, false, Match)
    ensures summary.divergenceCount == Kind(rep.blocks, false, Divergence)
    ensures summary.canaryExpected == Kind(rep.blocks, true, Divergence)
    ensures summary.canaryMissed == Kind(rep.blocks, true, Match)
    ensures summary.hotKeyBlocks == Hot(rep.blocks)
    ensures forall key :: CountIn(summary.statePatterns, key) == |PatternsOfStores(stores, key)|
    ensures exit in {0, 1}
    ensures exit == 1 <==> RanTo(stores, true, Match) || (c.failOnDivergence && RanTo(stores, false, Divergence))
  {
    var total := 0;
    for i := 0 to |stores|
      invariant total == BlockTotal(stores, i)
    {
      total := total + stores[i].blockCount;
    }
    var patterns := new StatePatternTracker();
    var counters := new Counters();
    var blockNum: nat := 0;
    for i := 0 to |stores|
      invariant AfterStores(c, total, stores, Start(), i)
                == Progress(blockNum, counters.View(), rep.blocks, patterns.patterns)
    {
      var s := stores[i];
      if !s.ready {
        blockNum := blockNum + s.blockCount;
        continue;
      }
      ghost var p := AfterStores(c, total, stores, Start(), i);
      blockNum := RunStore(c, total, s, blockNum, rep, counters, patterns, p);
    }
    var entries := patterns.Report();
    summary := Summary(total, counters.okCount, counters.divergenceCount, counters.canaryExpected,
                       counters.canaryMissed, counters.hotKeyBlocks, entries);
    exit := summary.ExitCode(c.failOnDivergence);
    StoresKeep(c, total, stores, |stores|);
    ghost var turns := ReportedInTurn(c, stores);
    ExitCodeMeans(c, stores, entries);
    forall key
      ensures Lookup(Final(c, stores).patterns, key) == PatternsOfStores(stores, key)
    {
      RecordedInRun(c, stores, key);
    }
  }

  // ---------- Whole runs ----------

  /** What every step keeps: the reported indices increase and do not pass the running number; each tally counts
      the reported blocks of its kind. */
  ghost predicate Numbered(p: Progress) {
    && (forall i, j :: 0 <= i < j < |p.reported| ==> p.reported[i].index < p.reported[j].index)
    && (forall o :: o in p.reported ==> 0 < o.index <= p.blockNum)
  }

  ghost function Kind(reported: seq<BlockOutcome>, canary: bool, v: Verdict): nat {
    if reported == [] then 0
    else
      var last := reported[|reported| - 1];
      Kind(reported[..|reported| - 1], canary, v) + if last.isCanary == canary && last.verdict == v then 1 else 0
  }

  ghost function Hot(reported: seq<BlockOutcome>): nat {
    if reported == [] then 0
    else Hot(reported[..|reported| - 1]) + if reported[|reported| - 1].hotKeys != [] then 1 else 0
  }

  ghost predicate Tallied(p: Progress) {
    p.tally == Expected(p.reported)
  }

  lemma NumberedStep(c: Config, total: nat, s: Store, localHeight: nat, p: Progress, item: Item)
    requires item.Block? && Numbered(p)
    ensures Numbered(AfterBlock(c, total, s, localHeight, p, item))
  {
    forall j | 0 <= j < |p.reported|
      ensures p.reported[j].index <= p.blockNum
    {
      assert p.reported[j] in p.reported;
    }
  }

  lemma KindAppend(reported: seq<BlockOutcome>, o: BlockOutcome, canary: bool, v: Verdict)
    ensures Kind(reported + [o], canary, v) ==
            Kind(reported, canary, v) + if o.isCanary == canary && o.verdict == v then 1 else 0
  {
    assert (reported + [o])[..|reported|] == reported;
  }

  lemma HotAppend(reported: seq<BlockOutcome>, o: BlockOutcome)
    ensures Hot(reported + [o]) == Hot(reported) + if o.hotKeys != [] then 1 else 0
  {
    assert (reported + [o])[..|reported|] == reported;
  }

  ghost function Expected(reported: seq<BlockOutcome>): Tally {
    Tally(Kind(reported, false, Match), Kind(reported, false, Divergence),
          Kind(reported, true, Divergence), Kind(reported, true, Match), Hot(reported))
  }

  lemma ExpectedAppend(reported: seq<BlockOutcome>, o: BlockOutcome)
    ensures Expected(reported + [o]) == Counted(Expected(reported), o)
  {
    KindAppend(reported, o, false, Match);
    KindAppend(reported, o, false, Divergence);
    KindAppend(reported, o, true, Divergence);
    KindAppend(reported, o, true, Match);
    HotAppend(reported, o);
  }

  lemma TalliedStep(c: Config, total: nat, s: Store, localHeight: nat, p: Progress, item: Item)
    requires item.Block? && Tallied(p)
    ensures Tallied(AfterBlock(c, total, s, localHeight, p, item))
  {
    var q := AfterBlock(c, total, s, localHeight, p, item);
    if item.run(EffectiveHeight(item, localHeight)).None? {
      SameTallied(p, q);
    } else {
      OneMoreTallied(p, q, q.reported[|p.reported|]);
    }
  }

  lemma SameTallied(p: Progress, q: Progress)
    requires Tallied(p) && q.tally == p.tally && q.reported == p.reported
    ensures Tallied(q)
  {
  }

  lemma OneMoreTallied(p: Progress, q: Progress, o: BlockOutcome)
    requires Tallied(p) && q.tally == Counted(p.tally, o) && q.reported == p.reported + [o]
    ensures Tallied(q)
  {
    ExpectedAppend(p.reported, o);
  }

  lemma BlockKeeps(c: Config, total: nat, s: Store, localHeight: nat, p: Progress, item: Item, q: Progress)
    requires item.Block? && Numbered(p) && Tallied(p) && q == AfterBlock(c, total, s, localHeight, p, item)
    ensures Numbered(q) && Tallied(q) && q.blockNum == p.blockNum + 1
  {
    NumberedStep(c, total, s, localHeight, p, item);
    TalliedStep(c, total, s, localHeight, p, item);
  }

  lemma {:induction false} BlocksKeep(c: Config, total: nat, s: Store, p: Progress, n: nat)
    requires n <= Yielded(s.items) && Numbered(p) && Tallied(p)
    ensures Numbered(AfterBlocks(c, total, s, p, n)) && Tallied(AfterBlocks(c, total, s, p, n))
    ensures AfterBlocks(c, total, s, p, n).blockNum == p.blockNum + n
  {
    if n > 0 {
      BlocksKeep(c, total, s, p, n - 1);
      var q := AfterBlocks(c, total, s, p, n - 1);
      BlockKeeps(c, total, s, n, q, s.items[n - 1], AfterBlocks(c, total, s, p, n));
    }
  }

  lemma {:induction false} StoresKeep(c: Config, total: nat, stores: seq<Store>, n: nat)
    requires n <= |stores|
    ensures Numbered(AfterStores(c, total, stores, Start(), n)) && Tallied(AfterStores(c, total, stores, Start(), n))
  {
    if n > 0 {
      StoresKeep(c, total, stores, n - 1);
      var s := stores[n - 1];
      BlocksKeep(c, total, s, AfterStores(c, total, stores, Start(), n - 1), Yielded(s.items));
    }
  }

  // ---------- Block numbers ----------

  /** How far a store moves the running block number. */
  function Advance(s: Store): nat {
    if s.ready then Yielded(s.items) else s.blockCount
  }

  /** The block number when store `n` comes up. */
  function Used(stores: seq<Store>, n: nat): nat
    requires n <= |stores|
  {
    if n == 0 then 0 else Used(stores, n - 1) + Advance(stores[n - 1])
  }

  /** What running block `k` of the store yields: it is run at its own height if it has one, else at its place. */
  function ResultOf(s: Store, k: nat): Option<BlockResult>
    requires k < |s.items| && s.items[k].Block?
  {
    s.items[k].run(if s.items[k].height > 0 then s.items[k].height else k + 1)
  }

  /** Block `k` of the store is reached, and run without an error. */
  predicate Reports(s: Store, k: nat) {
    && s.ready && k < |s.items| && (forall j :: 0 <= j <= k ==> s.items[j].Block?)
    && ResultOf(s, k).Some?
  }

  lemma Reached(s: Store, k: nat)
    ensures k < Yielded(s.items) <==> k < |s.items| && forall j :: 0 <= j <= k ==> s.items[j].Block?
  {
  }

  ghost predicate HasIndex(reported: seq<BlockOutcome>, index: int) {
    exists o :: o in reported && o.index == index
  }

  lemma HasIndexAppend(reported: seq<BlockOutcome>, o: BlockOutcome, index: int)
    ensures HasIndex(reported + [o], index) <==> HasIndex(reported, index) || o.index == index
  {
    if HasIndex(reported, index) {
      var p :| p in reported && p.index == index;
      assert p in reported + [o];
    }
    assert o in reported + [o];
  }

  lemma {:induction false} IndicesOfStore(c: Config, total: nat, s: Store, p: Progress, n: nat, index: int)
    requires s.ready && n <= Yielded(s.items)
    ensures AfterBlocks(c, total, s, p, n).blockNum == p.blockNum + n
    ensures HasIndex(AfterBlocks(c, total, s, p, n).reported, index) <==>
            HasIndex(p.reported, index) || exists k :: 0 <= k < n && Reports(s, k) && index == p.blockNum + k + 1
  {
    if n > 0 {
      IndicesOfStore(c, total, s, p, n - 1, index);
      IndexStep(c, total, s, AfterBlocks(c, total, s, p, n - 1), n - 1, index);
    }
  }

  lemma IndexStep(c: Config, total: nat, s: Store, p: Progress, k: nat, index: int)
    requires s.ready && k < Yielded(s.items)
    ensures AfterBlock(c, total, s, k + 1, p, s.items[k]).blockNum == p.blockNum + 1
    ensures HasIndex(AfterBlock(c, total, s, k + 1, p, s.items[k]).reported, index) <==>
            HasIndex(p.reported, index) || (Reports(s, k) && index == p.blockNum + 1)
  {
    Reached(s, k);
    if Reports(s, k) {
      HasIndexAppend(p.reported, OutcomeOf(c, total, s, p.blockNum + 1, ResultOf(s, k).value), index);
    }
  }

  /** Block `k` of store `i` is reported under this index. */
  ghost predicate Carries(stores: seq<Store>, i: nat, k: nat, index: int)
    requires i < |stores|
  {
    Reports(stores[i], k) && index == Used(stores, i) + k + 1
  }

  /** One of the first `n` stores reports a block under this index. */
  ghost predicate Carried(stores: seq<Store>, n: nat, index: int)
    requires n <= |stores|
  {
    exists i, k: nat :: 0 <= i < n && Carries(stores, i, k, index)
  }

  ghost predicate CarriedBy(stores: seq<Store>, i: nat, index: int)
    requires i < |stores|
  {
    exists k: nat :: Carries(stores, i, k, index)
  }

  lemma CarriedStep(stores: seq<Store>, n: nat, index: int)
    requires n < |stores|
    ensures Carried(stores, n + 1, index) <==> Carried(stores, n, index) || CarriedBy(stores, n, index)
  {
  }

  lemma IndicesOfOne(c: Config, total: nat, stores: seq<Store>, i: nat, p: Progress, index: int)
    requires i < |stores| && p.blockNum == Used(stores, i)
    ensures HasIndex(AfterStore(c, total, stores[i], p).reported, index) <==>
            HasIndex(p.reported, index) || CarriedBy(stores, i, index)
    ensures AfterStore(c, total, stores[i], p).blockNum == Used(stores, i + 1)
  {
    var s := stores[i];
    if s.ready {
      IndicesOfStore(c, total, s, p, Yielded(s.items), index);
      forall k: nat
        ensures Reports(s, k) ==> k < Yielded(s.items)
      {
        Reached(s, k);
      }
      if k: nat :| k < Yielded(s.items) && Reports(s, k) && index == p.blockNum + k + 1 {
        assert Carries(stores, i, k, index);
      }
      if k: nat :| Carries(stores, i, k, index) {
        assert Reports(s, k) && index == p.blockNum + k + 1;
      }
    }
  }

  lemma {:induction false} IndicesOfStores(c: Config, total: nat, stores: seq<Store>, n: nat, index: int)
    requires n <= |stores|
    ensures AfterStores(c, total, stores, Start(), n).blockNum == Used(stores, n)
    ensures HasIndex(AfterStores(c, total, stores, Start(), n).reported, index) <==> Carried(stores, n, index)
  {
    if n > 0 {
      IndicesOfStores(c, total, stores, n - 1, index);
      IndicesOfOne(c, total, stores, n - 1, AfterStores(c, total, stores, Start(), n - 1), index);
      CarriedStep(stores, n - 1, index);
    }
  }

  // ---------- What is reported, told from the stores ----------

  /** Block `k` of store `i`. */
  datatype Turn = Turn(i: nat, k: nat)

  predicate IsTurn(stores: seq<Store>, t: Turn) {
    t.i < |stores| && Reports(stores[t.i], t.k)
  }

  /** Store by store, and within a store block by block. */
  predicate Earlier(t: Turn, u: Turn) {
    t.i < u.i || (t.i == u.i && t.k < u.k)
  }

  /** The outcome is that of the block: its number, its store's name and flag, what running it yields, and of the hot
      keys those with enough transactions. */
  ghost predicate Tells(c: Config, total: nat, stores: seq<Store>, t: Turn, o: BlockOutcome)
    requires IsTurn(stores, t)
  {
    var s, res := stores[t.i], ResultOf(stores[t.i], t.k).value;
    && o.index == Used(stores, t.i) + t.k + 1 && o.total == total
    && o.fixture == s.name && o.isCanary == s.isCanary
    && o.verdict == res.verdict && o.findings == res.findings && o.oracleTxCodes == res.oracleTxCodes
    && (c.hotKeyMinTxs <= 0 ==> o.hotKeys == [])
    && (c.hotKeyMinTxs > 0 ==> IsFiltered(o.hotKeys, res.hotKeys, c.hotKeyMinTxs))
  }

  /** The list holds the hot keys that enough transactions re-executed on, in their order. */
  ghost predicate IsFiltered(kept: seq<HotKeyStat>, hotKeys: seq<HotKeyStat>, minTxs: int) {
    if hotKeys == [] then kept == []
    else
      var last := hotKeys[|hotKeys| - 1];
      if |last.txs| >= minTxs then
        kept != [] && kept[|kept| - 1] == last && IsFiltered(kept[..|kept| - 1], hotKeys[..|hotKeys| - 1], minTxs)
      else IsFiltered(kept, hotKeys[..|hotKeys| - 1], minTxs)
  }

  lemma {:induction false} HotOnlyFiltered(hotKeys: seq<HotKeyStat>, minTxs: int)
    ensures IsFiltered(HotOnly(hotKeys, minTxs), hotKeys, minTxs)
  {
    if hotKeys != [] {
      HotOnlyFiltered(hotKeys[..|hotKeys| - 1], minTxs);
      var front, last := HotOnly(hotKeys[..|hotKeys| - 1], minTxs), hotKeys[|hotKeys| - 1];
      assert (front + [last])[..|front|] == front && front + [] == front;
    }
  }

  /** The outcomes are those of the blocks in the list, which is in order. */
  ghost predicate InTurn(c: Config, total: nat, stores: seq<Store>, turns: seq<Turn>, reported: seq<BlockOutcome>) {
    && |turns| == |reported|
    && (forall j :: 0 <= j < |turns| ==> IsTurn(stores, turns[j]) && Tells(c, total, stores, turns[j], reported[j]))
    && (forall j, l :: 0 <= j < l < |turns| ==> Earlier(turns[j], turns[l]))
  }

  /** All turns of the list come before block `k` of store `i`. */
  predicate AllEarlier(turns: seq<Turn>, i: nat, k: nat) {
    forall j :: 0 <= j < |turns| ==> Earlier(turns[j], Turn(i, k))
  }

  lemma OneMoreTurn(c: Config, total: nat, stores: seq<Store>, turns: seq<Turn>, reported: seq<BlockOutcome>,
                    t: Turn, o: BlockOutcome)
    requires InTurn(c, total, stores, turns, reported) && AllEarlier(turns, t.i, t.k)
    requires IsTurn(stores, t) && Tells(c, total, stores, t, o)
    ensures InTurn(c, total, stores, turns + [t], reported + [o])
    ensures AllEarlier(turns + [t], t.i, t.k + 1)
  {
  }

  lemma OutcomeTells(c: Config, total: nat, stores: seq<Store>, t: Turn, index: nat)
    requires IsTurn(stores, t) && index == Used(stores, t.i) + t.k + 1
    ensures Tells(c, total, stores, t, OutcomeOf(c, total, stores[t.i], index, ResultOf(stores[t.i], t.k).value))
  {
    HotOnlyFiltered(ResultOf(stores[t.i], t.k).value.hotKeys, c.hotKeyMinTxs);
  }

  /** The blocks of store `i` among the first `n`, after the earlier turns. */
  lemma {:induction false} BlocksInTurn(c: Config, total: nat, stores: seq<Store>, i: nat, p: Progress,
                                        turns: seq<Turn>, n: nat)
    returns (more: seq<Turn>)
    requires i < |stores| && stores[i].ready && n <= Yielded(stores[i].items)
    requires InTurn(c, total, stores, turns, p.reported) && AllEarlier(turns, i, 0) && p.blockNum == Used(stores, i)
    ensures InTurn(c, total, stores, more, AfterBlocks(c, total, stores[i], p, n).reported)
    ensures turns <= more && AllEarlier(more, i, n)
    ensures forall k: nat :: k < n && Reports(stores[i], k) ==> Turn(i, k) in more
    ensures AfterBlocks(c, total, stores[i], p, n).blockNum == p.blockNum + n
  {
    if n == 0 {
      more := turns;
    } else {
      var before := BlocksInTurn(c, total, stores, i, p, turns, n - 1);
      more := BlockInTurn(c, total, stores, i, AfterBlocks(c, total, stores[i], p, n - 1), before, n - 1);
    }
  }

  lemma BlockInTurn(c: Config, total: nat, stores: seq<Store>, i: nat, p: Progress, before: seq<Turn>, k: nat)
    returns (more: seq<Turn>)
    requires i < |stores| && stores[i].ready && k < Yielded(stores[i].items)
    requires InTurn(c, total, stores, before, p.reported) && AllEarlier(before, i, k)
    requires p.blockNum == Used(stores, i) + k
    ensures InTurn(c, total, stores, more, AfterBlock(c, total, stores[i], k + 1, p, stores[i].items[k]).reported)
    ensures before <= more && AllEarlier(more, i, k + 1) && (Reports(stores[i], k) ==> Turn(i, k) in more)
    ensures AfterBlock(c, total, stores[i], k + 1, p, stores[i].items[k]).blockNum == p.blockNum + 1
  {
    Reached(stores[i], k);
    more := before;
    if Reports(stores[i], k) {
      var t, o := Turn(i, k), OutcomeOf(c, total, stores[i], p.blockNum + 1, ResultOf(stores[i], k).value);
      OutcomeTells(c, total, stores, t, p.blockNum + 1);
      OneMoreTurn(c, total, stores, before, p.reported, t, o);
      more := before + [t];
    }
  }

  lemma {:induction false} StoresInTurn(c: Config, total: nat, stores: seq<Store>, n: nat) returns (turns: seq<Turn>)
    requires n <= |stores|
    ensures InTurn(c, total, stores, turns, AfterStores(c, total, stores, Start(), n).reported)
    ensures AllEarlier(turns, n, 0)
    ensures forall t :: IsTurn(stores, t) && t.i < n ==> t in turns
    ensures AfterStores(c, total, stores, Start(), n).blockNum == Used(stores, n)
  {
    turns := [];
    if n > 0 {
      var before := StoresInTurn(c, total, stores, n - 1);
      var p, s := AfterStores(c, total, stores, Start(), n - 1), stores[n - 1];
      turns := before;
      if s.ready {
        turns := BlocksInTurn(c, total, stores, n - 1, p, before, Yielded(s.items));
      }
      forall t | IsTurn(stores, t) && t.i < n
        ensures t in turns
      {
        Reached(stores[t.i], t.k);
        if t.i < n - 1 {
          assert t in before;
        }
      }
    }
  }

  /** What is reported is one outcome for each block that ran without an error, in the order of the stores and of the
      blocks in them, and each outcome is that of its block. */
  lemma ReportedInTurn(c: Config, stores: seq<Store>) returns (turns: seq<Turn>)
    ensures InTurn(c, BlockTotal(stores, |stores|), stores, turns, Final(c, stores).reported)
    ensures forall t :: IsTurn(stores, t) <==> t in turns
  {
    turns := StoresInTurn(c, BlockTotal(stores, |stores|), stores, |stores|);
    forall t | t in turns
      ensures IsTurn(stores, t)
    {
      var j :| 0 <= j < |turns| && turns[j] == t;
    }
  }

  /** Some block of a canary store, or of another one, ran to the verdict. */
  ghost predicate RanTo(stores: seq<Store>, canary: bool, v: Verdict) {
    exists t :: IsTurn(stores, t) && stores[t.i].isCanary == canary && ResultOf(stores[t.i], t.k).value.verdict == v
  }

  ghost predicate HasOutcome(reported: seq<BlockOutcome>, canary: bool, v: Verdict) {
    exists o :: o in reported && o.isCanary == canary && o.verdict == v
  }

  lemma ReportedRan(c: Config, stores: seq<Store>, canary: bool, v: Verdict)
    ensures RanTo(stores, canary, v) <==> HasOutcome(Final(c, stores).reported, canary, v)
  {
    var turns := ReportedInTurn(c, stores);
    TurnsRan(c, BlockTotal(stores, |stores|), stores, turns, Final(c, stores).reported, canary, v);
  }

  lemma TurnsRan(c: Config, total: nat, stores: seq<Store>, turns: seq<Turn>, reported: seq<BlockOutcome>,
                 canary: bool, v: Verdict)
    requires InTurn(c, total, stores, turns, reported) && forall t :: IsTurn(stores, t) <==> t in turns
    ensures RanTo(stores, canary, v) <==> HasOutcome(reported, canary, v)
  {
    if RanTo(stores, canary, v) {
      var t :| IsTurn(stores, t) && stores[t.i].isCanary == canary && ResultOf(stores[t.i], t.k).value.verdict == v;
      var j :| 0 <= j < |turns| && turns[j] == t;
      assert Tells(c, total, stores, turns[j], reported[j]);
      assert reported[j] in reported;
    }
    if HasOutcome(reported, canary, v) {
      var o :| o in reported && o.isCanary == canary && o.verdict == v;
      var j :| 0 <= j < |reported| && reported[j] == o;
      assert IsTurn(stores, turns[j]) && Tells(c, total, stores, turns[j], reported[j]);
    }
  }

  // ---------- The recorded patterns, told from the stores ----------

  /** The patterns that a block's messages of type `key` add; none when the block came without write sets. */
  ghost function PatternsOfBlock(res: BlockResult, key: Bytes): set<Bytes> {
    if res.txWriteSets == [] then {} else FingerprintsAt(res.msgKeys, res.txWriteSets, key, |res.msgKeys|)
  }

  /** The patterns of the blocks that ran without an error. */
  ghost function PatternsOfStores(stores: seq<Store>, key: Bytes): set<Bytes> {
    set i, k, fp | 0 <= i < |stores| && 0 <= k < |stores[i].items| && Reports(stores[i], k)
                   && fp in PatternsOfBlock(ResultOf(stores[i], k).value, key) :: fp
  }

  ghost predicate AddedBy(s: Store, k: nat, key: Bytes, fp: Bytes) {
    Reports(s, k) && fp in PatternsOfBlock(ResultOf(s, k).value, key)
  }

  lemma {:induction false} PatternsAfterBlocks(c: Config, total: nat, s: Store, p: Progress, n: nat, key: Bytes,
                                               fp: Bytes)
    requires s.ready && n <= Yielded(s.items)
    ensures fp in Lookup(AfterBlocks(c, total, s, p, n).patterns, key) <==>
            fp in Lookup(p.patterns, key) || exists k: nat :: k < n && AddedBy(s, k, key, fp)
  {
    if n > 0 {
      PatternsAfterBlocks(c, total, s, p, n - 1, key, fp);
      PatternsStep(c, total, s, AfterBlocks(c, total, s, p, n - 1), n - 1, key, fp);
    }
  }

  lemma PatternsStep(c: Config, total: nat, s: Store, p: Progress, k: nat, key: Bytes, fp: Bytes)
    requires s.ready && k < Yielded(s.items)
    ensures fp in Lookup(AfterBlock(c, total, s, k + 1, p, s.items[k]).patterns, key) <==>
            fp in Lookup(p.patterns, key) || AddedBy(s, k, key, fp)
  {
    Reached(s, k);
    var res := ResultOf(s, k);
    if res.Some? && res.value.txWriteSets != [] {
      RecordedPatterns(p.patterns, res.value.msgKeys, res.value.txWriteSets, key, |res.value.msgKeys|);
    }
  }

  lemma {:induction false} PatternsAfterStores(c: Config, total: nat, stores: seq<Store>, n: nat, key: Bytes, fp: Bytes)
    requires n <= |stores|
    ensures fp in Lookup(AfterStores(c, total, stores, Start(), n).patterns, key) <==>
            exists i, k: nat :: 0 <= i < n && AddedBy(stores[i], k, key, fp)
  {
    if n > 0 {
      PatternsAfterStores(c, total, stores, n - 1, key, fp);
      var s, p := stores[n - 1], AfterStores(c, total, stores, Start(), n - 1);
      if s.ready {
        PatternsAfterBlocks(c, total, s, p, Yielded(s.items), key, fp);
      }
      forall k: nat
        ensures AddedBy(s, k, key, fp) ==> k < Yielded(s.items)
      {
        Reached(s, k);
      }
    }
  }

  lemma RecordedInRun(c: Config, stores: seq<Store>, key: Bytes)
    ensures Lookup(Final(c, stores).patterns, key) == PatternsOfStores(stores, key)
  {
    forall fp
      ensures fp in Lookup(Final(c, stores).patterns, key) <==> fp in PatternsOfStores(stores, key)
    {
      PatternsAfterStores(c, BlockTotal(stores, |stores|), stores, |stores|, key, fp);
      if fp in PatternsOfStores(stores, key) {
        var i, k :| 0 <= i < |stores| && 0 <= k < |stores[i].items| && Reports(stores[i], k)
                    && fp in PatternsOfBlock(ResultOf(stores[i], k).value, key);
        assert AddedBy(stores[i], k, key, fp);
      }
    }
  }

  /** Over every run the reported indices strictly increase. */
  lemma IndicesIncrease(c: Config, stores: seq<Store>)
    ensures
      var reported := Final(c, stores).reported;
      forall i, j :: 0 <= i < j < |reported| ==> 0 < reported[i].index < reported[j].index
  {
    StoresKeep(c, BlockTotal(stores, |stores|), stores, |stores|);
    var reported := Final(c, stores).reported;
    forall i, j | 0 <= i < j < |reported|
      ensures 0 < reported[i].index < reported[j].index
    {
      assert reported[i] in reported;
    }
  }

  /** No reported block passes the announced total. */
  ghost predicate WithinTotal(c: Config, stores: seq<Store>) {
    forall o :: o in Final(c, stores).reported ==> o.index <= BlockTotal(stores, |stores|)
  }

  /** For each reported block: what earlier stores used up, and the block's place in its own store, together stay
      within what all stores announce. */
  ghost predicate Announced(stores: seq<Store>) {
    forall i, k: nat | 0 <= i < |stores| && Reports(stores[i], k) ::
      Used(stores, i) + k + 1 <= BlockTotal(stores, |stores|)
  }

  /** The reported indices stay within the announced total exactly when the running sums do. */
  lemma WithinTotalExactly(c: Config, stores: seq<Store>)
    ensures WithinTotal(c, stores) <==> Announced(stores)
  {
    var total := BlockTotal(stores, |stores|);
    if Announced(stores) {
      forall o | o in Final(c, stores).reported
        ensures o.index <= total
      {
        IndicesOfStores(c, total, stores, |stores|, o.index);
        assert HasIndex(Final(c, stores).reported, o.index);
        var i, k: nat :| 0 <= i < |stores| && Carries(stores, i, k, o.index);
      }
    }
    if WithinTotal(c, stores) {
      forall i, k: nat | 0 <= i < |stores| && Reports(stores[i], k)
        ensures Used(stores, i) + k + 1 <= total
      {
        var index := Used(stores, i) + k + 1;
        IndicesOfStores(c, total, stores, |stores|, index);
        assert Carries(stores, i, k, index);
        assert HasIndex(Final(c, stores).reported, index);
      }
    }
  }

  /** The store yields at most as many blocks as it announces, as all stores of the repository do. */
  predicate YieldsAnnounced(s: Store) {
    s.ready ==> Yielded(s.items) <= s.blockCount
  }

  lemma {:induction false} UsedWithin(stores: seq<Store>, n: nat)
    requires n <= |stores| && forall i :: 0 <= i < n ==> YieldsAnnounced(stores[i])
    ensures Used(stores, n) <= BlockTotal(stores, n)
  {
    if n > 0 {
      UsedWithin(stores, n - 1);
    }
  }

  lemma {:induction false} TotalGrows(stores: seq<Store>, m: nat, n: nat)
    requires m <= n <= |stores|
    ensures BlockTotal(stores, m) <= BlockTotal(stores, n)
  {
    if m < n {
      TotalGrows(stores, m, n - 1);
    }
  }

  /** When every store yields at most as many blocks as it announces, no reported block passes the total. */
  lemma AnnouncedBlocks(c: Config, stores: seq<Store>)
    requires forall i :: 0 <= i < |stores| ==> YieldsAnnounced(stores[i])
    ensures WithinTotal(c, stores)
  {
    forall i, k: nat | 0 <= i < |stores| && Reports(stores[i], k)
      ensures Used(stores, i) + k + 1 <= BlockTotal(stores, |stores|)
    {
      UsedWithin(stores, i);
      Reached(stores[i], k);
      assert YieldsAnnounced(stores[i]);
      TotalGrows(stores, i + 1, |stores|);
    }
    WithinTotalExactly(c, stores);
  }

  /** Another implementation of the store interface could pass it: a single store that reports a block beyond its
      announced count does.  None of the repository's own stores yields more than it announces. */
  lemma UnannouncedBlock(c: Config, s: Store, k: nat)
    requires Reports(s, k) && k >= s.blockCount
    ensures !WithinTotal(c, [s])
  {
    var stores := [s];
    assert Reports(stores[0], k) && Used(stores, 0) == 0;
    assert BlockTotal(stores, 1) == BlockTotal(stores, 0) + s.blockCount;
    WithinTotalExactly(c, stores);
  }

  lemma {:induction false} KindsAddUp(reported: seq<BlockOutcome>)
    ensures Kind(reported, false, Match) + Kind(reported, false, Divergence)
            + Kind(reported, true, Divergence) + Kind(reported, true, Match) == |reported|
  {
    if reported != [] {
      KindsAddUp(reported[..|reported| - 1]);
    }
  }

  /** The four tallies sum to the number of reported blocks. */
  lemma TalliesAddUp(c: Config, stores: seq<Store>)
    ensures
      var p := Final(c, stores);
      p.tally.ok + p.tally.divergence + p.tally.canaryExpected + p.tally.canaryMissed == |p.reported|
  {
    StoresKeep(c, BlockTotal(stores, |stores|), stores, |stores|);
    KindsAddUp(Final(c, stores).reported);
  }

  lemma {:induction false} KindPositive(reported: seq<BlockOutcome>, canary: bool, v: Verdict)
    ensures Kind(reported, canary, v) > 0 <==> HasOutcome(reported, canary, v)
  {
    if reported != [] {
      var front, last := reported[..|reported| - 1], reported[|reported| - 1];
      KindPositive(front, canary, v);
      assert reported == front + [last];
      assert forall o :: o in reported <==> o in front || o == last;
    }
  }

  /** The exit code is 1 exactly when some block of a canary store ran to Match, or the flag is set and some block of
      another store ran to Divergence; otherwise it is 0. */
  lemma ExitCodeMeans(c: Config, stores: seq<Store>, patterns: seq<Entry>)
    ensures
      var exit := SummaryOf(stores, Final(c, stores), patterns).ExitCode(c.failOnDivergence);
      && exit in {0, 1}
      && (exit == 1 <==> RanTo(stores, true, Match) || (c.failOnDivergence && RanTo(stores, false, Divergence)))
  {
    StoresKeep(c, BlockTotal(stores, |stores|), stores, |stores|);
    KindPositive(Final(c, stores).reported, true, Match);
    KindPositive(Final(c, stores).reported, false, Divergence);
    ReportedRan(c, stores, true, Match);
    ReportedRan(c, stores, false, Divergence);
  }
}
