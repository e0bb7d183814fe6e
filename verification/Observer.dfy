/** `BlockObserver`: write keys and out-of-store mutations, recorded from callbacks in any order. */
module Observer {
  import opened GoTypes
  import opened Ordering
  import opened Text
  import opened Interleaving

  datatype MutationRecord = MutationRecord(tracker: Bytes, before: Bytes, after: Bytes)

  /** `storeKey + "/" + hex(key)`. */
  function Composite(store: Bytes, key: Bytes): Bytes {
    store + [SLASH] + Hex(key)
  }

  /** One record for each tracker whose snapshots differ, in tracker order. */
  function Diff(names: seq<Bytes>, before: seq<Bytes>, after: seq<Bytes>): seq<MutationRecord>
    requires |names| == |before| == |after|
  {
    if names == [] then []
    else
      var last := |names| - 1;
      Diff(names[..last], before[..last], after[..last])
      + if before[last] != after[last] then [MutationRecord(names[last], before[last], after[last])] else []
  }

  /** A stateful object outside the store; its snapshot is its state. */
  class Tracker {
    const name: Bytes
    var state: Bytes

    constructor (name: Bytes, state: Bytes)
      ensures this.name == name && this.state == state
    {
      this.name := name;
      this.state := state;
    }

    method SnapshotOutOfKVStoreState() returns (s: Bytes)
      ensures s == state
    {
      s := state;
    }
  }

  /** A component that is told the current transaction. */
  class TxIndexSetter {
    var currentTx: int

    method SetCurrentTx(txIndex: int)
      modifies this
      ensures currentTx == txIndex
    {
      currentTx := txIndex;
    }
  }

  /** The fields of the observer. */
  datatype State = State(
    writeSets: seq<set<Bytes>>,
    snapshots: seq<seq<Bytes>>,
    blockSnapshots: seq<Bytes>,
    mutSets: seq<seq<MutationRecord>>)
  {
    /** One slot for each transaction, one snapshot for each tracker. */
    ghost predicate Fits(trackerCount: nat) {
      && |writeSets| == |snapshots| == |mutSets|
      && |blockSnapshots| == trackerCount
      && forall i :: 0 <= i < |snapshots| ==> |snapshots[i]| == trackerCount
    }

    function OnTxStart(tx: nat, now: seq<Bytes>): State
      requires |writeSets| == |snapshots|
    {
      if tx < |writeSets| then this.(writeSets := writeSets[tx := {}], snapshots := snapshots[tx := now]) else this
    }

    function OnKVWrite(store: Bytes, key: Bytes, tx: nat): State {
      if tx < |writeSets| then this.(writeSets := writeSets[tx := writeSets[tx] + {Composite(store, key)}]) else this
    }

    function OnTxEnd(tx: nat, names: seq<Bytes>, now: seq<Bytes>): State
      requires |snapshots| == |mutSets| && |names| == |now|
      requires tx < |snapshots| ==> |snapshots[tx]| == |names|
    {
      if tx < |snapshots| then this.(mutSets := mutSets[tx := mutSets[tx] + Diff(names, snapshots[tx], now)])
      else this
    }

    function CaptureBeforeBlock(now: seq<Bytes>): State {
      this.(blockSnapshots := now)
    }

    function CaptureAfterBlock(names: seq<Bytes>, now: seq<Bytes>): State
      requires |names| == |now| == |blockSnapshots|
    {
      if mutSets == [] then this
      else this.(mutSets := mutSets[0 := mutSets[0] + Diff(names, blockSnapshots, now)])
    }
  }

  class BlockObserver {
    var writeSets: seq<set<Bytes>>
    const trackers: seq<Tracker>
    var snapshots: seq<seq<Bytes>>
    var blockSnapshots: seq<Bytes>
    var mutSets: seq<seq<MutationRecord>>
    var txSetters: seq<TxIndexSetter>

    ghost function View(): State
      reads this
    {
      State(writeSets, snapshots, blockSnapshots, mutSets)
    }

    ghost predicate Valid()
      reads this
    {
      View().Fits(|trackers|)
    }

    ghost function Names(): (r: seq<Bytes>)
      ensures |r| == |trackers|
    {
      seq(|trackers|, i requires 0 <= i < |trackers| => trackers[i].name)
    }

    /** What the trackers' snapshots are now. */
    ghost function Now(): (r: seq<Bytes>)
      reads trackers
      ensures |r| == |trackers|
    {
      seq(|trackers|, i requires 0 <= i < |trackers| reads trackers => trackers[i].state)
    }

    /** `setters` are those of the trackers that also want to know the current transaction. */
    constructor (txCount: nat, trackers: seq<Tracker>, setters: seq<TxIndexSetter>)
      ensures Valid() && this.trackers == trackers && txSetters == setters
      ensures View() == Fresh(txCount, |trackers|)
    {
      writeSets := seq(txCount, _ => {});
      snapshots := seq(txCount, _ => seq(|trackers|, _ => []));
      blockSnapshots := seq(|trackers|, _ => []);
      mutSets := seq(txCount, _ => []);
      this.trackers := trackers;
      txSetters := setters;
    }

    method AddTxSetter(s: TxIndexSetter)
      modifies this`txSetters
      ensures txSetters == old(txSetters) + [s]
    {
      txSetters := txSetters + [s];
    }

    method OnTxStart(txIndex: nat)
      requires Valid()
      modifies this`writeSets, this`snapshots, txSetters
      ensures Valid() && View() == old(View()).OnTxStart(txIndex, Now())
      ensures forall s :: s in txSetters ==> s.currentTx == txIndex
    {
      if txIndex < |writeSets| {
        writeSets := writeSets[txIndex := {}];
      }
      for i := 0 to |txSetters|
        modifies txSetters
        invariant forall j :: 0 <= j < i ==> txSetters[j].currentTx == txIndex
      {
        txSetters[i].SetCurrentTx(txIndex);
      }
      if txIndex < |snapshots| {
        var taken := snapshots;
        for i := 0 to |trackers|
          modifies this`snapshots
          invariant |snapshots| == |taken| && |snapshots[txIndex]| == |trackers|
          invariant snapshots[txIndex][..i] == Now()[..i]
          invariant snapshots == taken[txIndex := snapshots[txIndex]]
        {
          var s := trackers[i].SnapshotOutOfKVStoreState();
          snapshots := snapshots[txIndex := snapshots[txIndex][i := s]];
        }
        assert snapshots[txIndex][..|trackers|] == snapshots[txIndex] && Now()[..|trackers|] == Now();
      }
    }

    method OnKVWrite(storeKey: Bytes, key: Bytes, txIndex: nat)
      requires Valid()
      modifies this`writeSets
      ensures Valid() && View() == old(View()).OnKVWrite(storeKey, key, txIndex)
      ensures writeSets ==
              if txIndex < |old(writeSets)| then
                old(writeSets)[txIndex := old(writeSets)[txIndex] + {storeKey + [0x2F] + Hex(key)}]
              else old(writeSets)
    {
      if txIndex < |writeSets| {
        var composite := Composite(storeKey, key);
        writeSets := writeSets[txIndex := writeSets[txIndex] + {composite}];
      }
    }

    method OnTxEnd(txIndex: nat)
      requires Valid()
      modifies this`mutSets
      ensures Valid() && View() == old(View()).OnTxEnd(txIndex, Names(), Now())
    {
      if txIndex >= |snapshots| {
        return;
      }
      if |trackers| == 0 {
        assert mutSets[txIndex] + [] == mutSets[txIndex];
        return;
      }
      var found := CollectDiff(snapshots[txIndex]);
      mutSets := mutSets[txIndex := mutSets[txIndex] + found];
    }

    /** The loop that compares the trackers with earlier snapshots, shared by `OnTxEnd` and
        `CaptureAfterBlock`. */
    method CollectDiff(before: seq<Bytes>) returns (found: seq<MutationRecord>)
      requires |before| == |trackers|
      ensures found == Diff(Names(), before, Now())
    {
      found := [];
      ghost var names, now := Names(), Now();
      for i := 0 to |trackers|
        invariant found == Diff(names[..i], before[..i], now[..i])
      {
        DiffStep(names, before, now, i);
        var after := trackers[i].SnapshotOutOfKVStoreState();
        if before[i] != after {
          found := found + [MutationRecord(trackers[i].name, before[i], after)];
        }
      }
      var n := |trackers|;
      assert names[..n] == names && before[..n] == before && now[..n] == now;
    }

    /** The sorted composite write keys of a transaction. */
    method TxWriteSet(txIndex: nat) returns (keys: seq<Bytes>)
      requires Valid()
      ensures TotalPreorder(LexLeq) && TellsApart(LexLeq)
      ensures keys == SortedList(LexLeq, if txIndex < |writeSets| then writeSets[txIndex] else {})
      ensures InByteOrder(keys) && Distinct(keys)
      ensures Elements(keys) == if txIndex < |writeSets| then writeSets[txIndex] else {}
    {
      LexTotalPreorder();
      if txIndex >= |writeSets| {
        return [];
      }
      var m := writeSets[txIndex];
      if |m| == 0 {
        return [];
      }
      keys := SortedKeys(LexLeq, m);
      SortedListElements(LexLeq, m);
      SortedInByteOrder(keys);
    }

    method AddBlockMutation(m: MutationRecord)
      requires Valid()
      modifies this`mutSets
      ensures Valid()
      ensures mutSets == if old(mutSets) == [] then [] else old(mutSets)[0 := old(mutSets)[0] + [m]]
    {
      if |mutSets| > 0 {
        mutSets := mutSets[0 := mutSets[0] + [m]];
      }
    }

    method CaptureBeforeBlock()
      requires Valid()
      modifies this`blockSnapshots
      ensures Valid() && View() == old(View()).CaptureBeforeBlock(Now())
    {
      if |trackers| == 0 || |blockSnapshots| == 0 {
        assert Now() == blockSnapshots;
        return;
      }
      for i := 0 to |trackers|
        invariant |blockSnapshots| == |trackers| && blockSnapshots[..i] == Now()[..i]
      {
        var s := trackers[i].SnapshotOutOfKVStoreState();
        blockSnapshots := blockSnapshots[i := s];
      }
      assert blockSnapshots == Now();
    }

    method CaptureAfterBlock()
      requires Valid()
      modifies this`mutSets
      ensures Valid() && View() == old(View()).CaptureAfterBlock(Names(), Now())
    {
      if |mutSets| == 0 {
        return;
      }
      if |trackers| == 0 || |blockSnapshots| == 0 {
        assert mutSets[0] + [] == mutSets[0];
        return;
      }
      var found := CollectDiff(blockSnapshots);
      mutSets := mutSets[0 := mutSets[0] + found];
    }
  }

  lemma DiffStep(names: seq<Bytes>, before: seq<Bytes>, after: seq<Bytes>, i: nat)
    requires |names| == |before| == |after| && i < |names|
    ensures Diff(names[..i + 1], before[..i + 1], after[..i + 1]) ==
            Diff(names[..i], before[..i], after[..i])
            + if before[i] != after[i] then [MutationRecord(names[i], before[i], after[i])] else []
  {
    assert names[..i + 1][..i] == names[..i] && before[..i + 1][..i] == before[..i];
    assert after[..i + 1][..i] == after[..i];
  }

  /** The state of a new observer. */
  function Fresh(txCount: nat, trackerCount: nat): State {
    State(seq(txCount, _ => {}), seq(txCount, _ => seq(trackerCount, _ => [])), seq(trackerCount, _ => []),
          seq(txCount, _ => []))
  }

  // ---------- Runs ----------

  /** A callback, or a change of the trackers' states by the execution that the callbacks report on. */
  datatype Event =
    | TxStart(tx: nat)
    | TxEnd(tx: nat)
    | KVWrite(store: Bytes, key: Bytes, tx: nat)
    | Execution(now: seq<Bytes>)

  function Owner(e: Event): int {
    if e.Execution? then -1 else e.tx
  }

  /** The observer and the trackers' current states. */
  datatype World = World(observer: State, now: seq<Bytes>)

  ghost predicate Sound(w: World, names: seq<Bytes>) {
    w.observer.Fits(|names|) && |w.now| == |names|
  }

  ghost predicate Admissible(es: seq<Event>, names: seq<Bytes>) {
    forall i :: 0 <= i < |es| && es[i].Execution? ==> |es[i].now| == |names|
  }

  ghost function Apply(w: World, e: Event, names: seq<Bytes>): World
    requires Sound(w, names)
  {
    match e
    case TxStart(tx) => w.(observer := w.observer.OnTxStart(tx, w.now))
    case TxEnd(tx) => w.(observer := w.observer.OnTxEnd(tx, names, w.now))
    case KVWrite(store, key, tx) => w.(observer := w.observer.OnKVWrite(store, key, tx))
    case Execution(now) => w.(now := now)
  }

  ghost function Run(w: World, es: seq<Event>, names: seq<Bytes>): (r: World)
    requires Sound(w, names) && Admissible(es, names)
    ensures Sound(r, names)
    ensures |r.observer.writeSets| == |w.observer.writeSets|
  {
    if es == [] then w
    else
      var last := |es| - 1;
      assert es[last].Execution? ==> |es[last].now| == |names|;
      Apply(Run(w, es[..last], names), es[last], names)
  }

  // ---------- Block-level capture ----------

  lemma {:induction false} BaselineSurvives(w: World, es: seq<Event>, names: seq<Bytes>)
    requires Sound(w, names) && Admissible(es, names)
    ensures Run(w, es, names).observer.blockSnapshots == w.observer.blockSnapshots
  {
    if es != [] {
      BaselineSurvives(w, es[..|es| - 1], names);
    }
  }

  /** Whatever callbacks and tracker changes come between the two captures, the second one appends to slot
      0 the difference between the trackers' states at the two captures, and changes nothing else. */
  lemma CaptureTheorem(w: World, es: seq<Event>, names: seq<Bytes>)
    requires Sound(w, names) && Admissible(es, names)
    ensures
      var start := w.(observer := w.observer.CaptureBeforeBlock(w.now));
      var end := Run(start, es, names);
      var done := end.observer.CaptureAfterBlock(names, end.now);
      && done.writeSets == end.observer.writeSets && done.snapshots == end.observer.snapshots
      && |done.mutSets| == |end.observer.mutSets|
      && (forall i :: 0 < i < |done.mutSets| ==> done.mutSets[i] == end.observer.mutSets[i])
      && (done.mutSets != [] ==> done.mutSets[0] == end.observer.mutSets[0] + Diff(names, w.now, end.now))
  {
    var start := w.(observer := w.observer.CaptureBeforeBlock(w.now));
    BaselineSurvives(start, es, names);
  }

  /** The trackers among the first `n` whose state differs. */
  ghost function Changed(before: seq<Bytes>, after: seq<Bytes>, n: nat): set<nat>
    requires n <= |before| == |after|
  {
    set j: nat | j < n && before[j] != after[j]
  }

  lemma ChangedStep(before: seq<Bytes>, after: seq<Bytes>, n: nat)
    requires n < |before| == |after|
    ensures |Changed(before, after, n + 1)| == |Changed(before, after, n)| + if before[n] != after[n] then 1 else 0
  {
    var one := if before[n] != after[n] then {n} else {};
    assert Changed(before, after, n + 1) == Changed(before, after, n) + one;
  }

  lemma {:induction false} DiffLength(names: seq<Bytes>, before: seq<Bytes>, after: seq<Bytes>, n: nat)
    requires |names| == |before| == |after| && n <= |names|
    ensures |Diff(names[..n], before[..n], after[..n])| == |Changed(before, after, n)|
  {
    if n > 0 {
      DiffLength(names, before, after, n - 1);
      DiffStep(names, before, after, n - 1);
      ChangedStep(before, after, n - 1);
    }
  }

  lemma {:induction false} DiffRecord(names: seq<Bytes>, before: seq<Bytes>, after: seq<Bytes>, n: nat, i: nat)
    requires |names| == |before| == |after| && i < n <= |names| && before[i] != after[i]
    ensures |Changed(before, after, i)| < |Diff(names[..n], before[..n], after[..n])|
    ensures Diff(names[..n], before[..n], after[..n])[|Changed(before, after, i)|]
            == MutationRecord(names[i], before[i], after[i])
  {
    DiffStep(names, before, after, n - 1);
    if i < n - 1 {
      DiffRecord(names, before, after, n - 1, i);
    } else {
      DiffLength(names, before, after, i);
    }
  }

  /** The difference holds one record per tracker whose state differs and nothing else, and the record of
      tracker `i` stands after the records of the trackers before it. */
  lemma DiffExact(names: seq<Bytes>, before: seq<Bytes>, after: seq<Bytes>)
    requires |names| == |before| == |after|
    ensures |Diff(names, before, after)| == |Changed(before, after, |names|)|
    ensures forall i :: 0 <= i < |names| && before[i] != after[i] ==>
                          && |Changed(before, after, i)| < |Diff(names, before, after)|
                          && Diff(names, before, after)[|Changed(before, after, i)|]
                             == MutationRecord(names[i], before[i], after[i])
  {
    var n := |names|;
    assert names[..n] == names && before[..n] == before && after[..n] == after;
    DiffLength(names, before, after, n);
    forall i | 0 <= i < n && before[i] != after[i]
      ensures |Changed(before, after, i)| < |Diff(names, before, after)|
      ensures Diff(names, before, after)[|Changed(before, after, i)|]
              == MutationRecord(names[i], before[i], after[i])
    {
      DiffRecord(names, before, after, n, i);
    }
  }

  // ---------- Capture by transaction ----------

  ghost predicate Restarts(es: seq<Event>, tx: nat) {
    exists i :: 0 <= i < |es| && es[i] == TxStart(tx)
  }

  lemma {:induction false} SnapshotSurvives(w: World, es: seq<Event>, names: seq<Bytes>, tx: nat)
    requires Sound(w, names) && Admissible(es, names) && !Restarts(es, tx) && tx < |w.observer.snapshots|
    ensures |Run(w, es, names).observer.snapshots| == |w.observer.snapshots|
    ensures Run(w, es, names).observer.snapshots[tx] == w.observer.snapshots[tx]
  {
    if es != [] {
      var front, last := es[..|es| - 1], es[|es| - 1];
      assert forall i :: 0 <= i < |front| ==> front[i] == es[i];
      assert es[|es| - 1] == last;
      SnapshotSurvives(w, front, names, tx);
    }
  }

  /** Between the start and the end of a transaction that is not started again, whatever else is called: the
      end appends the difference between the trackers' states at the two calls, and changes no other slot. */
  lemma TxMutationTheorem(w: World, es: seq<Event>, names: seq<Bytes>, tx: nat)
    requires Sound(w, names) && Admissible(es, names) && !Restarts(es, tx) && tx < |w.observer.snapshots|
    ensures
      var end := Run(Apply(w, TxStart(tx), names), es, names);
      var done := Apply(end, TxEnd(tx), names);
      && |done.observer.mutSets| == |end.observer.mutSets| && tx < |done.observer.mutSets|
      && done.observer.mutSets[tx] == end.observer.mutSets[tx] + Diff(names, w.now, end.now)
      && forall i :: 0 <= i < |done.observer.mutSets| && i != tx ==>
                       done.observer.mutSets[i] == end.observer.mutSets[i]
  {
    SnapshotSurvives(Apply(w, TxStart(tx), names), es, names, tx);
  }

  ghost predicate NoExecution(es: seq<Event>) {
    forall i :: 0 <= i < |es| ==> !es[i].Execution?
  }

  lemma {:induction false} StatesStay(w: World, es: seq<Event>, names: seq<Bytes>)
    requires Sound(w, names) && Admissible(es, names) && NoExecution(es)
    ensures Run(w, es, names).now == w.now
  {
    if es != [] {
      StatesStay(w, es[..|es| - 1], names);
    }
  }

  lemma {:induction false} NoDiff(names: seq<Bytes>, states: seq<Bytes>)
    requires |names| == |states|
    ensures Diff(names, states, states) == []
  {
    if names != [] {
      NoDiff(names[..|names| - 1], states[..|names| - 1]);
    }
  }

  /** Starts that are reported after all execution is over hide every mutation from the ends: this is why the
      block-level baseline has a field of its own. */
  lemma LateStartHidesMutations(w: World, es: seq<Event>, names: seq<Bytes>, tx: nat)
    requires Sound(w, names) && Admissible(es, names) && !Restarts(es, tx) && tx < |w.observer.snapshots|
    requires NoExecution(es)
    ensures
      var end := Run(Apply(w, TxStart(tx), names), es, names);
      Apply(end, TxEnd(tx), names).observer.mutSets == end.observer.mutSets
  {
    var start := Apply(w, TxStart(tx), names);
    SnapshotSurvives(start, es, names, tx);
    StatesStay(start, es, names);
    NoDiff(names, w.now);
    var end := Run(start, es, names);
    assert end.observer.mutSets[tx] + [] == end.observer.mutSets[tx];
  }

  // ---------- Write sets ----------

  /** The keys that transaction `tx` wrote and that no later start of `tx` dropped. */
  ghost function OwnKeys(es: seq<Event>, tx: nat): set<Bytes> {
    set i | 0 <= i < |es| && Kept(es, i, tx) :: Composite(es[i].store, es[i].key)
  }

  ghost predicate Kept(es: seq<Event>, i: nat, tx: nat)
    requires i < |es|
  {
    es[i].KVWrite? && es[i].tx == tx && forall j :: i < j < |es| ==> es[j] != TxStart(tx)
  }

  lemma OwnKeysStep(es: seq<Event>, e: Event, tx: nat)
    ensures OwnKeys(es + [e], tx) ==
            if e == TxStart(tx) then {}
            else if e.KVWrite? && e.tx == tx then OwnKeys(es, tx) + {Composite(e.store, e.key)}
            else OwnKeys(es, tx)
  {
    var all := es + [e];
    if e == TxStart(tx) {
      assert all[|es|] == TxStart(tx);
      assert forall i :: 0 <= i < |all| ==> !Kept(all, i, tx);
    } else {
      forall i | 0 <= i < |es|
        ensures Kept(all, i, tx) == Kept(es, i, tx)
      {
        assert forall j :: i < j < |es| ==> all[j] == es[j];
      }
      assert Kept(all, |es|, tx) == (e.KVWrite? && e.tx == tx);
      forall k
        ensures k in OwnKeys(all, tx) <==>
                k in OwnKeys(es, tx) || (e.KVWrite? && e.tx == tx && k == Composite(e.store, e.key))
      {
        if k in OwnKeys(es, tx) {
          var i :| 0 <= i < |es| && Kept(es, i, tx) && k == Composite(es[i].store, es[i].key);
          assert Kept(all, i, tx) && all[i] == es[i];
        }
        if e.KVWrite? && e.tx == tx && k == Composite(e.store, e.key) {
          assert Kept(all, |es|, tx) && all[|es|] == e;
        }
        if k in OwnKeys(all, tx) {
          var i :| 0 <= i < |all| && Kept(all, i, tx) && k == Composite(all[i].store, all[i].key);
          if i < |es| {
            assert Kept(es, i, tx) && es[i] == all[i];
          }
        }
      }
    }
  }

  /** The write set of a transaction after any run from a new observer. */
  lemma {:induction false} WriteSetAfterRun(w: World, es: seq<Event>, names: seq<Bytes>, tx: nat)
    requires Sound(w, names) && Admissible(es, names)
    requires tx < |w.observer.writeSets| && w.observer.writeSets[tx] == {}
    ensures Run(w, es, names).observer.writeSets[tx] == OwnKeys(es, tx)
  {
    if es != [] {
      var last := |es| - 1;
      WriteSetAfterRun(w, es[..last], names, tx);
      assert es == es[..last] + [es[last]];
      OwnKeysStep(es[..last], es[last], tx);
    }
  }

  /** Only the transaction's own events matter, in their own order. */
  lemma {:induction false} OwnKeysProject(es: seq<Event>, tx: nat)
    ensures OwnKeys(Project(es, Owner, tx), tx) == OwnKeys(es, tx)
  {
    if es == [] {
    } else {
      var last := |es| - 1;
      var front, e := es[..last], es[last];
      assert es == front + [e];
      OwnKeysProject(front, tx);
      ProjectAppend(front, e, Owner, tx);
      OwnKeysStep(front, e, tx);
      OwnKeysStep(Project(front, Owner, tx), e, tx);
      assert Project(front, Owner, tx) + [] == Project(front, Owner, tx);
    }
  }

  /** However the scheduler interleaves the goroutines, and whatever else they do: when one of them makes all calls
      for transaction `tx`, the write set of `tx` is that of this goroutine's own calls. */
  lemma InterleavingIndependent(es: seq<Event>, parts: seq<seq<Event>>, i: nat, txCount: nat, tx: nat,
                                names: seq<Bytes>, now: seq<Bytes>)
    requires Interleaves(es, parts) && i < |parts| && OnlyIn(parts, Owner, tx, i) && tx < txCount
    requires Admissible(es, names) && |now| == |names|
    ensures
      var w := World(Fresh(txCount, |names|), now);
      Sound(w, names) && Run(w, es, names).observer.writeSets[tx] == OwnKeys(parts[i], tx)
  {
    WriteSetAfterRun(World(Fresh(txCount, |names|), now), es, names, tx);
    ProjectInterleaving(es, parts, Owner, tx, i);
    OwnKeysProject(es, tx);
    OwnKeysProject(parts[i], tx);
  }

  // ---------- Composite keys ----------

  /** The slash before the hexadecimal part is the last one, so store and key can be read back. */
  lemma CompositeInjective(store: Bytes, key: Bytes, store': Bytes, key': Bytes)
    requires Composite(store, key) == Composite(store', key')
    ensures store == store' && key == key'
  {
    var c := Composite(store, key);
    var n, n' := |store|, |store'|;
    assert c[n] == SLASH && c[n'] == SLASH;
    NoSlashAfter(store, key);
    NoSlashAfter(store', key');
    assert n == n';
    assert store == c[..n] && store' == c[..n];
    assert Hex(key) == c[n + 1..] && Hex(key') == c[n + 1..];
    HexInjective(key, key');
  }

  lemma NoSlashAfter(store: Bytes, key: Bytes)
    ensures forall k :: |store| < k < |Composite(store, key)| ==> Composite(store, key)[k] != SLASH
  {
    forall k | |store| < k < |Composite(store, key)|
      ensures Composite(store, key)[k] != SLASH
    {
      assert Composite(store, key)[k] == Hex(key)[k - |store| - 1];
      assert Composite(store, key)[k] in Hex(key);
    }
  }
}
