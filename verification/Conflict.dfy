/** `ConflictSink` and `AggregateHotKeys`: validation conflicts, grouped by the key they are about. */
module Conflict {
  import opened GoTypes
  import opened Ordering
  import opened Text
  import opened Interleaving

  datatype ConflictRecord = ConflictRecord(store: Bytes, txIndex: int, key: Bytes, reason: Bytes)

  datatype ExecutionStats = ExecutionStats(blockSize: int, executedTxns: int, validatedTxns: int)

  /** The key is in hexadecimal. */
  datatype HotKeyStat = HotKeyStat(store: Bytes, key: Bytes, conflicts: nat, txs: seq<int>)

  class ConflictSink {
    var records: seq<ConflictRecord>
    var stats: Option<ExecutionStats>

    constructor ()
      ensures records == [] && stats == None
    {
      records, stats := [], None;
    }

    method RecordConflict(r: ConflictRecord)
      modifies this
      ensures records == old(records) + [r] && stats == old(stats)
    {
      records := records + [r];
    }

    method RecordStats(st: ExecutionStats)
      modifies this
      ensures stats == Some(st) && records == old(records)
    {
      stats := Some(st);
    }

    method Drain() returns (drained: seq<ConflictRecord>, st: Option<ExecutionStats>)
      modifies this
      ensures drained == old(records) && st == old(stats)
      ensures records == [] && stats == None
    {
      drained, st := records, stats;
      records, stats := [], None;
    }
  }

  // ---------- What the report says ----------

  datatype Group = Group(store: Bytes, key: Bytes)

  function GroupOf(r: ConflictRecord): Group {
    Group(r.store, Hex(r.key))
  }

  ghost function Groups(records: seq<ConflictRecord>): set<Group> {
    set r | r in records :: GroupOf(r)
  }

  ghost function Count(records: seq<ConflictRecord>, g: Group): nat {
    if records == [] then 0
    else Count(records[..|records| - 1], g) + if GroupOf(records[|records| - 1]) == g then 1 else 0
  }

  ghost function Txs(records: seq<ConflictRecord>, g: Group): set<int> {
    set r | r in records && GroupOf(r) == g :: r.txIndex
  }

  ghost function StatOf(records: seq<ConflictRecord>, g: Group): HotKeyStat {
    assert TotalPreorder(IntLeq) && TellsApart(IntLeq);
    HotKeyStat(g.store, g.key, Count(records, g), SortedList(IntLeq, Txs(records, g)))
  }

  ghost function StatsOf(records: seq<ConflictRecord>, gs: set<Group>): set<HotKeyStat> {
    set g | g in gs :: StatOf(records, g)
  }

  /** More conflicts first, then by store, then by key. */
  predicate HotKeyLeq(a: HotKeyStat, b: HotKeyStat) {
    if a.conflicts != b.conflicts then a.conflicts > b.conflicts
    else if a.store != b.store then LexLeq(a.store, b.store)
    else LexLeq(a.key, b.key)
  }

  /** One entry per group, in order. */
  ghost predicate IsReport(records: seq<ConflictRecord>, out: seq<HotKeyStat>) {
    && Sorted(HotKeyLeq, out)
    && Distinct(out)
    && Elements(out) == StatsOf(records, Groups(records))
  }

  lemma HotKeyOrder()
    ensures TotalPreorder(HotKeyLeq)
    ensures forall a, b :: HotKeyLeq(a, b) && HotKeyLeq(b, a) ==> a.store == b.store && a.key == b.key
  {
    LexTotalPreorder();
  }

  datatype Agg = Agg(conflicts: nat, txs: set<int>)

  ghost predicate AggregatedAt(groups: map<Group, Agg>, records: seq<ConflictRecord>, g: Group) {
    && (g in groups <==> g in Groups(records))
    && (g in groups ==> groups[g] == Agg(Count(records, g), Txs(records, g)))
  }

  ghost predicate Aggregated(groups: map<Group, Agg>, records: seq<ConflictRecord>) {
    forall g :: AggregatedAt(groups, records, g)
  }

  lemma RecordStep(records: seq<ConflictRecord>, r: ConflictRecord, g: Group)
    ensures Count(records + [r], g) == Count(records, g) + if GroupOf(r) == g then 1 else 0
    ensures Txs(records + [r], g) == Txs(records, g) + if GroupOf(r) == g then {r.txIndex} else {}
  {
    assert (records + [r])[..|records|] == records;
    assert forall x :: x in records + [r] <==> x in records || x == r;
  }

  lemma GroupsStep(records: seq<ConflictRecord>, r: ConflictRecord)
    ensures Groups(records + [r]) == Groups(records) + {GroupOf(r)}
  {
    assert forall x :: x in records + [r] <==> x in records || x == r;
  }

  /** The groups with one more record. */
  function WithRecord(groups: map<Group, Agg>, r: ConflictRecord): map<Group, Agg> {
    var k := GroupOf(r);
    var before := if k in groups then groups[k] else Agg(0, {});
    groups[k := Agg(before.conflicts + 1, before.txs + {r.txIndex})]
  }

  lemma AggregateAt(groups: map<Group, Agg>, records: seq<ConflictRecord>, r: ConflictRecord, g: Group)
    requires AggregatedAt(groups, records, g)
    ensures AggregatedAt(WithRecord(groups, r), records + [r], g)
  {
    CountNone(records, g);
    GroupsStep(records, r);
    RecordStep(records, r, g);
  }

  lemma AggregateStep(groups: map<Group, Agg>, records: seq<ConflictRecord>, r: ConflictRecord)
    requires Aggregated(groups, records)
    ensures Aggregated(WithRecord(groups, r), records + [r])
  {
    forall g
      ensures AggregatedAt(WithRecord(groups, r), records + [r], g)
    {
      AggregateAt(groups, records, r, g);
    }
  }

  lemma {:induction false} CountNone(records: seq<ConflictRecord>, g: Group)
    ensures Count(records, g) == 0 <==> g !in Groups(records)
    ensures g !in Groups(records) ==> Txs(records, g) == {}
  {
    if records != [] {
      var front, r := records[..|records| - 1], records[|records| - 1];
      CountNone(front, g);
      assert records == front + [r];
      assert Groups(records) == Groups(front) + {GroupOf(r)};
    }
  }

  lemma GatherStep(records: seq<ConflictRecord>, out: seq<HotKeyStat>, done: set<Group>, g: Group)
    requires Distinct(out) && Elements(out) == StatsOf(records, done) && g !in done
    ensures Distinct(out + [StatOf(records, g)])
    ensures Elements(out + [StatOf(records, g)]) == StatsOf(records, done + {g})
  {
    var e := StatOf(records, g);
    assert e !in out by {
      assert e in out <==> e in Elements(out);
      assert Group(e.store, e.key) == g;
    }
    forall x
      ensures x in StatsOf(records, done + {g}) <==> x in StatsOf(records, done) + {e}
    {
      if x in StatsOf(records, done) {
        var h :| h in done && x == StatOf(records, h);
        assert h in done + {g};
      }
      assert g in done + {g};
    }
  }

  method AggregateHotKeys(records: seq<ConflictRecord>) returns (out: seq<HotKeyStat>)
    ensures IsReport(records, out)
  {
    if |records| == 0 {
      return [];
    }
    var groups: map<Group, Agg> := map[];
    for i := 0 to |records|
      invariant Aggregated(groups, records[..i])
    {
      var r := records[i];
      var k := GroupOf(r);
      ghost var grown := WithRecord(groups, r);
      AggregateStep(groups, records[..i], r);
      assert records[..i + 1] == records[..i] + [r];
      if k !in groups {
        groups := groups[k := Agg(0, {})];
      }
      groups := groups[k := Agg(groups[k].conflicts + 1, groups[k].txs + {r.txIndex})];
      assert groups == grown;
    }
    assert records[..|records|] == records;
    assert groups.Keys == Groups(records) by {
      forall g
        ensures g in groups.Keys <==> g in Groups(records)
      {
        assert AggregatedAt(groups, records, g);
      }
    }
    out := Gather(groups, records);
    HotKeyOrder();
    ghost var gathered := out;
    out := Sort(HotKeyLeq, out);
    DistinctMultiset(gathered);
    ListOfSet(out, Elements(gathered));
  }

  /** The loop over the groups. */
  method Gather(groups: map<Group, Agg>, ghost records: seq<ConflictRecord>) returns (out: seq<HotKeyStat>)
    requires Aggregated(groups, records) && groups.Keys == Groups(records)
    ensures Distinct(out) && Elements(out) == StatsOf(records, Groups(records))
  {
    out := [];
    var rest := groups.Keys;
    while rest != {}
      invariant rest <= groups.Keys
      invariant Distinct(out) && Elements(out) == StatsOf(records, groups.Keys - rest)
      decreases rest
    {
      var k :| k in rest;
      var g := groups[k];
      assert AggregatedAt(groups, records, k);
      var txs := SortedKeys(IntLeq, g.txs);
      GatherStep(records, out, groups.Keys - rest, k);
      out := out + [HotKeyStat(k.store, k.key, g.conflicts, txs)];
      assert groups.Keys - (rest - {k}) == groups.Keys - rest + {k};
      rest := rest - {k};
    }
    assert groups.Keys - {} == groups.Keys;
  }

  // ---------- The report does not depend on the order of the records ----------

  lemma {:induction false} CountConcat(a: seq<ConflictRecord>, b: seq<ConflictRecord>, g: Group)
    ensures Count(a + b, g) == Count(a, g) + Count(b, g)
  {
    if b == [] {
      assert a + b == a;
    } else {
      assert (a + b)[..|a + b| - 1] == a + b[..|b| - 1];
      CountConcat(a, b[..|b| - 1], g);
    }
  }

  lemma {:induction false} CountPermutation(a: seq<ConflictRecord>, b: seq<ConflictRecord>, g: Group)
    requires multiset(a) == multiset(b)
    ensures Count(a, g) == Count(b, g)
  {
    if a == [] {
      assert |multiset(b)| == 0;
    } else {
      var front, x := a[..|a| - 1], a[|a| - 1];
      assert a == front + [x];
      assert x in multiset(b);
      var k :| 0 <= k < |b| && b[k] == x;
      var l, r := b[..k], b[k + 1..];
      assert b == l + [x] + r;
      DropFromBoth(front, l, r, x);
      CountPermutation(front, l + r, g);
      CountConcat(front, [x], g);
      CountConcat(l, r, g);
      CountConcat(l + [x], r, g);
      CountConcat(l, [x], g);
    }
  }

  lemma StatPermutation(a: seq<ConflictRecord>, b: seq<ConflictRecord>, g: Group)
    requires multiset(a) == multiset(b)
    ensures StatOf(a, g) == StatOf(b, g)
  {
    CountPermutation(a, b, g);
    assert forall x :: x in a <==> x in multiset(a);
    assert forall x :: x in b <==> x in multiset(b);
    assert Txs(a, g) == Txs(b, g);
  }

  lemma GroupsPermutation(a: seq<ConflictRecord>, b: seq<ConflictRecord>)
    requires multiset(a) == multiset(b)
    ensures Groups(a) == Groups(b)
    ensures StatsOf(a, Groups(a)) == StatsOf(b, Groups(b))
  {
    assert forall x :: x in a <==> x in multiset(a);
    assert forall x :: x in b <==> x in multiset(b);
    assert Groups(a) == Groups(b);
    forall g
      ensures StatOf(a, g) == StatOf(b, g)
    {
      StatPermutation(a, b, g);
    }
  }

  /** Permuted records give one and the same report. */
  lemma ReportPermutation(a: seq<ConflictRecord>, b: seq<ConflictRecord>, x: seq<HotKeyStat>, y: seq<HotKeyStat>)
    requires multiset(a) == multiset(b)
    requires IsReport(a, x) && IsReport(b, y)
    ensures x == y
  {
    GroupsPermutation(a, b);
    DistinctMultiset(x);
    DistinctMultiset(y);
    HotKeyOrder();
    forall u, v | u in x && v in x && HotKeyLeq(u, v) && HotKeyLeq(v, u)
      ensures u == v
    {
      ReportEntry(a, x, u);
      ReportEntry(a, x, v);
    }
    SortedUnique(HotKeyLeq, x, y);
  }

  /** An entry of a report is that of its own group. */
  lemma ReportEntry(records: seq<ConflictRecord>, out: seq<HotKeyStat>, e: HotKeyStat)
    requires IsReport(records, out) && e in out
    ensures e == StatOf(records, Group(e.store, e.key)) && Group(e.store, e.key) in Groups(records)
  {
    assert e in Elements(out);
    var g :| g in Groups(records) && e == StatOf(records, g);
    assert g == Group(e.store, e.key);
  }

  /** However the executor goroutines interleave their calls of `RecordConflict`, the report is the same. */
  lemma InterleavingIndependent(a: seq<ConflictRecord>, b: seq<ConflictRecord>, parts: seq<seq<ConflictRecord>>,
                                x: seq<HotKeyStat>, y: seq<HotKeyStat>)
    requires Interleaves(a, parts) && Interleaves(b, parts)
    requires IsReport(a, x) && IsReport(b, y)
    ensures x == y
  {
    InterleavingMultiset(a, parts);
    InterleavingMultiset(b, parts);
    ReportPermutation(a, b, x, y);
  }

  // ---------- What the numbers mean ----------

  /** The report lists more conflicts first; among equals the stores are in bytewise order, and within a store the
      keys are. */
  lemma ReportOrder(records: seq<ConflictRecord>, out: seq<HotKeyStat>, i: nat, j: nat)
    requires IsReport(records, out) && i < j < |out|
    ensures out[i].conflicts >= out[j].conflicts
    ensures out[i].conflicts == out[j].conflicts ==> Bytewise(out[i].store, out[j].store)
    ensures out[i].conflicts == out[j].conflicts && out[i].store == out[j].store ==> Bytewise(out[i].key, out[j].key)
  {
    assert HotKeyLeq(out[i], out[j]);
    LexIsBytewise(out[i].store, out[j].store);
    LexIsBytewise(out[i].key, out[j].key);
  }

  /** The records about one raw key of one store. */
  ghost function RecordsAbout(records: seq<ConflictRecord>, store: Bytes, key: Bytes): set<nat> {
    set i: nat | i < |records| && records[i].store == store && records[i].key == key
  }

  lemma {:induction false} CountRecords(records: seq<ConflictRecord>, store: Bytes, key: Bytes)
    ensures Count(records, Group(store, Hex(key))) == |RecordsAbout(records, store, key)|
  {
    if records == [] {
      assert RecordsAbout(records, store, key) == {};
    } else {
      var n := |records| - 1;
      var front, r := records[..n], records[n];
      CountRecords(front, store, key);
      if GroupOf(r) == Group(store, Hex(key)) {
        GroupsAreRawKeys(r, ConflictRecord(store, 0, key, []));
        assert RecordsAbout(records, store, key) == RecordsAbout(front, store, key) + {n};
      } else {
        assert RecordsAbout(records, store, key) == RecordsAbout(front, store, key);
      }
    }
  }

  /** Each record has an entry under its store and its key in hexadecimal, which counts the records about that key;
      each entry is that of a record. */
  lemma EntryOfRecord(records: seq<ConflictRecord>, out: seq<HotKeyStat>)
    requires IsReport(records, out)
    ensures forall r :: r in records ==> exists e :: e in out && EntryAbout(records, e, r)
    ensures forall e :: e in out ==> exists r :: r in records && EntryAbout(records, e, r)
  {
    forall r | r in records
      ensures exists e :: e in out && EntryAbout(records, e, r)
    {
      var e := StatOf(records, GroupOf(r));
      assert e in Elements(out);
      CountRecords(records, r.store, r.key);
      assert EntryAbout(records, e, r);
    }
    forall e | e in out
      ensures exists r :: r in records && EntryAbout(records, e, r)
    {
      ReportEntry(records, out, e);
      var r :| r in records && GroupOf(r) == Group(e.store, e.key);
      CountRecords(records, r.store, r.key);
      assert EntryAbout(records, e, r);
    }
  }

  /** The entry is about the key of the record, and counts the records about it. */
  ghost predicate EntryAbout(records: seq<ConflictRecord>, e: HotKeyStat, r: ConflictRecord) {
    && e.store == r.store && e.key == Hex(r.key)
    && e.conflicts == |RecordsAbout(records, r.store, r.key)|
  }

  /** Records fall into one group exactly when they are about the same raw key of the same store. */
  lemma GroupsAreRawKeys(a: ConflictRecord, b: ConflictRecord)
    ensures GroupOf(a) == GroupOf(b) <==> a.store == b.store && a.key == b.key
  {
    if GroupOf(a) == GroupOf(b) {
      HexInjective(a.key, b.key);
    }
  }

  /** Each entry's transactions are strictly increasing, are those of its records, and are at most as many. */
  lemma EntryTxs(records: seq<ConflictRecord>, out: seq<HotKeyStat>, e: HotKeyStat)
    requires IsReport(records, out) && e in out
    ensures forall i, j :: 0 <= i < j < |e.txs| ==> e.txs[i] < e.txs[j]
    ensures forall tx :: tx in e.txs <==>
      exists r :: r in records && GroupOf(r) == Group(e.store, e.key) && r.txIndex == tx
    ensures 0 < |e.txs| <= e.conflicts
  {
    ReportEntry(records, out, e);
    var g := Group(e.store, e.key);
    SortedListElements(IntLeq, Txs(records, g));
    forall i, j | 0 <= i < j < |e.txs|
      ensures e.txs[i] < e.txs[j]
    {
      assert IntLeq(e.txs[i], e.txs[j]);
    }
    forall tx
      ensures tx in e.txs <==> tx in Txs(records, g)
    {
      assert tx in e.txs <==> tx in Elements(e.txs);
    }
    TxsAtMostCount(records, g);
    var r :| r in records && GroupOf(r) == g;
    assert r.txIndex in e.txs;
  }

  lemma {:induction false} TxsAtMostCount(records: seq<ConflictRecord>, g: Group)
    ensures |Txs(records, g)| <= Count(records, g)
  {
    if records == [] {
      assert Txs(records, g) == {};
    } else {
      var front, r := records[..|records| - 1], records[|records| - 1];
      TxsAtMostCount(front, g);
      assert records == front + [r];
      assert Txs(records, g) == Txs(front, g) + if GroupOf(r) == g then {r.txIndex} else {};
    }
  }

  function TotalConflicts(out: seq<HotKeyStat>): nat {
    if out == [] then 0 else out[0].conflicts + TotalConflicts(out[1..])
  }

  /** How many records fall into one of the groups that the entries are about. */
  ghost function Covered(records: seq<ConflictRecord>, out: seq<HotKeyStat>): nat {
    if out == [] then 0 else Count(records, Group(out[0].store, out[0].key)) + Covered(records, out[1..])
  }

  ghost predicate OnePerGroup(out: seq<HotKeyStat>) {
    forall i, j :: 0 <= i < j < |out| ==> Group(out[i].store, out[i].key) != Group(out[j].store, out[j].key)
  }

  ghost predicate Mentions(out: seq<HotKeyStat>, g: Group) {
    exists e :: e in out && Group(e.store, e.key) == g
  }

  lemma {:induction false} CoveredAppend(front: seq<ConflictRecord>, r: ConflictRecord, out: seq<HotKeyStat>)
    requires OnePerGroup(out)
    ensures Covered(front + [r], out) == Covered(front, out) + if Mentions(out, GroupOf(r)) then 1 else 0
  {
    if out != [] {
      CoveredAppend(front, r, out[1..]);
      assert (front + [r])[..|front|] == front;
      assert out == [out[0]] + out[1..];
      if Group(out[0].store, out[0].key) == GroupOf(r) {
        assert out[0] in out;
        assert !Mentions(out[1..], GroupOf(r));
      } else {
        assert Mentions(out, GroupOf(r)) <==> Mentions(out[1..], GroupOf(r));
      }
    }
  }

  lemma {:induction false} CoversAll(records: seq<ConflictRecord>, out: seq<HotKeyStat>)
    requires OnePerGroup(out) && forall r :: r in records ==> Mentions(out, GroupOf(r))
    ensures Covered(records, out) == |records|
  {
    if records == [] {
      CoveredEmpty(out);
    } else {
      var front, r := records[..|records| - 1], records[|records| - 1];
      assert records == front + [r];
      CoversAll(front, out);
      CoveredAppend(front, r, out);
    }
  }

  lemma {:induction false} CoveredEmpty(out: seq<HotKeyStat>)
    ensures Covered([], out) == 0
  {
    if out != [] {
      CoveredEmpty(out[1..]);
    }
  }

  lemma {:induction false} TotalIsCovered(records: seq<ConflictRecord>, out: seq<HotKeyStat>)
    requires forall e :: e in out ==> e.conflicts == Count(records, Group(e.store, e.key))
    ensures TotalConflicts(out) == Covered(records, out)
  {
    if out != [] {
      assert out[0] in out;
      TotalIsCovered(records, out[1..]);
    }
  }

  /** Every record is counted in exactly one entry. */
  lemma ConflictsAddUp(records: seq<ConflictRecord>, out: seq<HotKeyStat>)
    requires IsReport(records, out)
    ensures TotalConflicts(out) == |records|
  {
    forall e | e in out
      ensures e == StatOf(records, Group(e.store, e.key))
    {
      ReportEntry(records, out, e);
    }
    forall i, j | 0 <= i < j < |out|
      ensures Group(out[i].store, out[i].key) != Group(out[j].store, out[j].key)
    {
      assert out[i] in out && out[j] in out;
    }
    forall r | r in records
      ensures Mentions(out, GroupOf(r))
    {
      assert StatOf(records, GroupOf(r)) in Elements(out);
    }
    TotalIsCovered(records, out);
    CoversAll(records, out);
  }
}
