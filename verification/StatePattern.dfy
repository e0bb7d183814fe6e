/** `StatePatternTracker`: how many different write sets each message type has produced. */
module StatePattern {
  import opened GoTypes
  import opened Ordering
  import opened Text
  import opened Observer

  type Patterns = map<Bytes, set<Bytes>>

  datatype Entry = Entry(key: Bytes, distinctCount: nat)

  function Lookup(m: Patterns, key: Bytes): set<Bytes> {
    if key in m then m[key] else {}
  }

  function AddPattern(m: Patterns, key: Bytes, fingerprint: Bytes): Patterns {
    m[key := Lookup(m, key) + {fingerprint}]
  }

  /** A message without a write set counts as one that wrote nothing. */
  function FingerprintAt(writeSets: seq<seq<Bytes>>, i: nat): Bytes {
    if i < |writeSets| then Join(writeSets[i], NUL) else []
  }

  /** The patterns after the first `n` messages of a block. */
  function Recorded(m: Patterns, msgKeys: seq<Bytes>, writeSets: seq<seq<Bytes>>, n: nat): Patterns
    requires n <= |msgKeys|
  {
    if n == 0 then m
    else AddPattern(Recorded(m, msgKeys, writeSets, n - 1), msgKeys[n - 1], FingerprintAt(writeSets, n - 1))
  }

  predicate EntryLeq(a: Entry, b: Entry) {
    LexLeq(a.key, b.key)
  }

  function EntryOf(m: Patterns, key: Bytes): Entry {
    Entry(key, |Lookup(m, key)|)
  }

  ghost function EntriesOf(m: Patterns, keys: set<Bytes>): set<Entry> {
    set k | k in keys :: EntryOf(m, k)
  }

  /** `StatePatternReport.DistinctCount`: the count of the first entry with the key, or 0. */
  method DistinctCount(r: seq<Entry>, key: Bytes) returns (count: nat)
    ensures count == CountIn(r, key)
    ensures forall i :: 0 <= i < |r| && r[i].key == key && (forall j :: 0 <= j < i ==> r[j].key != key) ==>
                          count == r[i].distinctCount
    ensures (forall i :: 0 <= i < |r| ==> r[i].key != key) ==> count == 0
  {
    for i := 0 to |r|
      invariant CountIn(r, key) == CountIn(r[i..], key)
      invariant forall j :: 0 <= j < i ==> r[j].key != key
    {
      if r[i].key == key {
        return r[i].distinctCount;
      }
      assert r[i..][1..] == r[i + 1..];
    }
    return 0;
  }

  function CountIn(r: seq<Entry>, key: Bytes): nat {
    if r == [] then 0 else if r[0].key == key then r[0].distinctCount else CountIn(r[1..], key)
  }

  class StatePatternTracker {
    var patterns: Patterns

    constructor ()
      ensures patterns == map[]
    {
      patterns := map[];
    }

    method RecordBlock(msgKeys: seq<Bytes>, writeSets: seq<seq<Bytes>>)
      modifies this
      ensures patterns == if writeSets == [] then old(patterns)
                          else Recorded(old(patterns), msgKeys, writeSets, |msgKeys|)
    {
      if |writeSets| == 0 {
        return;
      }
      for i := 0 to |msgKeys|
        invariant patterns == Recorded(old(patterns), msgKeys, writeSets, i)
      {
        var key := msgKeys[i];
        var fp: Bytes := [];
        if i < |writeSets| {
          fp := Join(writeSets[i], NUL);
        }
        if key !in patterns {
          patterns := patterns[key := {}];
        }
        patterns := patterns[key := patterns[key] + {fp}];
        assert patterns == Recorded(old(patterns), msgKeys, writeSets, i + 1);
      }
    }

    /** The entries, one per message type, sorted by its key. */
    method Report() returns (entries: seq<Entry>)
      ensures Sorted(EntryLeq, entries) && Distinct(entries)
      ensures forall i, j :: 0 <= i < j < |entries| ==> Bytewise(entries[i].key, entries[j].key)
      ensures Elements(entries) == EntriesOf(patterns, patterns.Keys)
      ensures forall e :: e in entries <==> e.key in patterns && e.distinctCount == |patterns[e.key]|
      ensures forall key :: CountIn(entries, key) == |Lookup(patterns, key)|
    {
      var gathered: seq<Entry> := [];
      var rest := patterns.Keys;
      while rest != {}
        invariant rest <= patterns.Keys
        invariant Distinct(gathered)
        invariant Elements(gathered) == EntriesOf(patterns, patterns.Keys - rest)
        decreases rest
      {
        var k :| k in rest;
        GatherStep(patterns, gathered, patterns.Keys - rest, k);
        gathered := gathered + [EntryOf(patterns, k)];
        assert patterns.Keys - (rest - {k}) == patterns.Keys - rest + {k};
        rest := rest - {k};
      }
      assert patterns.Keys - {} == patterns.Keys;
      EntryOrder();
      entries := Sort(EntryLeq, gathered);
      DistinctMultiset(gathered);
      ListOfSet(entries, Elements(gathered));
      forall key
        ensures CountIn(entries, key) == |Lookup(patterns, key)|
      {
        CountInReport(patterns, entries, key);
      }
      EntriesInByteOrder(entries);
      EntriesListed(patterns, entries);
    }
  }

  lemma EntriesListed(m: Patterns, entries: seq<Entry>)
    requires Elements(entries) == EntriesOf(m, m.Keys)
    ensures forall e :: e in entries <==> e.key in m && e.distinctCount == |m[e.key]|
  {
    forall e
      ensures e in entries <==> e.key in m && e.distinctCount == |m[e.key]|
    {
      assert e in entries <==> e in Elements(entries);
      if e.key in m && e.distinctCount == |m[e.key]| {
        assert e == EntryOf(m, e.key);
      }
    }
  }

  lemma EntriesInByteOrder(entries: seq<Entry>)
    requires Sorted(EntryLeq, entries)
    ensures forall i, j :: 0 <= i < j < |entries| ==> Bytewise(entries[i].key, entries[j].key)
  {
    forall i, j | 0 <= i < j < |entries|
      ensures Bytewise(entries[i].key, entries[j].key)
    {
      assert EntryLeq(entries[i], entries[j]);
      LexIsBytewise(entries[i].key, entries[j].key);
    }
  }

  lemma EntryOrder()
    ensures TotalPreorder(EntryLeq)
  {
    LexTotalPreorder();
  }

  lemma GatherStep(m: Patterns, gathered: seq<Entry>, done: set<Bytes>, k: Bytes)
    requires Distinct(gathered) && Elements(gathered) == EntriesOf(m, done) && k !in done
    ensures Distinct(gathered + [EntryOf(m, k)])
    ensures Elements(gathered + [EntryOf(m, k)]) == EntriesOf(m, done + {k})
  {
    var e := EntryOf(m, k);
    assert e !in gathered by {
      assert e in gathered <==> e in Elements(gathered);
      assert e.key == k;
    }
    assert EntriesOf(m, done + {k}) == EntriesOf(m, done) + {e} by {
      forall x
        ensures x in EntriesOf(m, done + {k}) <==> x in EntriesOf(m, done) + {e}
      {
        if x in EntriesOf(m, done) {
          assert x.key in done + {k};
        }
        assert k in done + {k};
      }
    }
  }

  /** Looking a key up in any list that holds each key's entry once. */
  lemma {:induction false} CountInList(m: Patterns, r: seq<Entry>, key: Bytes)
    requires forall e :: e in r ==> e == EntryOf(m, e.key)
    ensures CountIn(r, key) == if EntryOf(m, key) in r then |Lookup(m, key)| else 0
  {
    if r != [] {
      assert r[0] in r;
      CountInList(m, r[1..], key);
      assert r == [r[0]] + r[1..];
    }
  }

  lemma CountInReport(m: Patterns, r: seq<Entry>, key: Bytes)
    requires Elements(r) == EntriesOf(m, m.Keys)
    ensures CountIn(r, key) == |Lookup(m, key)|
  {
    forall e | e in r
      ensures e == EntryOf(m, e.key) && e.key in m
    {
      assert e in Elements(r);
    }
    CountInList(m, r, key);
    if key in m {
      assert EntryOf(m, key) in EntriesOf(m, m.Keys);
      assert EntryOf(m, key) in Elements(r);
    } else {
      assert EntryOf(m, key).key == key;
    }
  }

  // ---------- What the fingerprints say about the writes ----------

  /** A written key: the store's name and the raw key. */
  datatype Write = Write(store: Bytes, key: Bytes)

  ghost predicate NulFree(writes: set<Write>) {
    forall w :: w in writes ==> 0x00 !in w.store
  }

  ghost function Composites(writes: set<Write>): set<Bytes> {
    set w | w in writes :: Composite(w.store, w.key)
  }

  /** What `TxWriteSet` reports for a transaction that wrote these keys. */
  ghost function WriteSetOf(writes: set<Write>): seq<Bytes> {
    LexTotalPreorder();
    SortedList(LexLeq, Composites(writes))
  }

  ghost function Fingerprint(writes: set<Write>): Bytes {
    Join(WriteSetOf(writes), NUL)
  }

  lemma CompositeMember(writes: set<Write>, w: Write)
    ensures Composite(w.store, w.key) in Composites(writes) <==> w in writes
  {
    if Composite(w.store, w.key) in Composites(writes) {
      var v :| v in writes && Composite(v.store, v.key) == Composite(w.store, w.key);
      CompositeInjective(v.store, v.key, w.store, w.key);
      assert v == w;
    }
  }

  lemma CompositeNulFree(store: Bytes, key: Bytes)
    requires NUL !in store
    ensures Composite(store, key) != [] && NUL !in Composite(store, key)
  {
    assert NUL !in Hex(key);
  }

  lemma CompositesNulFree(writes: set<Write>)
    requires NulFree(writes)
    ensures forall p :: p in Composites(writes) ==> p != [] && NUL !in p
  {
    forall p | p in Composites(writes)
      ensures p != [] && NUL !in p
    {
      var w :| w in writes && p == Composite(w.store, w.key);
      CompositeNulFree(w.store, w.key);
    }
  }

  lemma WriteSetElements(writes: set<Write>)
    ensures Elements(WriteSetOf(writes)) == Composites(writes)
  {
    LexTotalPreorder();
    SortedListElements(LexLeq, Composites(writes));
  }

  lemma WriteSetJoinable(writes: set<Write>)
    requires NulFree(writes)
    ensures Joinable(WriteSetOf(writes), NUL)
  {
    WriteSetElements(writes);
    CompositesNulFree(writes);
    forall p | p in WriteSetOf(writes)
      ensures p != [] && NUL !in p
    {
      assert p in Elements(WriteSetOf(writes));
    }
  }

  /** Different sets of written keys have different fingerprints. */
  lemma FingerprintInjective(a: set<Write>, b: set<Write>)
    requires NulFree(a) && NulFree(b)
    requires Fingerprint(a) == Fingerprint(b)
    ensures a == b
  {
    WriteSetJoinable(a);
    WriteSetJoinable(b);
    WriteSetElements(a);
    WriteSetElements(b);
    JoinInjective(WriteSetOf(a), WriteSetOf(b), NUL);
    assert Composites(a) == Composites(b);
    forall w
      ensures w in a <==> w in b
    {
      CompositeMember(a, w);
      CompositeMember(b, w);
    }
  }

  lemma JoinTwo(p: Bytes, q: Bytes, sep: byte)
    ensures Join([p, q], sep) == p + [sep] + q && Join([q], sep) == q
  {
    assert [p, q][1..] == [q];
    assert q + [] == q;
    assert p + ([sep] + q) == p + [sep] + q;
  }

  lemma FingerprintOfTwo(writes: set<Write>, p: Bytes, q: Bytes)
    requires Composites(writes) == {p, q} && LexLeq(p, q)
    ensures Fingerprint(writes) == if p == q then p else p + [NUL] + q
  {
    LexTotalPreorder();
    SortedListOfTwo(LexLeq, p, q);
    JoinTwo(p, q, NUL);
  }

  /** A NUL in a store's name can break this: two writes look like one.  It need not: as the only store name
      written, `a\0b` still gives a fingerprint of its own. */
  lemma NulNamesCollide(u: Write, v: Write)
    requires LexLeq(Composite(u.store, u.key), Composite(v.store, v.key))
    requires u.store != v.store
    ensures
      var w := Write(Composite(u.store, u.key) + [NUL] + v.store, v.key);
      {u, v} != {w} && Fingerprint({u, v}) == Fingerprint({w})
  {
    var p, q := Composite(u.store, u.key), Composite(v.store, v.key);
    var w := Write(p + [NUL] + v.store, v.key);
    var r := Composite(w.store, w.key);
    assert r == p + [NUL] + q;
    assert p != q by { if p == q { CompositeInjective(u.store, u.key, v.store, v.key); } }
    assert Composites({u, v}) == {p, q} && Composites({w}) == {r, r};
    LexTotalPreorder();
    FingerprintOfTwo({u, v}, p, q);
    FingerprintOfTwo({w}, r, r);
    assert |w.store| > |v.store|;
    assert v in {u, v} && v !in {w};
  }

  /** The (store, key) pairs that a transaction wrote and that no later start of it dropped. */
  ghost function OwnWrites(es: seq<Event>, tx: nat): set<Write> {
    set i | 0 <= i < |es| && Kept(es, i, tx) :: Write(es[i].store, es[i].key)
  }

  /** The observer's write set of a transaction is the canonical list of the pairs it wrote. */
  lemma ObservedWriteSet(es: seq<Event>, tx: nat)
    ensures OwnKeys(es, tx) == Composites(OwnWrites(es, tx))
  {
    forall k
      ensures k in OwnKeys(es, tx) <==> k in Composites(OwnWrites(es, tx))
    {
      if k in OwnKeys(es, tx) {
        var i :| 0 <= i < |es| && Kept(es, i, tx) && k == Composite(es[i].store, es[i].key);
        assert Write(es[i].store, es[i].key) in OwnWrites(es, tx);
      }
      if k in Composites(OwnWrites(es, tx)) {
        var w :| w in OwnWrites(es, tx) && k == Composite(w.store, w.key);
        var i :| 0 <= i < |es| && Kept(es, i, tx) && w == Write(es[i].store, es[i].key);
        assert k == Composite(es[i].store, es[i].key);
      }
    }
  }

  // ---------- Counting over a whole run ----------

  /** A recorded block: the type of each message and the keys that each transaction wrote. */
  datatype Block = Block(msgKeys: seq<Bytes>, writes: seq<set<Write>>)

  ghost function WritesAt(b: Block, i: nat): set<Write> {
    if i < |b.writes| then b.writes[i] else {}
  }

  ghost function WriteSets(b: Block): (r: seq<seq<Bytes>>)
    ensures |r| == |b.writes|
  {
    seq(|b.writes|, i requires 0 <= i < |b.writes| => WriteSetOf(b.writes[i]))
  }

  lemma FingerprintOfWrites(b: Block, i: nat)
    ensures FingerprintAt(WriteSets(b), i) == Fingerprint(WritesAt(b, i))
  {
    if i >= |b.writes| {
      LexTotalPreorder();
      assert Composites({}) == {};
    }
  }

  /** The sets of keys that the messages of type `key` have written, among the first `n` of the block. */
  ghost function SeenIn(b: Block, key: Bytes, n: nat): set<set<Write>>
    requires n <= |b.msgKeys|
  {
    set i: nat | i < n && b.msgKeys[i] == key :: WritesAt(b, i)
  }

  /** The same over all blocks that came with write sets. */
  ghost function Seen(blocks: seq<Block>, key: Bytes): set<set<Write>> {
    if blocks == [] then {}
    else
      var b := blocks[|blocks| - 1];
      Seen(blocks[..|blocks| - 1], key) + if b.writes == [] then {} else SeenIn(b, key, |b.msgKeys|)
  }

  /** The tracker's patterns after recording the blocks. */
  ghost function RecordAll(blocks: seq<Block>): Patterns {
    if blocks == [] then map[]
    else
      var b := blocks[|blocks| - 1];
      var before := RecordAll(blocks[..|blocks| - 1]);
      if b.writes == [] then before else Recorded(before, b.msgKeys, WriteSets(b), |b.msgKeys|)
  }

  ghost function Fingerprints(seen: set<set<Write>>): set<Bytes> {
    set s | s in seen :: Fingerprint(s)
  }

  lemma FingerprintsUnion(a: set<set<Write>>, b: set<set<Write>>)
    ensures Fingerprints(a + b) == Fingerprints(a) + Fingerprints(b)
  {
    assert forall s :: s in a + b <==> s in a || s in b;
  }

  /** The fingerprints that the messages of type `key` add, among the first `n` of a block. */
  ghost function FingerprintsAt(msgKeys: seq<Bytes>, writeSets: seq<seq<Bytes>>, key: Bytes, n: nat): set<Bytes>
    requires n <= |msgKeys|
  {
    set i: nat | i < n && msgKeys[i] == key :: FingerprintAt(writeSets, i)
  }

  lemma {:induction false} RecordedPatterns(m: Patterns, msgKeys: seq<Bytes>, writeSets: seq<seq<Bytes>>, key: Bytes,
                                            n: nat)
    requires n <= |msgKeys|
    ensures Lookup(Recorded(m, msgKeys, writeSets, n), key) ==
            Lookup(m, key) + FingerprintsAt(msgKeys, writeSets, key, n)
  {
    if n > 0 {
      RecordedPatterns(m, msgKeys, writeSets, key, n - 1);
      var added := if msgKeys[n - 1] == key then {FingerprintAt(writeSets, n - 1)} else {};
      assert FingerprintsAt(msgKeys, writeSets, key, n) == FingerprintsAt(msgKeys, writeSets, key, n - 1) + added;
    }
  }

  lemma FingerprintsOfBlock(b: Block, key: Bytes, n: nat)
    requires n <= |b.msgKeys|
    ensures FingerprintsAt(b.msgKeys, WriteSets(b), key, n) == Fingerprints(SeenIn(b, key, n))
  {
    var left, right := FingerprintsAt(b.msgKeys, WriteSets(b), key, n), Fingerprints(SeenIn(b, key, n));
    forall x
      ensures x in left <==> x in right
    {
      if x in left {
        var i: nat :| i < n && b.msgKeys[i] == key && x == FingerprintAt(WriteSets(b), i);
        FingerprintOfWrites(b, i);
        assert WritesAt(b, i) in SeenIn(b, key, n);
      }
      if x in right {
        var s :| s in SeenIn(b, key, n) && x == Fingerprint(s);
        var i: nat :| i < n && b.msgKeys[i] == key && s == WritesAt(b, i);
        FingerprintOfWrites(b, i);
        assert x == FingerprintAt(WriteSets(b), i);
      }
    }
  }

  lemma {:induction false} PatternsAreFingerprints(blocks: seq<Block>, key: Bytes)
    ensures Lookup(RecordAll(blocks), key) == Fingerprints(Seen(blocks, key))
  {
    if blocks != [] {
      var front, b := blocks[..|blocks| - 1], blocks[|blocks| - 1];
      PatternsAreFingerprints(front, key);
      if b.writes != [] {
        RecordedPatterns(RecordAll(front), b.msgKeys, WriteSets(b), key, |b.msgKeys|);
        FingerprintsOfBlock(b, key, |b.msgKeys|);
        FingerprintsUnion(Seen(front, key), SeenIn(b, key, |b.msgKeys|));
      }
    }
  }

  ghost predicate AllNulFree(seen: set<set<Write>>) {
    forall s :: s in seen ==> NulFree(s)
  }

  lemma FingerprintsSize(seen: set<set<Write>>)
    requires AllNulFree(seen)
    ensures |Fingerprints(seen)| == |seen|
  {
    forall s, t | s in seen && t in seen && Fingerprint(s) == Fingerprint(t)
      ensures s == t
    {
      FingerprintInjective(s, t);
    }
    ImageSize(s => Fingerprint(s), seen, Fingerprints(seen));
  }

  /** The distinct count of a message type is the number of different sets of (store, key) pairs that its
      messages have written. */
  lemma DistinctCountTheorem(blocks: seq<Block>, key: Bytes)
    requires AllNulFree(Seen(blocks, key))
    ensures |Lookup(RecordAll(blocks), key)| == |Seen(blocks, key)|
  {
    PatternsAreFingerprints(blocks, key);
    FingerprintsSize(Seen(blocks, key));
  }
}
