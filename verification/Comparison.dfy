/** `compare.Run`: the findings that an oracle's and a probe's responses to one block give. */
module Comparison {
  import opened GoTypes
  import opened Text
  import Observer
  import BlockContext

  datatype Dimension =
    | DimAppHash
    | DimErrorCode
    | DimGas
    | DimEvents
    | DimWriteSet
    | DimOutOfKVStore
    | DimBlockContext
    | DimNonDeterministic

  datatype Finding =
    Finding(height: int, dimension: Dimension, txIndex: int, probeIndex: int, oracle: Bytes, probe: Bytes)

  datatype Verdict = Match | Divergence

  datatype Attribute = Attribute(key: Bytes, value: Bytes)

  datatype Event = Event(kind: Bytes, attributes: seq<Attribute>)

  datatype TxResult = TxResult(code: nat, gasUsed: int, events: seq<Event>)

  datatype Response = Response(appHash: Bytes, txResults: seq<TxResult>)

  datatype NonDetCall = NonDetCall(category: Bytes, callSite: Bytes, txIndex: int)

  /** What a write-set provider answers, by transaction. */
  type WriteSets = seq<seq<Bytes>>

  function TxWriteSet(ws: WriteSets, i: nat): seq<Bytes> {
    if i < |ws| then ws[i] else []
  }

  function TxMutations(ms: seq<seq<Observer.MutationRecord>>, i: nat): seq<Observer.MutationRecord> {
    if i < |ms| then ms[i] else []
  }

  function Min(a: int, b: int): int {
    if a < b then a else b
  }

  function Max(a: int, b: int): int {
    if a < b then b else a
  }

  // ---------- Formatting ----------

  function AttributeTexts(attributes: seq<Attribute>): seq<Bytes> {
    seq(|attributes|, i requires 0 <= i < |attributes| => attributes[i].key + Ascii("=") + attributes[i].value)
  }

  function EventTexts(events: seq<Event>): seq<Bytes> {
    seq(|events|, i requires 0 <= i < |events| =>
      events[i].kind + Ascii(":[") + Join(AttributeTexts(events[i].attributes), COMMA) + Ascii("]"))
  }

  function FormatEvents(events: seq<Event>): Bytes {
    if events == [] then Ascii("(none)") else Join(EventTexts(events), SEMICOLON)
  }

  /** The ellipsis is one character of three bytes in UTF-8. */
  const ELLIPSIS: Bytes := [0xE2, 0x80, 0xA6]

  function FormatWriteSet(keys: seq<Bytes>): Bytes {
    if keys == [] then Ascii("(empty)")
    else if |keys| <= 5 then Join(keys, COMMA)
    else Join(keys[..5], COMMA) + [COMMA] + ELLIPSIS + Ascii("(") + FormatInt(|keys|) + Ascii(" total)")
  }

  function JoinInts(xs: seq<int>): Bytes {
    Join(seq(|xs|, i requires 0 <= i < |xs| => FormatInt(xs[i])), COMMA)
  }

  method EqualStrSlice(a: seq<Bytes>, b: seq<Bytes>) returns (equal: bool)
    ensures equal <==> a == b
  {
    if |a| != |b| {
      return false;
    }
    for i := 0 to |a|
      invariant a[..i] == b[..i]
    {
      if a[i] != b[i] {
        return false;
      }
    }
    assert a == a[..|a|] && b == b[..|b|];
    return true;
  }

  // ---------- Comparing two responses ----------

  /** Two responses to one block, with what the write-set observers saw. */
  datatype Pair = Pair(height: int, probeIndex: int, left: Response, right: Response,
                       leftWS: Option<WriteSets>, rightWS: Option<WriteSets>)

  function NewFinding(p: Pair, d: Dimension, txIndex: int, left: Bytes, right: Bytes): Finding {
    Finding(p.height, d, txIndex, p.probeIndex, left, right)
  }

  /** How many transactions both responses have a result for. */
  function Common(p: Pair): nat {
    Min(|p.left.txResults|, |p.right.txResults|)
  }

  /** The two sides disagree about transaction `i`. */
  predicate Differs(p: Pair, d: Dimension, i: nat)
    requires i < Common(p)
  {
    var l, r := p.left.txResults[i], p.right.txResults[i];
    match d
    case DimErrorCode => l.code != r.code
    case DimGas => l.gasUsed != r.gasUsed
    case DimEvents => FormatEvents(l.events) != FormatEvents(r.events)
    case DimWriteSet =>
      p.leftWS.Some? && p.rightWS.Some? && TxWriteSet(p.leftWS.value, i) != TxWriteSet(p.rightWS.value, i)
    case _ => false
  }

  function Shown(d: Dimension, r: TxResult, ws: Option<WriteSets>, i: nat): Bytes {
    match d
    case DimErrorCode => FormatInt(r.code)
    case DimGas => FormatInt(r.gasUsed)
    case DimEvents => FormatEvents(r.events)
    case _ => if ws.Some? then FormatWriteSet(TxWriteSet(ws.value, i)) else []
  }

  function FindingAt(p: Pair, d: Dimension, i: nat): Finding
    requires i < Common(p)
  {
    NewFinding(p, d, i, Shown(d, p.left.txResults[i], p.leftWS, i), Shown(d, p.right.txResults[i], p.rightWS, i))
  }

  /** What is found about transaction `i`. */
  function Found(p: Pair, d: Dimension, i: nat): seq<Finding>
    requires i < Common(p)
  {
    if Differs(p, d, i) then [FindingAt(p, d, i)] else []
  }

  /** One finding for each of the first `n` transactions that the two sides disagree about. */
  ghost function PerTx(p: Pair, d: Dimension, n: nat): seq<Finding>
    requires n <= Common(p)
  {
    if n == 0 then []
    else PerTx(p, d, n - 1) + Found(p, d, n - 1)
  }

  /** The turn of a loop for transaction `i`: the findings grow by what is found about it. */
  lemma Turn(before: seq<Finding>, p: Pair, d: Dimension, i: nat)
    requires i < Common(p)
    ensures before + PerTx(p, d, i + 1) == before + PerTx(p, d, i) + Found(p, d, i)
  {
  }

  lemma NothingAdded(found: seq<Finding>)
    ensures found + [] == found
  {
  }

  function HashFindings(p: Pair): seq<Finding> {
    if p.left.appHash != p.right.appHash then
      [NewFinding(p, DimAppHash, -1, Hex(p.left.appHash), Hex(p.right.appHash))]
    else []
  }

  method CompareHashes(p: Pair) returns (findings: seq<Finding>)
    ensures findings == HashFindings(p)
  {
    findings := [];
    if p.left.appHash != p.right.appHash {
      findings := findings + [NewFinding(p, DimAppHash, -1, Hex(p.left.appHash), Hex(p.right.appHash))];
    }
  }

  method CompareCodes(p: Pair, n: nat, before: seq<Finding>) returns (findings: seq<Finding>)
    requires n <= Common(p)
    ensures findings == before + PerTx(p, DimErrorCode, n)
  {
    findings := before;
    for i := 0 to n
      invariant findings == before + PerTx(p, DimErrorCode, i)
    {
      Turn(before, p, DimErrorCode, i);
      NothingAdded(findings);
      var l, r := p.left.txResults[i], p.right.txResults[i];
      if l.code != r.code {
        findings := findings + [NewFinding(p, DimErrorCode, i, FormatInt(l.code), FormatInt(r.code))];
      }
    }
  }

  method CompareGas(p: Pair, n: nat, before: seq<Finding>) returns (findings: seq<Finding>)
    requires n <= Common(p)
    ensures findings == before + PerTx(p, DimGas, n)
  {
    findings := before;
    for i := 0 to n
      invariant findings == before + PerTx(p, DimGas, i)
    {
      Turn(before, p, DimGas, i);
      NothingAdded(findings);
      var l, r := p.left.txResults[i], p.right.txResults[i];
      if l.gasUsed != r.gasUsed {
        findings := findings + [NewFinding(p, DimGas, i, FormatInt(l.gasUsed), FormatInt(r.gasUsed))];
      }
    }
  }

  method CompareEvents(p: Pair, n: nat, before: seq<Finding>) returns (findings: seq<Finding>)
    requires n <= Common(p)
    ensures findings == before + PerTx(p, DimEvents, n)
  {
    findings := before;
    for i := 0 to n
      invariant findings == before + PerTx(p, DimEvents, i)
    {
      Turn(before, p, DimEvents, i);
      NothingAdded(findings);
      var l, r := FormatEvents(p.left.txResults[i].events), FormatEvents(p.right.txResults[i].events);
      if l != r {
        findings := findings + [NewFinding(p, DimEvents, i, l, r)];
      }
    }
  }

  method CompareWriteSets(p: Pair, n: nat, before: seq<Finding>) returns (findings: seq<Finding>)
    requires n <= Common(p)
    ensures findings == before + PerTx(p, DimWriteSet, n)
  {
    findings := before;
    if p.leftWS.Some? && p.rightWS.Some? {
      for i := 0 to n
        invariant findings == before + PerTx(p, DimWriteSet, i)
      {
        Turn(before, p, DimWriteSet, i);
        NothingAdded(findings);
        var l, r := TxWriteSet(p.leftWS.value, i), TxWriteSet(p.rightWS.value, i);
        var equal := EqualStrSlice(l, r);
        if !equal {
          findings := findings + [NewFinding(p, DimWriteSet, i, FormatWriteSet(l), FormatWriteSet(r))];
        }
      }
    } else {
      NothingDiffers(p, DimWriteSet, n);
    }
  }

  /** The two sides agree about each of the first `n` transactions. */
  ghost predicate NoneDiffers(p: Pair, d: Dimension, n: nat)
    requires n <= Common(p)
  {
    forall i: nat :: i < n ==> !Differs(p, d, i)
  }

  lemma PerTxStep(p: Pair, d: Dimension, n: nat, before: seq<Finding>, found: seq<Finding>)
    requires n < Common(p) && before == PerTx(p, d, n) && found == Found(p, d, n)
    ensures PerTx(p, d, n + 1) == before + found
  {
  }

  lemma Nothing(a: seq<Finding>, b: seq<Finding>)
    ensures a + b == [] <==> a == [] && b == []
  {
    assert |a + b| == |a| + |b|;
  }

  lemma {:induction false} NothingFoundAt(p: Pair, d: Dimension, n: nat, i: nat)
    requires i < n <= Common(p) && PerTx(p, d, n) == []
    ensures Found(p, d, i) == []
  {
    var before, found := PerTx(p, d, n - 1), Found(p, d, n - 1);
    PerTxStep(p, d, n - 1, before, found);
    Nothing(before, found);
    if i < n - 1 {
      NothingFoundAt(p, d, n - 1, i);
    }
  }

  lemma {:induction false} NothingFound(p: Pair, d: Dimension, n: nat)
    requires n <= Common(p)
    requires forall i: nat :: i < n ==> Found(p, d, i) == []
    ensures PerTx(p, d, n) == []
  {
    if n > 0 {
      var before, found := PerTx(p, d, n - 1), Found(p, d, n - 1);
      NothingFound(p, d, n - 1);
      PerTxStep(p, d, n - 1, before, found);
      Nothing(before, found);
    }
  }

  lemma NothingDiffers(p: Pair, d: Dimension, n: nat)
    requires n <= Common(p)
    ensures PerTx(p, d, n) == [] <==> NoneDiffers(p, d, n)
  {
    if PerTx(p, d, n) == [] {
      forall i: nat | i < n
        ensures !Differs(p, d, i)
      {
        NothingFoundAt(p, d, n, i);
      }
    }
    if NoneDiffers(p, d, n) {
      NothingFound(p, d, n);
    }
  }

  // ---------- What the other providers add ----------

  function OfMutation(p: Pair, i: int, m: Observer.MutationRecord): Finding {
    NewFinding(p, DimOutOfKVStore, i, m.tracker + [COLON] + Hex(m.before), m.tracker + [COLON] + Hex(m.after))
  }

  function OfMutations(p: Pair, i: int, ms: seq<Observer.MutationRecord>): seq<Finding> {
    seq(|ms|, k requires 0 <= k < |ms| => OfMutation(p, i, ms[k]))
  }

  ghost function MutationFindings(p: Pair, ms: seq<seq<Observer.MutationRecord>>, n: nat): seq<Finding> {
    if n == 0 then [] else MutationFindings(p, ms, n - 1) + OfMutations(p, n - 1, TxMutations(ms, n - 1))
  }

  function OfContext(p: Pair, m: BlockContext.Mutation): Finding {
    NewFinding(p, DimBlockContext, m.writerTx,
               Ascii("field=") + m.field + Ascii(";before=") + m.before + Ascii(";readers=") + JoinInts(m.readerTxs),
               Ascii("field=") + m.field + Ascii(";after=") + m.after + Ascii(";writer=tx") + FormatInt(m.writerTx))
  }

  function ContextFindings(p: Pair, ms: seq<BlockContext.Mutation>): seq<Finding> {
    seq(|ms|, k requires 0 <= k < |ms| => OfContext(p, ms[k]))
  }

  function OfCall(p: Pair, c: NonDetCall): Finding {
    var text := Ascii("category=") + c.category + Ascii(";call=") + c.callSite;
    NewFinding(p, DimNonDeterministic, c.txIndex, text, text)
  }

  function CallFindings(p: Pair, cs: seq<NonDetCall>): seq<Finding> {
    seq(|cs|, k requires 0 <= k < |cs| => OfCall(p, cs[k]))
  }

  function IfPresent<T>(o: Option<seq<T>>): seq<T> {
    if o.Some? then o.value else []
  }

  method ReportMutations(p: Pair, provider: Option<seq<seq<Observer.MutationRecord>>>, n: nat, before: seq<Finding>)
    returns (findings: seq<Finding>)
    ensures findings == before + MutationFindings(p, IfPresent(provider), n)
  {
    findings := before;
    if provider.Some? {
      for i := 0 to n
        invariant findings == before + MutationFindings(p, provider.value, i)
      {
        var here := TxMutations(provider.value, i);
        findings := ReportSlot(p, i, here, findings);
        assert findings == before + (MutationFindings(p, provider.value, i) + OfMutations(p, i, here));
      }
    } else {
      NoMutations(p, n);
    }
  }

  method ReportSlot(p: Pair, i: nat, ms: seq<Observer.MutationRecord>, before: seq<Finding>)
    returns (findings: seq<Finding>)
    ensures findings == before + OfMutations(p, i, ms)
  {
    findings := before;
    for k := 0 to |ms|
      invariant findings == before + OfMutations(p, i, ms)[..k]
    {
      findings := findings + [OfMutation(p, i, ms[k])];
    }
  }

  lemma {:induction false} NoMutations(p: Pair, n: nat)
    ensures MutationFindings(p, [], n) == []
  {
    if n > 0 {
      NoMutations(p, n - 1);
    }
  }

  method ReportContext(p: Pair, provider: Option<seq<BlockContext.Mutation>>, before: seq<Finding>)
    returns (findings: seq<Finding>)
    ensures findings == before + ContextFindings(p, IfPresent(provider))
  {
    findings := before;
    if provider.Some? {
      var ms := provider.value;
      for k := 0 to |ms|
        invariant findings == before + ContextFindings(p, ms)[..k]
      {
        findings := findings + [OfContext(p, ms[k])];
      }
    }
  }

  method ReportCalls(p: Pair, provider: Option<seq<NonDetCall>>, before: seq<Finding>)
    returns (findings: seq<Finding>)
    ensures findings == before + CallFindings(p, IfPresent(provider))
  {
    findings := before;
    if provider.Some? {
      var cs := provider.value;
      for k := 0 to |cs|
        invariant findings == before + CallFindings(p, cs)[..k]
      {
        findings := findings + [OfCall(p, cs[k])];
      }
    }
  }

  // ---------- Run ----------

  /** The two executions of a block (`None` when `FinalizeBlock` fails) and the optional providers. */
  datatype Input = Input(
    height: int,
    blockTxs: nat,
    oracle: Option<Response>,
    probe: Option<Response>,
    oracleWriteSets: Option<WriteSets>,
    probeWriteSets: Option<WriteSets>,
    oracleMutations: Option<seq<seq<Observer.MutationRecord>>>,
    blockContextMutations: Option<seq<BlockContext.Mutation>>,
    nonDetCalls: Option<seq<NonDetCall>>)

  datatype Failure = OracleFailed | ProbeFailed

  datatype Outcome = Failed(failure: Failure) | Done(result: Result)

  datatype Result = Result(verdict: Verdict, height: int, findings: seq<Finding>, oracleTxCodes: seq<nat>)

  function PairOf(input: Input): Pair
    requires input.oracle.Some? && input.probe.Some?
  {
    Pair(input.height, 0, input.oracle.value, input.probe.value, input.oracleWriteSets, input.probeWriteSets)
  }

  function VerdictOf(findings: seq<Finding>): Verdict {
    if findings != [] then Divergence else Match
  }

  /** Block-level mutations sit in slot 0, so slots of transactions without a result are read too. */
  function MutationSlots(input: Input): nat
    requires input.oracle.Some? && input.probe.Some?
  {
    Max(Common(PairOf(input)), input.blockTxs)
  }

  ghost function ResponseFindings(p: Pair): seq<Finding> {
    var n := Common(p);
    HashFindings(p) + PerTx(p, DimErrorCode, n) + PerTx(p, DimGas, n) + PerTx(p, DimEvents, n)
    + PerTx(p, DimWriteSet, n)
  }

  ghost function ProviderFindings(input: Input): seq<Finding>
    requires input.oracle.Some? && input.probe.Some?
  {
    var p := PairOf(input);
    MutationFindings(p, IfPresent(input.oracleMutations), MutationSlots(input))
    + ContextFindings(p, IfPresent(input.blockContextMutations))
    + CallFindings(p, IfPresent(input.nonDetCalls))
  }

  // ---------- What is reported, told from the two responses ----------

  /** The finding is about a difference of the two responses: its first text is what the left one has, its second
      text what the right one has. */
  ghost predicate AboutResponses(f: Finding, l: Response, r: Response, lws: Option<WriteSets>, rws: Option<WriteSets>) {
    if f.dimension == DimAppHash then
      && l.appHash != r.appHash && f.txIndex == -1
      && f.oracle == Hex(l.appHash) && f.probe == Hex(r.appHash)
    else
      && 0 <= f.txIndex < |l.txResults| && f.txIndex < |r.txResults|
      && AboutTx(f, l.txResults[f.txIndex], r.txResults[f.txIndex], lws, rws)
  }

  ghost predicate AboutTx(f: Finding, l: TxResult, r: TxResult, lws: Option<WriteSets>, rws: Option<WriteSets>)
    requires f.txIndex >= 0
  {
    match f.dimension
    case DimErrorCode => l.code != r.code && f.oracle == FormatInt(l.code) && f.probe == FormatInt(r.code)
    case DimGas => l.gasUsed != r.gasUsed && f.oracle == FormatInt(l.gasUsed) && f.probe == FormatInt(r.gasUsed)
    case DimEvents =>
      && FormatEvents(l.events) != FormatEvents(r.events)
      && f.oracle == FormatEvents(l.events) && f.probe == FormatEvents(r.events)
    case DimWriteSet =>
      && lws.Some? && rws.Some?
      && var a, b := SlotOf(lws.value, f.txIndex), SlotOf(rws.value, f.txIndex);
      && a != b && f.oracle == FormatWriteSet(a) && f.probe == FormatWriteSet(b)
    case _ => false
  }

  /** A provider has an answer for each transaction: what its slot holds, or nothing. */
  function SlotOf<T>(slots: seq<seq<T>>, i: nat): seq<T> {
    if i < |slots| then slots[i] else []
  }

  /** The slots of mutations that are read. */
  function SlotsRead(input: Input): nat
    requires input.oracle.Some? && input.probe.Some?
  {
    var l, r := |input.oracle.value.txResults|, |input.probe.value.txResults|;
    var common := if l <= r then l else r;
    if common <= input.blockTxs then input.blockTxs else common
  }

  ghost predicate AboutMutation(f: Finding, m: Observer.MutationRecord) {
    && f.oracle == m.tracker + [0x3A] + Hex(m.before)
    && f.probe == m.tracker + [0x3A] + Hex(m.after)
  }

  ghost predicate AboutContext(f: Finding, m: BlockContext.Mutation) {
    && f.txIndex == m.writerTx
    && f.oracle == Ascii("field=") + m.field + Ascii(";before=") + m.before + Ascii(";readers=") + JoinInts(m.readerTxs)
    && f.probe == Ascii("field=") + m.field + Ascii(";after=") + m.after + Ascii(";writer=tx") + FormatInt(m.writerTx)
  }

  ghost predicate AboutCall(f: Finding, c: NonDetCall) {
    && f.txIndex == c.txIndex
    && f.oracle == f.probe == Ascii("category=") + c.category + Ascii(";call=") + c.callSite
  }

  /** What `Run` reports. */
  ghost predicate Reported(input: Input, f: Finding)
    requires input.oracle.Some? && input.probe.Some?
  {
    && f.height == input.height && f.probeIndex == 0
    && match f.dimension
       case DimOutOfKVStore =>
         && input.oracleMutations.Some? && 0 <= f.txIndex < SlotsRead(input)
         && exists m :: m in SlotOf(input.oracleMutations.value, f.txIndex) && AboutMutation(f, m)
       case DimBlockContext =>
         input.blockContextMutations.Some? && exists m :: m in input.blockContextMutations.value && AboutContext(f, m)
       case DimNonDeterministic =>
         input.nonDetCalls.Some? && exists c :: c in input.nonDetCalls.value && AboutCall(f, c)
       case _ =>
         AboutResponses(f, input.oracle.value, input.probe.value, input.oracleWriteSets, input.probeWriteSets)
  }

  /** The responses say the same about the app hash and about every transaction that both have a result for. */
  ghost predicate SameResponses(l: Response, r: Response, lws: Option<WriteSets>, rws: Option<WriteSets>) {
    && l.appHash == r.appHash
    && forall i :: 0 <= i < |l.txResults| && i < |r.txResults| ==> SameTx(l, r, lws, rws, i)
  }

  ghost predicate SameTx(l: Response, r: Response, lws: Option<WriteSets>, rws: Option<WriteSets>, i: nat)
    requires i < |l.txResults| && i < |r.txResults|
  {
    && l.txResults[i].code == r.txResults[i].code
    && l.txResults[i].gasUsed == r.txResults[i].gasUsed
    && FormatEvents(l.txResults[i].events) == FormatEvents(r.txResults[i].events)
    && (lws.Some? && rws.Some? ==> SlotOf(lws.value, i) == SlotOf(rws.value, i))
  }

  ghost predicate NothingProvided(input: Input)
    requires input.oracle.Some? && input.probe.Some?
  {
    && (input.oracleMutations.Some? ==>
      forall i: nat :: i < SlotsRead(input) ==> SlotOf(input.oracleMutations.value, i) == [])
    && (input.blockContextMutations.Some? ==> input.blockContextMutations.value == [])
    && (input.nonDetCalls.Some? ==> input.nonDetCalls.value == [])
  }

  /** The dimensions in the order in which they are reported. */
  function Rank(d: Dimension): nat {
    match d
    case DimAppHash => 0
    case DimErrorCode => 1
    case DimGas => 2
    case DimEvents => 3
    case DimWriteSet => 4
    case DimOutOfKVStore => 5
    case DimBlockContext => 6
    case DimNonDeterministic => 7
  }

  /** Dimension by dimension; within the first ones by transaction, and only once for each. */
  ghost predicate Before(f: Finding, g: Finding) {
    || Rank(f.dimension) < Rank(g.dimension)
    || (&& f.dimension == g.dimension
        && (Rank(f.dimension) < 5 ==> f.txIndex < g.txIndex)
        && (Rank(f.dimension) == 5 ==> f.txIndex <= g.txIndex))
  }

  ghost predicate InOrder(fs: seq<Finding>) {
    forall i, j :: 0 <= i < j < |fs| ==> Before(fs[i], fs[j])
  }

  ghost function CountOf(fs: seq<Finding>, d: Dimension): nat {
    if fs == [] then 0 else CountOf(fs[..|fs| - 1], d) + if fs[|fs| - 1].dimension == d then 1 else 0
  }

  /** How many records the first `n` slots hold. */
  ghost function RecordsIn<T>(slots: seq<seq<T>>, n: nat): nat {
    if n == 0 then 0 else RecordsIn(slots, n - 1) + |SlotOf(slots, n - 1)|
  }

  // ---------- The reported findings are those ----------

  ghost predicate AllOf(fs: seq<Finding>, d: Dimension) {
    forall i :: 0 <= i < |fs| ==> fs[i].dimension == d
  }

  ghost predicate AllBelow(fs: seq<Finding>, d: Dimension) {
    forall i :: 0 <= i < |fs| ==> Rank(fs[i].dimension) < Rank(d)
  }

  lemma JoinInOrder(a: seq<Finding>, b: seq<Finding>, d: Dimension)
    requires InOrder(a) && InOrder(b) && AllBelow(a, d) && AllOf(b, d)
    ensures InOrder(a + b)
    ensures forall e :: Rank(e) > Rank(d) ==> AllBelow(a + b, e)
  {
  }

  lemma {:induction false} CountConcat(a: seq<Finding>, b: seq<Finding>, d: Dimension)
    ensures CountOf(a + b, d) == CountOf(a, d) + CountOf(b, d)
  {
    if b == [] {
      assert a + b == a;
    } else {
      assert (a + b)[..|a + b| - 1] == a + b[..|b| - 1];
      CountConcat(a, b[..|b| - 1], d);
    }
  }

  lemma {:induction false} CountUniform(fs: seq<Finding>, d: Dimension, e: Dimension)
    requires AllOf(fs, d)
    ensures CountOf(fs, e) == if d == e then |fs| else 0
  {
    if fs != [] {
      CountUniform(fs[..|fs| - 1], d, e);
    }
  }

  /** What is found about one transaction is one finding of that dimension and transaction, or nothing. */
  lemma FoundIsOne(p: Pair, d: Dimension, i: nat)
    requires i < Common(p)
    ensures Found(p, d, i) == [] || Found(p, d, i) == [FindingAt(p, d, i)]
    ensures FindingAt(p, d, i).dimension == d && FindingAt(p, d, i).txIndex == i
  {
  }

  lemma MemberOfConcat(a: seq<Finding>, b: seq<Finding>, f: Finding)
    ensures f in a + b <==> f in a || f in b
  {
  }

  /** The findings of one dimension, by transaction. */
  lemma {:induction false} PerTxMember(p: Pair, d: Dimension, n: nat, f: Finding, own: seq<Finding>)
    requires n <= Common(p) && (0 <= f.txIndex < Common(p) ==> own == Found(p, d, f.txIndex))
    ensures f in PerTx(p, d, n) <==> 0 <= f.txIndex < n && f in own
  {
    if n > 0 {
      var before, found := PerTx(p, d, n - 1), Found(p, d, n - 1);
      PerTxStep(p, d, n - 1, before, found);
      PerTxMember(p, d, n - 1, f, own);
      FoundIsOne(p, d, n - 1);
      assert forall g :: g in found ==> g.txIndex == n - 1;
      MemberOfTurn(before, found, own, n - 1, f);
    }
  }

  lemma MemberOfTurn(before: seq<Finding>, found: seq<Finding>, own: seq<Finding>, n: nat, f: Finding)
    requires f in before <==> 0 <= f.txIndex < n && f in own
    requires forall g :: g in found ==> g.txIndex == n
    requires f.txIndex == n ==> own == found
    ensures f in before + found <==> 0 <= f.txIndex < n + 1 && f in own
  {
    MemberOfConcat(before, found, f);
  }

  lemma {:induction false} PerTxInOrder(p: Pair, d: Dimension, n: nat)
    requires n <= Common(p)
    ensures AllOf(PerTx(p, d, n), d) && InOrder(PerTx(p, d, n))
    ensures forall i :: 0 <= i < |PerTx(p, d, n)| ==> 0 <= PerTx(p, d, n)[i].txIndex < n
  {
    if n > 0 {
      var before, found := PerTx(p, d, n - 1), Found(p, d, n - 1);
      PerTxInOrder(p, d, n - 1);
      PerTxStep(p, d, n - 1, before, found);
      FoundIsOne(p, d, n - 1);
      OneMoreInOrder(before, found, d, n - 1);
    }
  }

  lemma OneMoreInOrder(before: seq<Finding>, found: seq<Finding>, d: Dimension, n: nat)
    requires AllOf(before, d) && InOrder(before)
    requires forall i :: 0 <= i < |before| ==> 0 <= before[i].txIndex < n
    requires found == [] || (|found| == 1 && found[0].dimension == d && found[0].txIndex == n)
    ensures AllOf(before + found, d) && InOrder(before + found)
    ensures forall i :: 0 <= i < |before + found| ==> 0 <= (before + found)[i].txIndex < n + 1
  {
  }

  /** The findings about responses, as `AboutResponses` tells them. */
  ghost predicate IsFindingOf(f: Finding, p: Pair) {
    && f.height == p.height && f.probeIndex == p.probeIndex
    && AboutResponses(f, p.left, p.right, p.leftWS, p.rightWS)
  }

  lemma FoundMeans(p: Pair, d: Dimension, f: Finding)
    requires d in {DimErrorCode, DimGas, DimEvents, DimWriteSet} && 0 <= f.txIndex < Common(p)
    ensures f in Found(p, d, f.txIndex) <==> f.dimension == d && IsFindingOf(f, p)
  {
    FoundIsOne(p, d, f.txIndex);
    FindingMeans(p, d, f);
  }

  lemma FindingMeans(p: Pair, d: Dimension, f: Finding)
    requires d in {DimErrorCode, DimGas, DimEvents, DimWriteSet} && 0 <= f.txIndex < Common(p)
    ensures Differs(p, d, f.txIndex) && f == FindingAt(p, d, f.txIndex) <==> f.dimension == d && IsFindingOf(f, p)
  {
  }

  lemma HashMeans(p: Pair, f: Finding)
    ensures f in HashFindings(p) <==> f.dimension == DimAppHash && IsFindingOf(f, p)
  {
  }

  lemma PerTxMeans(p: Pair, d: Dimension, n: nat, f: Finding)
    requires d in {DimErrorCode, DimGas, DimEvents, DimWriteSet} && n <= Common(p)
    ensures f in PerTx(p, d, n) <==> f.dimension == d && 0 <= f.txIndex < n && IsFindingOf(f, p)
  {
    if 0 <= f.txIndex < Common(p) {
      PerTxMember(p, d, n, f, Found(p, d, f.txIndex));
      FoundMeans(p, d, f);
    } else {
      PerTxMember(p, d, n, f, []);
    }
  }

  lemma WithinCommon(p: Pair, f: Finding)
    requires IsFindingOf(f, p) && f.dimension != DimAppHash
    ensures 0 <= f.txIndex < Common(p)
    ensures f.dimension in {DimErrorCode, DimGas, DimEvents, DimWriteSet}
  {
  }

  lemma ResponsesMeans(p: Pair, f: Finding)
    ensures f in ResponseFindings(p) <==> IsFindingOf(f, p)
  {
    var n := Common(p);
    HashMeans(p, f);
    PerTxMeans(p, DimErrorCode, n, f);
    PerTxMeans(p, DimGas, n, f);
    PerTxMeans(p, DimEvents, n, f);
    PerTxMeans(p, DimWriteSet, n, f);
    if IsFindingOf(f, p) && f.dimension != DimAppHash {
      WithinCommon(p, f);
    }
    MemberOfFive(HashFindings(p), PerTx(p, DimErrorCode, n), PerTx(p, DimGas, n), PerTx(p, DimEvents, n),
                 PerTx(p, DimWriteSet, n), f);
  }

  lemma MemberOfFive(a: seq<Finding>, b: seq<Finding>, c: seq<Finding>, d: seq<Finding>, e: seq<Finding>, f: Finding)
    ensures f in a + b + c + d + e <==> f in a || f in b || f in c || f in d || f in e
  {
  }

  lemma ResponsesInOrder(p: Pair)
    ensures InOrder(ResponseFindings(p))
    ensures forall d :: Rank(d) > 4 ==> AllBelow(ResponseFindings(p), d)
    ensures forall d :: Rank(d) > 4 ==> CountOf(ResponseFindings(p), d) == 0
  {
    var n := Common(p);
    var a, b, c := PerTx(p, DimErrorCode, n), PerTx(p, DimGas, n), PerTx(p, DimEvents, n);
    PerTxInOrder(p, DimErrorCode, n);
    PerTxInOrder(p, DimGas, n);
    PerTxInOrder(p, DimEvents, n);
    PerTxInOrder(p, DimWriteSet, n);
    JoinInOrder(HashFindings(p), a, DimErrorCode);
    JoinInOrder(HashFindings(p) + a, b, DimGas);
    JoinInOrder(HashFindings(p) + a + b, c, DimEvents);
    JoinInOrder(HashFindings(p) + a + b + c, PerTx(p, DimWriteSet, n), DimWriteSet);
    forall d | Rank(d) > 4
      ensures CountOf(ResponseFindings(p), d) == 0
    {
      NoneOfThese(ResponseFindings(p), d);
    }
  }

  lemma {:induction false} NoneOfThese(fs: seq<Finding>, d: Dimension)
    requires AllBelow(fs, d)
    ensures CountOf(fs, d) == 0
  {
    if fs != [] {
      NoneOfThese(fs[..|fs| - 1], d);
    }
  }

  // The mutations, slot by slot.

  lemma SlotMember(p: Pair, i: int, ms: seq<Observer.MutationRecord>, f: Finding)
    ensures f in OfMutations(p, i, ms) <==>
            && f.dimension == DimOutOfKVStore && f.txIndex == i && f.height == p.height && f.probeIndex == p.probeIndex
            && exists m :: m in ms && AboutMutation(f, m)
  {
    var fs := OfMutations(p, i, ms);
    if f in fs {
      var k :| 0 <= k < |fs| && fs[k] == f;
      assert ms[k] in ms && AboutMutation(f, ms[k]);
    }
    if f.dimension == DimOutOfKVStore && f.txIndex == i && f.height == p.height && f.probeIndex == p.probeIndex {
      if m :| m in ms && AboutMutation(f, m) {
        var k :| 0 <= k < |ms| && ms[k] == m;
        assert fs[k] == f;
      }
    }
  }

  ghost predicate IsMutationOf(f: Finding, p: Pair, ms: seq<seq<Observer.MutationRecord>>, n: nat) {
    && f.dimension == DimOutOfKVStore && f.height == p.height && f.probeIndex == p.probeIndex
    && 0 <= f.txIndex < n && exists m :: m in SlotOf(ms, f.txIndex) && AboutMutation(f, m)
  }

  lemma {:induction false} MutationsMean(p: Pair, ms: seq<seq<Observer.MutationRecord>>, n: nat, f: Finding)
    ensures f in MutationFindings(p, ms, n) <==> IsMutationOf(f, p, ms, n)
  {
    if n > 0 {
      MutationsMean(p, ms, n - 1, f);
      SlotMember(p, n - 1, SlotOf(ms, n - 1), f);
      MemberOfConcat(MutationFindings(p, ms, n - 1), OfMutations(p, n - 1, SlotOf(ms, n - 1)), f);
    }
  }

  lemma {:induction false} MutationsInOrder(p: Pair, ms: seq<seq<Observer.MutationRecord>>, n: nat)
    ensures AllOf(MutationFindings(p, ms, n), DimOutOfKVStore) && InOrder(MutationFindings(p, ms, n))
    ensures forall i :: 0 <= i < |MutationFindings(p, ms, n)| ==> MutationFindings(p, ms, n)[i].txIndex < n
    ensures |MutationFindings(p, ms, n)| == RecordsIn(ms, n)
  {
    if n > 0 {
      MutationsInOrder(p, ms, n - 1);
      SlotInOrder(MutationFindings(p, ms, n - 1), OfMutations(p, n - 1, SlotOf(ms, n - 1)), n - 1);
    }
  }

  lemma SlotInOrder(before: seq<Finding>, slot: seq<Finding>, n: nat)
    requires AllOf(before, DimOutOfKVStore) && InOrder(before) && AllOf(slot, DimOutOfKVStore)
    requires forall i :: 0 <= i < |before| ==> before[i].txIndex < n
    requires forall i :: 0 <= i < |slot| ==> slot[i].txIndex == n
    ensures AllOf(before + slot, DimOutOfKVStore) && InOrder(before + slot)
    ensures forall i :: 0 <= i < |before + slot| ==> (before + slot)[i].txIndex < n + 1
  {
  }

  lemma ContextMeans(p: Pair, ms: seq<BlockContext.Mutation>, f: Finding)
    ensures f in ContextFindings(p, ms) <==>
            && f.dimension == DimBlockContext && f.height == p.height && f.probeIndex == p.probeIndex
            && exists m :: m in ms && AboutContext(f, m)
  {
    var fs := ContextFindings(p, ms);
    if f in fs {
      var k :| 0 <= k < |fs| && fs[k] == f;
      assert ms[k] in ms && AboutContext(f, ms[k]);
    }
    if f.dimension == DimBlockContext && f.height == p.height && f.probeIndex == p.probeIndex {
      if m :| m in ms && AboutContext(f, m) {
        var k :| 0 <= k < |ms| && ms[k] == m;
        assert fs[k] == f;
      }
    }
  }

  lemma CallsMean(p: Pair, cs: seq<NonDetCall>, f: Finding)
    ensures f in CallFindings(p, cs) <==>
            && f.dimension == DimNonDeterministic && f.height == p.height && f.probeIndex == p.probeIndex
            && exists c :: c in cs && AboutCall(f, c)
  {
    var fs := CallFindings(p, cs);
    if f in fs {
      var k :| 0 <= k < |fs| && fs[k] == f;
      assert cs[k] in cs && AboutCall(f, cs[k]);
    }
    if f.dimension == DimNonDeterministic && f.height == p.height && f.probeIndex == p.probeIndex {
      if c :| c in cs && AboutCall(f, c) {
        var k :| 0 <= k < |cs| && cs[k] == c;
        assert fs[k] == f;
      }
    }
  }

  ghost function AllFindings(input: Input): seq<Finding>
    requires input.oracle.Some? && input.probe.Some?
  {
    ResponseFindings(PairOf(input)) + ProviderFindings(input)
  }

  lemma AllReported(input: Input, f: Finding)
    requires input.oracle.Some? && input.probe.Some?
    ensures f in AllFindings(input) <==> Reported(input, f)
  {
    var p := PairOf(input);
    var ms, xs, cs := IfPresent(input.oracleMutations), IfPresent(input.blockContextMutations),
                      IfPresent(input.nonDetCalls);
    ResponsesMeans(p, f);
    MutationsMean(p, ms, MutationSlots(input), f);
    ContextMeans(p, xs, f);
    CallsMean(p, cs, f);
    MemberOfFour(ResponseFindings(p), MutationFindings(p, ms, MutationSlots(input)), ContextFindings(p, xs),
                 CallFindings(p, cs), f);
    if AboutResponses(f, p.left, p.right, p.leftWS, p.rightWS) {
      ResponseDimensions(f, p.left, p.right, p.leftWS, p.rightWS);
    }
    ReportedCases(input, f);
  }

  lemma ResponseDimensions(f: Finding, l: Response, r: Response, lws: Option<WriteSets>, rws: Option<WriteSets>)
    requires AboutResponses(f, l, r, lws, rws)
    ensures f.dimension in {DimAppHash, DimErrorCode, DimGas, DimEvents, DimWriteSet}
  {
  }

  lemma ReportedCases(input: Input, f: Finding)
    requires input.oracle.Some? && input.probe.Some?
    ensures
      var p := PairOf(input);
      Reported(input, f) <==>
      || (f.dimension !in {DimOutOfKVStore, DimBlockContext, DimNonDeterministic} && IsFindingOf(f, p))
      || IsMutationOf(f, p, IfPresent(input.oracleMutations), MutationSlots(input))
      || (&& f.dimension == DimBlockContext && f.height == p.height && f.probeIndex == p.probeIndex
          && exists m :: m in IfPresent(input.blockContextMutations) && AboutContext(f, m))
      || (&& f.dimension == DimNonDeterministic && f.height == p.height && f.probeIndex == p.probeIndex
          && exists c :: c in IfPresent(input.nonDetCalls) && AboutCall(f, c))
  {
  }

  lemma MemberOfFour(a: seq<Finding>, b: seq<Finding>, c: seq<Finding>, d: seq<Finding>, f: Finding)
    ensures f in a + (b + c + d) <==> f in a || f in b || f in c || f in d
  {
  }

  lemma AllInOrder(input: Input)
    requires input.oracle.Some? && input.probe.Some?
    ensures InOrder(AllFindings(input))
    ensures CountOf(AllFindings(input), DimOutOfKVStore) ==
            RecordsIn(IfPresent(input.oracleMutations), SlotsRead(input))
    ensures CountOf(AllFindings(input), DimBlockContext) == |IfPresent(input.blockContextMutations)|
    ensures CountOf(AllFindings(input), DimNonDeterministic) == |IfPresent(input.nonDetCalls)|
  {
    var a, b, c, d := TheParts(input);
    PartsInOrder(a, b, c, d);
    CountLast(a, b, c, d);
  }

  /** The findings about responses, mutations, block context and calls. */
  lemma TheParts(input: Input) returns (a: seq<Finding>, b: seq<Finding>, c: seq<Finding>, d: seq<Finding>)
    requires input.oracle.Some? && input.probe.Some?
    ensures AllFindings(input) == a + (b + c + d)
    ensures InOrder(a) && forall e :: Rank(e) > 4 ==> AllBelow(a, e)
    ensures forall e :: Rank(e) > 4 ==> CountOf(a, e) == 0
    ensures InOrder(b) && AllOf(b, DimOutOfKVStore) && AllOf(c, DimBlockContext) && AllOf(d, DimNonDeterministic)
    ensures |b| == RecordsIn(IfPresent(input.oracleMutations), SlotsRead(input))
    ensures |c| == |IfPresent(input.blockContextMutations)| && |d| == |IfPresent(input.nonDetCalls)|
  {
    var p := PairOf(input);
    a, b := ResponseFindings(p), MutationFindings(p, IfPresent(input.oracleMutations), MutationSlots(input));
    c := ContextFindings(p, IfPresent(input.blockContextMutations));
    d := CallFindings(p, IfPresent(input.nonDetCalls));
    ResponsesInOrder(p);
    MutationsInOrder(p, IfPresent(input.oracleMutations), MutationSlots(input));
  }

  lemma PartsInOrder(a: seq<Finding>, b: seq<Finding>, c: seq<Finding>, d: seq<Finding>)
    requires InOrder(a) && forall e :: Rank(e) > 4 ==> AllBelow(a, e)
    requires InOrder(b) && AllOf(b, DimOutOfKVStore) && AllOf(c, DimBlockContext) && AllOf(d, DimNonDeterministic)
    ensures InOrder(a + (b + c + d))
  {
    JoinInOrder(a, b, DimOutOfKVStore);
    JoinInOrder(a + b, c, DimBlockContext);
    JoinInOrder(a + b + c, d, DimNonDeterministic);
    Reassociate(a, b, c, d);
  }

  lemma CountLast(a: seq<Finding>, b: seq<Finding>, c: seq<Finding>, d: seq<Finding>)
    requires forall e :: Rank(e) > 4 ==> CountOf(a, e) == 0
    requires AllOf(b, DimOutOfKVStore) && AllOf(c, DimBlockContext) && AllOf(d, DimNonDeterministic)
    ensures CountOf(a + (b + c + d), DimOutOfKVStore) == |b|
    ensures CountOf(a + (b + c + d), DimBlockContext) == |c|
    ensures CountOf(a + (b + c + d), DimNonDeterministic) == |d|
  {
    CountEach(a, b, c, d, DimOutOfKVStore);
    CountEach(a, b, c, d, DimBlockContext);
    CountEach(a, b, c, d, DimNonDeterministic);
  }

  lemma CountEach(a: seq<Finding>, b: seq<Finding>, c: seq<Finding>, d: seq<Finding>, e: Dimension)
    requires AllOf(b, DimOutOfKVStore) && AllOf(c, DimBlockContext) && AllOf(d, DimNonDeterministic)
    ensures CountOf(a + (b + c + d), e) ==
            CountOf(a, e) + (if e == DimOutOfKVStore then |b| else 0) + (if e == DimBlockContext then |c| else 0)
            + if e == DimNonDeterministic then |d| else 0
  {
    CountConcat(a, b + c + d, e);
    CountConcat(b + c, d, e);
    CountConcat(b, c, e);
    CountUniform(b, DimOutOfKVStore, e);
    CountUniform(c, DimBlockContext, e);
    CountUniform(d, DimNonDeterministic, e);
  }

  /** The verdict is Match exactly when the two responses agree on the app hash and on the code, the gas, the
      formatted events and the write set of each transaction that both have a result for, and no provider has
      anything to report. */
  lemma MatchExactly(input: Input)
    requires input.oracle.Some? && input.probe.Some?
    ensures VerdictOf(AllFindings(input)) == Match <==>
            && SameResponses(input.oracle.value, input.probe.value, input.oracleWriteSets, input.probeWriteSets)
            && NothingProvided(input)
  {
    AgreementExactly(input);
    AgreeMeans(PairOf(input));
    EmptySlots(IfPresent(input.oracleMutations), SlotsRead(input));
  }

  lemma EmptySlots(ms: seq<seq<Observer.MutationRecord>>, n: nat)
    ensures NoMutationsIn(ms, n) <==> forall i: nat :: i < n ==> SlotOf(ms, i) == []
  {
    forall i: nat
      ensures TxMutations(ms, i) == SlotOf(ms, i)
    {
    }
  }

  lemma AgreeMeans(p: Pair)
    ensures Agree(p, {DimErrorCode, DimGas, DimEvents, DimWriteSet}, Common(p)) <==>
            SameResponses(p.left, p.right, p.leftWS, p.rightWS)
  {
    var dims := {DimErrorCode, DimGas, DimEvents, DimWriteSet};
    forall i: nat | i < Common(p)
      ensures SameTx(p.left, p.right, p.leftWS, p.rightWS, i) <==> forall d :: d in dims ==> !Differs(p, d, i)
    {
      SameTxMeans(p, i);
    }
    if Agree(p, dims, Common(p)) {
      forall i | 0 <= i < |p.left.txResults| && i < |p.right.txResults|
        ensures SameTx(p.left, p.right, p.leftWS, p.rightWS, i)
      {
        assert forall d :: d in dims ==> NoneDiffers(p, d, Common(p));
      }
    }
    if SameResponses(p.left, p.right, p.leftWS, p.rightWS) {
      forall d, i: nat | d in dims && i < Common(p)
        ensures !Differs(p, d, i)
      {
        assert SameTx(p.left, p.right, p.leftWS, p.rightWS, i);
      }
    }
  }

  lemma SameTxMeans(p: Pair, i: nat)
    requires i < Common(p)
    ensures SameTx(p.left, p.right, p.leftWS, p.rightWS, i) <==>
            && !Differs(p, DimErrorCode, i) && !Differs(p, DimGas, i)
            && !Differs(p, DimEvents, i) && !Differs(p, DimWriteSet, i)
  {
  }

  method Run(input: Input) returns (o: Outcome)
    ensures input.oracle.None? ==> o == Failed(OracleFailed)
    ensures input.oracle.Some? && input.probe.None? ==> o == Failed(ProbeFailed)
    ensures input.oracle.Some? && input.probe.Some? ==>
              && o.Done?
              && o.result.height == input.height
              && o.result.findings == AllFindings(input)
              && (forall f :: f in o.result.findings <==> Reported(input, f))
              && InOrder(o.result.findings)
              && CountOf(o.result.findings, DimOutOfKVStore) ==
                 RecordsIn(IfPresent(input.oracleMutations), SlotsRead(input))
              && CountOf(o.result.findings, DimBlockContext) == |IfPresent(input.blockContextMutations)|
              && CountOf(o.result.findings, DimNonDeterministic) == |IfPresent(input.nonDetCalls)|
              && (o.result.verdict == Match <==>
                  && SameResponses(input.oracle.value, input.probe.value, input.oracleWriteSets, input.probeWriteSets)
                  && NothingProvided(input))
              && |o.result.oracleTxCodes| == |input.oracle.value.txResults|
              && forall i :: 0 <= i < |o.result.oracleTxCodes| ==>
                               o.result.oracleTxCodes[i] == input.oracle.value.txResults[i].code
  {
    if input.oracle.None? {
      return Failed(OracleFailed);
    }
    if input.probe.None? {
      return Failed(ProbeFailed);
    }
    var codes: seq<nat> := [];
    for i := 0 to |input.oracle.value.txResults|
      invariant |codes| == i && forall k :: 0 <= k < i ==> codes[k] == input.oracle.value.txResults[k].code
    {
      codes := codes + [input.oracle.value.txResults[i].code];
    }
    var p := PairOf(input);
    var txCount := Common(p);
    var findings := CompareHashes(p);
    findings := CompareCodes(p, txCount, findings);
    findings := CompareGas(p, txCount, findings);
    findings := CompareEvents(p, txCount, findings);
    findings := CompareWriteSets(p, txCount, findings);
    findings := ReportMutations(p, input.oracleMutations, MutationSlots(input), findings);
    findings := ReportContext(p, input.blockContextMutations, findings);
    findings := ReportCalls(p, input.nonDetCalls, findings);
    Reassociate(ResponseFindings(p), MutationFindings(p, IfPresent(input.oracleMutations), MutationSlots(input)),
                ContextFindings(p, IfPresent(input.blockContextMutations)),
                CallFindings(p, IfPresent(input.nonDetCalls)));
    forall f
      ensures f in findings <==> Reported(input, f)
    {
      AllReported(input, f);
    }
    AllInOrder(input);
    MatchExactly(input);
    if |findings| > 0 {
      return Done(Result(Divergence, input.height, findings, codes));
    } else {
      return Done(Result(Match, input.height, [], codes));
    }
  }

  lemma Reassociate<T>(a: seq<T>, b: seq<T>, c: seq<T>, d: seq<T>)
    ensures a + b + c + d == a + (b + c + d)
  {
  }

  // ---------- What the verdict means ----------

  /** Both responses say the same about every transaction that both have a result for. */
  ghost predicate Agree(p: Pair, dims: set<Dimension>, n: nat)
    requires n <= Common(p)
  {
    && p.left.appHash == p.right.appHash
    && forall d :: d in dims ==> NoneDiffers(p, d, n)
  }

  lemma EmptySlot(p: Pair, i: int, ms: seq<Observer.MutationRecord>)
    ensures OfMutations(p, i, ms) == [] <==> ms == []
  {
    assert |OfMutations(p, i, ms)| == |ms|;
  }

  ghost predicate NoMutationsIn(ms: seq<seq<Observer.MutationRecord>>, n: nat) {
    forall i: nat :: i < n ==> TxMutations(ms, i) == []
  }

  lemma NoMutationsStep(ms: seq<seq<Observer.MutationRecord>>, n: nat)
    ensures NoMutationsIn(ms, n + 1) <==> NoMutationsIn(ms, n) && TxMutations(ms, n) == []
  {
  }

  lemma {:induction false} NoMutationFindings(p: Pair, ms: seq<seq<Observer.MutationRecord>>, n: nat)
    ensures MutationFindings(p, ms, n) == [] <==> NoMutationsIn(ms, n)
  {
    if n > 0 {
      NoMutationFindings(p, ms, n - 1);
      EmptySlot(p, n - 1, TxMutations(ms, n - 1));
      NoMutationsStep(ms, n - 1);
    }
  }

  lemma NoResponseFindings(p: Pair)
    ensures ResponseFindings(p) == [] <==> Agree(p, {DimErrorCode, DimGas, DimEvents, DimWriteSet}, Common(p))
  {
    var n := Common(p);
    NothingDiffers(p, DimErrorCode, n);
    NothingDiffers(p, DimGas, n);
    NothingDiffers(p, DimEvents, n);
    NothingDiffers(p, DimWriteSet, n);
  }

  lemma AgreementExactly(input: Input)
    requires input.oracle.Some? && input.probe.Some?
    ensures AllFindings(input) == [] <==>
            && Agree(PairOf(input), {DimErrorCode, DimGas, DimEvents, DimWriteSet}, Common(PairOf(input)))
            && NoMutationsIn(IfPresent(input.oracleMutations), MutationSlots(input))
            && IfPresent(input.blockContextMutations) == []
            && IfPresent(input.nonDetCalls) == []
  {
    var p := PairOf(input);
    NoResponseFindings(p);
    NoMutationFindings(p, IfPresent(input.oracleMutations), MutationSlots(input));
    assert |ContextFindings(p, IfPresent(input.blockContextMutations))| == |IfPresent(input.blockContextMutations)|;
    assert |CallFindings(p, IfPresent(input.nonDetCalls))| == |IfPresent(input.nonDetCalls)|;
  }

  // ---------- What a finding shows ----------

  /** A finding about the app hash, a code, the gas used or the events shows two different texts. */
  lemma FindingShowsDifference(f: Finding, l: Response, r: Response, lws: Option<WriteSets>, rws: Option<WriteSets>)
    requires AboutResponses(f, l, r, lws, rws) && f.dimension != DimWriteSet
    ensures f.oracle != f.probe
  {
    if f.dimension == DimAppHash {
      if Hex(l.appHash) == Hex(r.appHash) {
        HexInjective(l.appHash, r.appHash);
        assert false;
      }
    } else {
      DifferentNumbers(l.txResults[f.txIndex].code, r.txResults[f.txIndex].code);
      DifferentNumbers(l.txResults[f.txIndex].gasUsed, r.txResults[f.txIndex].gasUsed);
    }
  }

  lemma DifferentNumbers(i: int, j: int)
    ensures FormatInt(i) == FormatInt(j) <==> i == j
  {
    if FormatInt(i) == FormatInt(j) {
      FormatIntInjective(i, j);
    }
  }

  /** There is one about the app hash exactly when the hashes differ. */
  lemma HashFindingShowsDifference(p: Pair)
    ensures HashFindings(p) != [] <==> p.left.appHash != p.right.appHash
    ensures forall f :: f in HashFindings(p) ==> f.oracle != f.probe
  {
    if p.left.appHash != p.right.appHash && Hex(p.left.appHash) == Hex(p.right.appHash) {
      HexInjective(p.left.appHash, p.right.appHash);
      assert false;
    }
  }
}
