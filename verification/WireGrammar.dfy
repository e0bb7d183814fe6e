/** `Unmarshal` told from the bytes alone: when a turn of its loop reads a record, what it stores, and when it fails. */
module WireGrammar {
  import opened GoTypes
  import opened Varint
  import opened Wire
  import opened Records

  // ---------- Varints ----------

  /** The bytes are base-128 groups of `v`, least significant first, all but the last marked as continued. */
  predicate IsVarint(s: Bytes, v: nat) {
    && s != []
    && if |s| == 1 then s[0] < 128 && v == s[0]
       else s[0] >= 128 && v % 128 == s[0] - 128 && IsVarint(s[1..], v / 128)
  }

  /** `b` starts with a varint of `n` bytes, at most ten, for a 64-bit number. */
  predicate VarintAt(b: Bytes, n: int, v: nat) {
    0 < n <= |b| && n <= 10 && v < 0x1_0000_0000_0000_0000 && IsVarint(b[..n], v)
  }

  lemma {:induction false} UvarintFromExactly(b: Bytes, i: nat, v: nat, n: int)
    requires i <= |b| && i <= 9
    ensures n > 0 && UvarintFrom(b, i) == (v, n) <==> i < n <= |b| && n <= 10 && v < Limit(i) && IsVarint(b[i..n], v)
    decreases |b| - i
  {
    LimitAtLeastTwo(i);
    if i < |b| {
      if b[i] < 128 {
        ShortVarint(b, i, v, n);
      } else {
        LongVarint(b, i, v, n);
        if i < 9 {
          UvarintFromExactly(b, i + 1, v / 128, n);
        }
      }
    }
  }

  lemma ShortVarint(b: Bytes, i: nat, v: nat, n: int)
    requires i < |b| && i <= 9 && b[i] < 128
    ensures i < n <= |b| && IsVarint(b[i..n], v) <==> n == i + 1 && v == b[i]
    ensures i < 9 ==> Limit(i) >= 256
  {
    if i < n <= |b| {
      assert b[i..n][0] == b[i];
    }
    if i < 9 {
      LimitAtLeastTwo(i + 1);
    }
  }

  lemma LongVarint(b: Bytes, i: nat, v: nat, n: int)
    requires i < |b| && i <= 9 && b[i] >= 128
    ensures i < n <= |b| && IsVarint(b[i..n], v) <==>
            i + 1 < n <= |b| && v % 128 == b[i] - 128 && IsVarint(b[i + 1..n], v / 128)
    ensures i < 9 ==> (v < Limit(i) <==> v / 128 < Limit(i + 1))
  {
    if i < n <= |b| {
      assert b[i..n][0] == b[i] && b[i..n][1..] == b[i + 1..n];
    }
  }

  /** `binary.Uvarint` reads exactly the varints. */
  lemma UvarintExactly(b: Bytes, v: nat, n: int)
    ensures n > 0 && Uvarint(b) == (v, n) <==> VarintAt(b, n, v)
  {
    LimitOfAll();
    UvarintFromExactly(b, 0, v, n);
    if 0 < n <= |b| {
      assert b[0..n] == b[..n];
    }
  }

  ghost predicate NoVarint(b: Bytes) {
    forall n, v: nat :: !VarintAt(b, n, v)
  }

  lemma NoVarintExactly(b: Bytes)
    ensures NoVarint(b) <==> Uvarint(b).1 <= 0
  {
    var (v, n) := Uvarint(b);
    UvarintExactly(b, v, n);
    if n <= 0 {
      forall m, w: nat
        ensures !VarintAt(b, m, w)
      {
        UvarintExactly(b, w, m);
      }
    }
  }

  // ---------- One turn of the loop ----------

  /** The largest int of 64 bits. */
  const LAST_INT: int := 0x7FFF_FFFF_FFFF_FFFF

  /** The payload `p`, which starts at index `at`, is read in `m` bytes, and the message becomes `ys`. */
  ghost predicate PayloadReads(p: Bytes, at: nat, num: nat, wire: nat, xs: seq<FieldValue>, m: int,
                               ys: seq<FieldValue>) {
    if 1 <= num <= |xs| then
      match xs[num - 1]
      case Str(_) =>
        && wire == 2 && m <= |p| && at + m <= LAST_INT
        && exists k, len: nat :: VarintAt(p, k, len) && m == k + len && ys == xs[num - 1 := Str(p[k..m])]
      case Int(_) =>
        && wire == 0
        && exists v: nat :: VarintAt(p, m, v) && ys == xs[num - 1 := Int(if v <= LAST_INT then v else v - TWO_64)]
    else
      ys == xs && Skipped(p, at, wire, m)
  }

  /** Skipping an unknown payload moves on by `m` bytes: past a varint, or to the end when it does not end; by eight or
      four bytes, even past the end; past a declared length, even past the end; and nowhere when the length is not a
      varint or the wire type is another one. */
  ghost predicate Skipped(p: Bytes, at: nat, wire: nat, m: int) {
    match wire
    case 0 =>
      && 0 <= m <= |p| && (forall j :: 0 <= j < m - 1 ==> p[j] >= 128)
      && if m > 0 && p[m - 1] < 128 then true else m == |p|
    case 1 => m == 8
    case 2 => (NoVarint(p) && m == 0) || exists k, len: nat :: VarintAt(p, k, len) && m == k + len && at + m <= LAST_INT
    case 5 => m == 4
    case _ => m == 0
  }

  /** The payload makes `Unmarshal` return an error. */
  ghost predicate PayloadFails(p: Bytes, at: nat, num: nat, wire: nat, xs: seq<FieldValue>, err: Error) {
    if 1 <= num <= |xs| then
      if wire != (if xs[num - 1].Str? then 2 else 0) then err == BadWireType(wire, num)
      else
        || (NoVarint(p) && err == UnexpectedEOF)
        || (&& xs[num - 1].Str?
            && exists k, len: nat :: VarintAt(p, k, len) && LengthFails(p, at, k + len, err))
    else
      wire == 2 && err == LengthOverflow && exists k, len: nat :: VarintAt(p, k, len) && at + k + len > LAST_INT
  }

  /** A string that would end at `end` of the payload passes the largest int, or the end of the data. */
  predicate LengthFails(p: Bytes, at: nat, end: int, err: Error) {
    if at + end > LAST_INT then err == LengthOverflow else end > |p| && err == UnexpectedEOF
  }

  /** A turn at the bytes `b`, which start at index `base`, reads `n` bytes and leaves the message `ys`. */
  ghost predicate TurnReads(b: Bytes, base: nat, xs: seq<FieldValue>, n: int, ys: seq<FieldValue>) {
    exists t, v: nat :: VarintAt(b, t, v) && PayloadReads(b[t..], base + t, v / 8, v % 8, xs, n - t, ys)
  }

  ghost predicate TurnFails(b: Bytes, base: nat, xs: seq<FieldValue>, err: Error) {
    || (NoVarint(b) && err == UnexpectedEOF)
    || exists t, v: nat :: VarintAt(b, t, v) && PayloadFails(b[t..], base + t, v / 8, v % 8, xs, err)
  }

  /** A varint is read in one way only. */
  lemma OneVarint(b: Bytes, n: int, v: nat, m: int, w: nat)
    requires VarintAt(b, n, v) && VarintAt(b, m, w)
    ensures n == m && v == w
  {
    UvarintExactly(b, v, n);
    UvarintExactly(b, w, m);
  }

  /** What `binary.Uvarint` gives, as a varint or none. */
  lemma UvarintCases(p: Bytes, n: int, v: nat)
    requires Uvarint(p) == (v, n)
    ensures n > 0 ==> VarintAt(p, n, v) && !NoVarint(p)
    ensures n > 0 ==> forall k, len: nat :: VarintAt(p, k, len) ==> k == n && len == v
    ensures n <= 0 ==> NoVarint(p)
  {
    NoVarintExactly(p);
    UvarintExactly(p, v, n);
    forall k, len: nat | n > 0 && VarintAt(p, k, len)
      ensures k == n && len == v
    {
      OneVarint(p, n, v, k, len);
    }
  }

  lemma StringReads(p: Bytes, at: nat, num: nat, wire: nat, xs: seq<FieldValue>, m: int, ys: seq<FieldValue>,
                    err: Error)
    requires 1 <= num <= |xs| && xs[num - 1].Str?
    ensures
      var r := ReadField(p, at, xs[num - 1], wire, num);
      && (r.Read? && r.size == m && xs[num - 1 := r.value] == ys <==> PayloadReads(p, at, num, wire, xs, m, ys))
      && (r == Failed(err) <==> PayloadFails(p, at, num, wire, xs, err))
  {
    var (v, n) := Uvarint(p);
    UvarintCases(p, n, v);
  }

  lemma IntReads(p: Bytes, at: nat, num: nat, wire: nat, xs: seq<FieldValue>, m: int, ys: seq<FieldValue>, err: Error)
    requires 1 <= num <= |xs| && xs[num - 1].Int?
    ensures
      var r := ReadField(p, at, xs[num - 1], wire, num);
      && (r.Read? && r.size == m && xs[num - 1 := r.value] == ys <==> PayloadReads(p, at, num, wire, xs, m, ys))
      && (r == Failed(err) <==> PayloadFails(p, at, num, wire, xs, err))
  {
    var (v, n) := Uvarint(p);
    UvarintCases(p, n, v);
  }

  lemma SkipVarintExactly(p: Bytes, m: int)
    ensures SkipVarint(p) == m <==> Skipped(p, 0, 0, m)
  {
    var n := SkipVarint(p);
    SkipsVarint(p);
  }

  lemma {:induction false} SkipsVarint(p: Bytes)
    ensures
      var n := SkipVarint(p);
      && n <= |p| && (forall j :: 0 <= j < n - 1 ==> p[j] >= 128)
      && (n < |p| ==> n > 0 && p[n - 1] < 128)
      && (p != [] ==> n > 0)
  {
    if p != [] && p[0] >= 128 {
      SkipsVarint(p[1..]);
      var n := SkipVarint(p[1..]);
      forall j | 0 <= j < n
        ensures p[j] >= 128
      {
        assert j > 0 ==> p[j] == p[1..][j - 1];
      }
      assert n > 0 ==> p[n] == p[1..][n - 1];
    }
  }

  lemma SkipExactly(p: Bytes, at: nat, num: nat, wire: nat, xs: seq<FieldValue>, m: int, ys: seq<FieldValue>,
                    err: Error)
    requires !(1 <= num <= |xs|) && wire < 8
    ensures Skip(p, at, wire) == Some(m) && ys == xs <==> m >= 0 && PayloadReads(p, at, num, wire, xs, m, ys)
    ensures Skip(p, at, wire) == None && err == LengthOverflow <==> PayloadFails(p, at, num, wire, xs, err)
  {
    if wire == 0 {
      SkipVarintExactly(p, m);
    } else if wire == 2 {
      var (v, n) := Uvarint(p);
      UvarintCases(p, n, v);
    }
  }

  /** The turn of the loop reads exactly as `TurnReads` says, and fails exactly as `TurnFails` says. */
  lemma TurnExactly(b: Bytes, base: nat, xs: seq<FieldValue>, n: int, ys: seq<FieldValue>, err: Error)
    ensures
      var r := StepAt(b, base, xs);
      && (r.Next? && r.size == n && r.fields == ys <==> TurnReads(b, base, xs, n, ys))
      && (r == Done(err) <==> TurnFails(b, base, xs, err))
  {
    var (v, t) := Uvarint(b);
    UvarintCases(b, t, v);
    if t > 0 {
      AfterTag(b, base, xs, t, v, n, ys, err);
      TagTurn(b, base, xs, t, v, n, ys);
      TagFault(b, base, xs, t, v, err);
    }
  }

  lemma TagTurn(b: Bytes, base: nat, xs: seq<FieldValue>, t: nat, v: nat, n: int, ys: seq<FieldValue>)
    requires VarintAt(b, t, v) && forall k, w: nat :: VarintAt(b, k, w) ==> k == t && w == v
    ensures TurnReads(b, base, xs, n, ys) <==> PayloadReads(b[t..], base + t, v / 8, v % 8, xs, n - t, ys)
  {
  }

  lemma TagFault(b: Bytes, base: nat, xs: seq<FieldValue>, t: nat, v: nat, err: Error)
    requires VarintAt(b, t, v) && forall k, w: nat :: VarintAt(b, k, w) ==> k == t && w == v
    ensures TurnFails(b, base, xs, err) <==> PayloadFails(b[t..], base + t, v / 8, v % 8, xs, err)
  {
  }

  lemma AfterTag(b: Bytes, base: nat, xs: seq<FieldValue>, t: Positive, v: nat, n: int, ys: seq<FieldValue>, err: Error)
    requires Uvarint(b) == (v, t) && t <= |b|
    ensures
      var r := StepAt(b, base, xs);
      && (r.Next? && r.size == n && r.fields == ys <==>
          PayloadReads(b[t..], base + t, v / 8, v % 8, xs, n - t, ys))
      && (r == Done(err) <==> PayloadFails(b[t..], base + t, v / 8, v % 8, xs, err))
  {
    var num, wire := v / 8, v % 8;
    if 1 <= num <= |xs| {
      AfterKnownTag(b, base, xs, t, num, wire, b[t..], base + t, n - t, ys, err);
    } else {
      SkippedField(b, base, xs, num, wire, t);
      SkipExactly(b[t..], base + t, num, wire, xs, n - t, ys, err);
    }
  }

  lemma AfterKnownTag(b: Bytes, base: nat, xs: seq<FieldValue>, t: Positive, num: nat, wire: nat, p: Bytes, at: nat,
                      m: int, ys: seq<FieldValue>, err: Error)
    requires DecodeTag(b) == (num, wire, t) && t <= |b| && p == b[t..] && at == base + t && 1 <= num <= |xs|
    ensures
      var r := StepAt(b, base, xs);
      && (r.Next? && r.size == t + m && r.fields == ys <==> PayloadReads(p, at, num, wire, xs, m, ys))
      && (r == Done(err) <==> PayloadFails(p, at, num, wire, xs, err))
  {
    KnownField(b, base, xs, num, wire, t);
    if xs[num - 1].Str? {
      StringReads(p, at, num, wire, xs, m, ys, err);
    } else {
      IntReads(p, at, num, wire, xs, m, ys, err);
    }
  }

  // ---------- Whole messages ----------

  /** What remains after `n` bytes; nothing when they pass the end. */
  function Drop(b: Bytes, n: nat): Bytes {
    if n <= |b| then b[n..] else []
  }

  type Reads = (Bytes, nat, seq<FieldValue>, int, seq<FieldValue>) -> bool

  type Fails = (Bytes, nat, seq<FieldValue>, Error) -> bool

  /** Turn after turn the bytes are read to their end, and the message becomes `ys`. */
  ghost predicate ReadsAll(turn: Reads, b: Bytes, base: nat, xs: seq<FieldValue>, ys: seq<FieldValue>)
    decreases |b|
  {
    if b == [] then ys == xs
    else exists n: nat, zs :: n > 0 && turn(b, base, xs, n, zs) && ReadsAll(turn, Drop(b, n), base + n, zs, ys)
  }

  /** Turn after turn the bytes are read up to one that fault, and the message has become `ys`. */
  ghost predicate FailsAt(turn: Reads, fault: Fails, b: Bytes, base: nat, xs: seq<FieldValue>, ys: seq<FieldValue>,
                          err: Error)
    decreases |b|
  {
    b != [] &&
      (|| (ys == xs && fault(b, base, xs, err))
       || exists n: nat, zs ::
            n > 0 && turn(b, base, xs, n, zs) && FailsAt(turn, fault, Drop(b, n), base + n, zs, ys, err))
  }

  ghost predicate Accepts(data: Bytes, xs: seq<FieldValue>, ys: seq<FieldValue>) {
    ReadsAll(TurnReads, data, 0, xs, ys)
  }

  ghost predicate Rejects(data: Bytes, xs: seq<FieldValue>, ys: seq<FieldValue>, err: Error) {
    FailsAt(TurnReads, TurnFails, data, 0, xs, ys, err)
  }

  /** The steps are the turns that the bytes call for. */
  ghost predicate TakesTurns(step: Stepper, turn: Reads, fault: Fails) {
    && (forall b: Bytes, base: nat, xs: seq<FieldValue>, n: int, ys: seq<FieldValue> ::
          turn(b, base, xs, n, ys) <==>
          step(b, base, xs).Next? && step(b, base, xs).size == n && step(b, base, xs).fields == ys)
    && forall b: Bytes, base: nat, xs: seq<FieldValue>, err: Error ::
          fault(b, base, xs, err) <==> step(b, base, xs) == Done(err)
  }

  lemma StepsTakeTurns()
    ensures TakesTurns(StepAt, TurnReads, TurnFails)
  {
    forall b: Bytes, base: nat, xs: seq<FieldValue>, n: int, ys: seq<FieldValue>
      ensures TurnReads(b, base, xs, n, ys) <==>
              StepAt(b, base, xs).Next? && StepAt(b, base, xs).size == n && StepAt(b, base, xs).fields == ys
    {
      TurnExactly(b, base, xs, n, ys, UnexpectedEOF);
    }
    forall b: Bytes, base: nat, xs: seq<FieldValue>, err: Error
      ensures TurnFails(b, base, xs, err) <==> StepAt(b, base, xs) == Done(err)
    {
      TurnExactly(b, base, xs, 0, xs, err);
    }
  }

  lemma {:induction false} RunAccepts(step: Stepper, turn: Reads, fault: Fails, b: Bytes, base: nat,
                                      xs: seq<FieldValue>, ys: seq<FieldValue>)
    requires TakesTurns(step, turn, fault)
    ensures Run(step, b, base, xs) == Outcome(ys, None) <==> ReadsAll(turn, b, base, xs, ys)
    decreases |b|
  {
    if b != [] {
      match step(b, base, xs)
      case Done(err) => RunDone(step, b, base, xs, err);
      case Next(size, zs) =>
        RunNext(step, b, base, xs, size, zs);
        assert turn(b, base, xs, size, zs);
        RunAccepts(step, turn, fault, Drop(b, size), base + size, zs, ys);
        assert Drop(b, size) == From(b, size);
    }
  }

  lemma {:induction false} RunRejects(step: Stepper, turn: Reads, fault: Fails, b: Bytes, base: nat,
                                      xs: seq<FieldValue>, ys: seq<FieldValue>, err: Error)
    requires TakesTurns(step, turn, fault)
    ensures Run(step, b, base, xs) == Outcome(ys, Some(err)) <==> FailsAt(turn, fault, b, base, xs, ys, err)
    decreases |b|
  {
    if b != [] {
      assert fault(b, base, xs, err) <==> step(b, base, xs) == Done(err);
      match step(b, base, xs)
      case Done(e) => RunDone(step, b, base, xs, e);
      case Next(size, zs) =>
        RunNext(step, b, base, xs, size, zs);
        assert turn(b, base, xs, size, zs);
        RunRejects(step, turn, fault, Drop(b, size), base + size, zs, ys, err);
        assert Drop(b, size) == From(b, size);
    }
  }

  /** `Unmarshal` returns no error exactly when the bytes are read to their end, and an error exactly when a turn fails
      with it; the fields are those stored up to there. */
  lemma UnmarshalExactly(data: Bytes, xs: seq<FieldValue>, ys: seq<FieldValue>, err: Error)
    ensures Unmarshalled(data, xs) == Outcome(ys, None) <==> Accepts(data, xs, ys)
    ensures Unmarshalled(data, xs) == Outcome(ys, Some(err)) <==> Rejects(data, xs, ys, err)
  {
    StepsTakeTurns();
    RunAccepts(StepAt, TurnReads, TurnFails, data, 0, xs, ys);
    RunRejects(StepAt, TurnReads, TurnFails, data, 0, xs, ys, err);
  }

  // ---------- Malformed records after well-formed ones ----------

  predicate SameKinds(xs: seq<FieldValue>, ys: seq<FieldValue>) {
    |xs| == |ys| && forall k :: 0 <= k < |xs| ==> xs[k].Str? == ys[k].Str?
  }

  ghost predicate KeepsKinds(step: Stepper) {
    forall b: Bytes, base: nat, xs: seq<FieldValue> ::
      step(b, base, xs).Next? ==> SameKinds(xs, step(b, base, xs).fields)
  }

  lemma StepsKeepKinds()
    ensures KeepsKinds(StepAt)
  {
  }

  lemma {:induction false} RunKeepsKinds(step: Stepper, b: Bytes, base: nat, xs: seq<FieldValue>)
    requires KeepsKinds(step)
    ensures SameKinds(xs, Run(step, b, base, xs).fields)
    decreases |b|
  {
    if b != [] {
      match step(b, base, xs)
      case Done(err) => RunDone(step, b, base, xs, err);
      case Next(size, zs) =>
        RunNext(step, b, base, xs, size, zs);
        RunKeepsKinds(step, From(b, size), base + size, zs);
    }
  }

  lemma RunFailsAfter(step: Stepper, size: Sizer, a: Bytes, b: Bytes, xs: seq<FieldValue>, ys: seq<FieldValue>,
                      err: Error)
    requires ReadsRecords(step, size) && Splits(size, a) && |a| <= LAST_INT && b != []
    requires Run(step, a, 0, xs) == Outcome(ys, None) && step(b, |a|, ys) == Done(err)
    ensures Run(step, a + b, 0, xs) == Outcome(ys, Some(err))
  {
    RunJoin(step, size, a, b, 0, xs);
    RunDone(step, b, |a|, ys, err);
  }

  /** What was stored when `err` came up after the records `a`, when the turn at `b` fails for fields of their kinds. */
  ghost predicate FailsForKinds(b: Bytes, base: nat, xs: seq<FieldValue>, err: Error) {
    forall ys | SameKinds(xs, ys) :: TurnFails(b, base, ys, err)
  }

  /** A turn that fails after well-formed records: the error is returned, with the fields that the records gave. */
  lemma FailsAfter(a: Bytes, b: Bytes, xs: seq<FieldValue>, err: Error)
    requires WellFormed(a) && |a| <= LAST_INT && Unmarshalled(a, xs).err == None && b != []
    requires FailsForKinds(b, |a|, xs, err)
    ensures Unmarshalled(a + b, xs) == Outcome(Unmarshalled(a, xs).fields, Some(err))
  {
    var ys := Unmarshalled(a, xs).fields;
    StepsReadRecords();
    StepsKeepKinds();
    RunKeepsKinds(StepAt, a, 0, xs);
    assert SameKinds(xs, ys);
    TurnExactly(b, |a|, ys, 0, ys, err);
    RunFailsAfter(StepAt, RecordSize, a, b, xs, ys, err);
  }

  /** A field that fails behind its tag of one byte. */
  lemma TagFails(num: nat, wire: nat, p: Bytes, base: nat, xs: seq<FieldValue>, err: Error)
    requires num < 16 && wire < 8 && PayloadFails(p, base + 1, num, wire, xs, err)
    ensures TurnFails([8 * num + wire] + p, base, xs, err)
  {
    var v := 8 * num + wire;
    var b := [v] + p;
    assert b[..1] == [v] && b[1..] == p;
    assert VarintAt(b, 1, v) && v / 8 == num && v % 8 == wire;
  }

  lemma OpenVarint(u: Bytes)
    requires forall k :: 0 <= k < |u| ==> u[k] >= 128
    ensures NoVarint(u)
  {
    forall n, v: nat
      ensures !VarintAt(u, n, v)
    {
      if 0 < n <= |u| {
        EndsLow(u[..n], v);
      }
    }
  }

  lemma {:induction false} EndsLow(s: Bytes, v: nat)
    requires s != []
    ensures IsVarint(s, v) ==> s[|s| - 1] < 128
  {
    if |s| > 1 {
      EndsLow(s[1..], v / 128);
    }
  }

  lemma StandardVarintAt(v: nat, c: Bytes)
    requires v < 0x1_0000_0000_0000_0000
    ensures VarintAt(LeastFirst(v) + c, VarintLen(v), v)
  {
    LeastFirstRoundTrip(v, c);
    UvarintExactly(LeastFirst(v) + c, v, VarintLen(v));
  }

  /** After well-formed records: a string field whose declared length passes the end of the data. */
  lemma TruncatedString(a: Bytes, num: nat, len: nat, rest: Bytes, xs: seq<FieldValue>)
    requires WellFormed(a) && Unmarshalled(a, xs).err == None
    requires 1 <= num <= |xs| < 16 && xs[num - 1].Str?
    requires |rest| < len && |a| + 1 + VarintLen(len) + len <= LAST_INT
    ensures Unmarshalled(a + ([8 * num + 2] + (LeastFirst(len) + rest)), xs) ==
            Outcome(Unmarshalled(a, xs).fields, Some(UnexpectedEOF))
  {
    var p := LeastFirst(len) + rest;
    StandardVarintAt(len, rest);
    assert LengthFails(p, |a| + 1, VarintLen(len) + len, UnexpectedEOF);
    forall ys | SameKinds(xs, ys)
      ensures TurnFails([8 * num + 2] + p, |a|, ys, UnexpectedEOF)
    {
      assert PayloadFails(p, |a| + 1, num, 2, ys, UnexpectedEOF);
      TagFails(num, 2, p, |a|, ys, UnexpectedEOF);
    }
    FailsAfter(a, [8 * num + 2] + p, xs, UnexpectedEOF);
  }

  /** After well-formed records: a field with another wire type than its own. */
  lemma OtherWireType(a: Bytes, num: nat, wire: nat, rest: Bytes, xs: seq<FieldValue>)
    requires WellFormed(a) && |a| <= LAST_INT && Unmarshalled(a, xs).err == None
    requires 1 <= num <= |xs| < 16 && wire < 8 && wire != (if xs[num - 1].Str? then 2 else 0)
    ensures Unmarshalled(a + ([8 * num + wire] + rest), xs) ==
            Outcome(Unmarshalled(a, xs).fields, Some(BadWireType(wire, num)))
  {
    forall ys | SameKinds(xs, ys)
      ensures TurnFails([8 * num + wire] + rest, |a|, ys, BadWireType(wire, num))
    {
      TagFails(num, wire, rest, |a|, ys, BadWireType(wire, num));
    }
    FailsAfter(a, [8 * num + wire] + rest, xs, BadWireType(wire, num));
  }

  /** After well-formed records: a tag that does not end. */
  lemma OpenTag(a: Bytes, u: Bytes, xs: seq<FieldValue>)
    requires WellFormed(a) && |a| <= LAST_INT && Unmarshalled(a, xs).err == None
    requires u != [] && forall k :: 0 <= k < |u| ==> u[k] >= 128
    ensures Unmarshalled(a + u, xs) == Outcome(Unmarshalled(a, xs).fields, Some(UnexpectedEOF))
  {
    OpenVarint(u);
    FailsAfter(a, u, xs, UnexpectedEOF);
  }

  lemma OpenPayload(u: Bytes, at: nat, num: nat, wire: nat, xs: seq<FieldValue>)
    requires 1 <= num <= |xs| && wire == (if xs[num - 1].Str? then 2 else 0)
    requires forall k :: 0 <= k < |u| ==> u[k] >= 128
    ensures PayloadFails(u, at, num, wire, xs, UnexpectedEOF)
  {
    OpenVarint(u);
  }

  /** After well-formed records: a field's length or number that does not end. */
  lemma OpenField(a: Bytes, num: nat, u: Bytes, xs: seq<FieldValue>)
    requires WellFormed(a) && |a| <= LAST_INT && Unmarshalled(a, xs).err == None
    requires 1 <= num <= |xs| < 16 && forall k :: 0 <= k < |u| ==> u[k] >= 128
    ensures Unmarshalled(a + ([8 * num + if xs[num - 1].Str? then 2 else 0] + u), xs) ==
            Outcome(Unmarshalled(a, xs).fields, Some(UnexpectedEOF))
  {
    var wire := if xs[num - 1].Str? then 2 else 0;
    forall ys | SameKinds(xs, ys)
      ensures TurnFails([8 * num + wire] + u, |a|, ys, UnexpectedEOF)
    {
      OpenPayload(u, |a| + 1, num, wire, ys);
      TagFails(num, wire, u, |a|, ys, UnexpectedEOF);
    }
    FailsAfter(a, [8 * num + wire] + u, xs, UnexpectedEOF);
  }

  // ---------- What is written ----------

  /** The bytes of a field: none for an empty string and for 0; else a tag, the groups of the shortest varint most
      significant first, and the bytes of the string. */
  ghost predicate WritesField(b: Bytes, num: nat, x: FieldValue) {
    if x.Str? then WritesValue(b, 8 * num + 2, |x.s|, x.s)
    else WritesValue(b, 8 * num, if x.i < 0 then x.i + TWO_64 else x.i, [])
  }

  ghost predicate WritesValue(b: Bytes, tag: nat, v: nat, payload: Bytes) {
    if v == 0 then b == [] else exists u :: ShortestVarint(u, v) && tag < 256 && b == [tag] + Reverse(u) + payload
  }

  predicate ShortestVarint(u: Bytes, v: nat) {
    IsVarint(u, v) && (|u| > 1 ==> u[|u| - 1] != 0)
  }

  /** The fields from number `num` on, in the order of their numbers. */
  ghost predicate WritesFields(b: Bytes, num: nat, xs: seq<FieldValue>)
    decreases |xs|
  {
    if xs == [] then b == []
    else exists m: nat :: m <= |b| && WritesField(b[..m], num, xs[0]) && WritesFields(b[m..], num + 1, xs[1..])
  }

  lemma {:induction false} LeastFirstIsShortest(v: nat)
    ensures ShortestVarint(LeastFirst(v), v)
  {
    if v >= 128 {
      LeastFirstIsShortest(v / 128);
      assert LeastFirst(v)[1..] == LeastFirst(v / 128);
    }
  }

  lemma FieldWritten(num: nat, x: FieldValue)
    requires 0 < num < 16
    ensures WritesField(EncodeField(AsWritten, num, x), num, x)
  {
    LeastFirstIsShortest(VarintOf(x));
    MostFirstReversed(VarintOf(x));
    assert ShortestVarint(LeastFirst(VarintOf(x)), VarintOf(x));
  }

  /** What `Marshal` returns. */
  lemma {:induction false} FieldsWritten(num: nat, xs: seq<FieldValue>)
    requires 0 < num && num + |xs| <= 16
    ensures WritesFields(EncodeFields(AsWritten, xs, num), num, xs)
    decreases |xs|
  {
    if xs != [] {
      var b, m := EncodeFields(AsWritten, xs, num), |EncodeField(AsWritten, num, xs[0])|;
      FieldWritten(num, xs[0]);
      FieldsWritten(num + 1, xs[1..]);
      assert b[..m] == EncodeField(AsWritten, num, xs[0]) && b[m..] == EncodeFields(AsWritten, xs[1..], num + 1);
    }
  }
}
