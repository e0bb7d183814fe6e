/** Joining encoded messages: the last value of a field wins, and unknown fields do not matter. */
module Records {
  import opened GoTypes
  import opened Varint
  import opened Wire

  /** Some byte of `b` ends a varint. */
  predicate Terminated(b: Bytes) {
    b != [] && (b[0] < 128 || Terminated(b[1..]))
  }

  /** The size of a payload of the wire type that lies wholly in `b`. */
  function PayloadSize(b: Bytes, wireType: nat): (r: Option<nat>)
    ensures r.Some? ==> r.value <= |b|
  {
    if wireType == 0 then if Terminated(b) then Some(SkipVarint(b)) else None
    else if wireType == 1 then if 8 <= |b| then Some(8) else None
    else if wireType == 2 then
      var (len, n) := Uvarint(b);
      if n > 0 && n + len <= |b| then Some(n + len) else None
    else if wireType == 5 then if 4 <= |b| then Some(4) else None
    else None
  }

  /** The size of the complete record that `b` starts with. */
  function RecordSize(b: Bytes): (r: Option<nat>)
    ensures r.Some? ==> 0 < r.value <= |b|
  {
    var (_, wireType, n) := DecodeTag(b);
    if n < 0 then None
    else
      match PayloadSize(b[n..], wireType)
      case None => None
      case Some(size) => Some(n + size)
  }

  type Sizer = Bytes -> Option<nat>

  /** A sequence of records, measured by `size`. */
  predicate Splits(size: Sizer, a: Bytes)
    decreases |a|
  {
    a == [] || (size(a).Some? && 0 < size(a).value <= |a| && Splits(size, a[size(a).value..]))
  }

  /** A sequence of complete records of wire types 0, 1, 2 and 5. */
  predicate WellFormed(a: Bytes) {
    Splits(RecordSize, a)
  }

  // ---------- Complete records are read alike whatever follows ----------

  lemma DropOfJoin(a: Bytes, b: Bytes, n: nat)
    requires n <= |a|
    ensures (a + b)[n..] == a[n..] + b
  {
  }

  lemma TagExtends(a: Bytes, b: Bytes)
    requires DecodeTag(a).2 > 0
    ensures DecodeTag(a + b) == DecodeTag(a)
  {
    UvarintExtends(a, b, 0);
  }

  lemma {:induction false} SkipExtends(a: Bytes, b: Bytes)
    requires Terminated(a)
    ensures SkipVarint(a + b) == SkipVarint(a)
  {
    if a[0] >= 128 {
      SkipExtends(a[1..], b);
      assert (a + b)[1..] == a[1..] + b;
    }
  }

  /** A terminated varint does not run out; if it is read, it ends where skipping it ends. */
  lemma {:induction false} TerminatedReads(a: Bytes, i: nat)
    requires i <= |a| && i <= 10 && Terminated(a[i..])
    ensures UvarintFrom(a, i).1 != 0
    ensures UvarintFrom(a, i).1 > 0 ==> UvarintFrom(a, i).1 == i + SkipVarint(a[i..])
    decreases |a| - i
  {
    assert a[i..][0] == a[i];
    if a[i] >= 128 && i < 10 {
      assert a[i..][1..] == a[i + 1..];
      TerminatedReads(a, i + 1);
    }
  }

  lemma ReadExtends(a: Bytes, b: Bytes, base: nat, x: FieldValue, wireType: nat, fieldNum: nat)
    requires PayloadSize(a, wireType).Some?
    ensures ReadField(a + b, base, x, wireType, fieldNum) == ReadField(a, base, x, wireType, fieldNum)
    ensures
      var r := ReadField(a, base, x, wireType, fieldNum);
      r.Read? ==> Some(r.size) == PayloadSize(a, wireType)
  {
    if wireType == (if x.Str? then 2 else 0) {
      assert a[0..] == a;
      if x.Int? {
        TerminatedReads(a, 0);
      }
      UvarintExtends(a, b, 0);
      var (v, n) := Uvarint(a);
      if x.Str? {
        assert (a + b)[n..n + v] == a[n..n + v];
      }
    }
  }

  lemma SkipOver(a: Bytes, b: Bytes, base: nat, wireType: nat)
    requires PayloadSize(a, wireType).Some? && base + |a| <= MAX_INT
    ensures Skip(a + b, base, wireType) == Skip(a, base, wireType) == PayloadSize(a, wireType)
  {
    if wireType == 0 {
      SkipExtends(a, b);
    } else if wireType == 2 {
      UvarintExtends(a, b, 0);
    }
  }

  lemma KnownExtends(a: Bytes, b: Bytes, base: nat, xs: seq<FieldValue>, fieldNum: nat, wireType: nat, n: Positive)
    requires DecodeTag(a) == (fieldNum, wireType, n) == DecodeTag(a + b) && 1 <= fieldNum <= |xs|
    requires PayloadSize(a[n..], wireType).Some?
    ensures StepAt(a + b, base, xs) == StepAt(a, base, xs)
    ensures StepAt(a, base, xs).Next? ==> Some(StepAt(a, base, xs).size - n) == PayloadSize(a[n..], wireType)
  {
    DropOfJoin(a, b, n);
    KnownField(a, base, xs, fieldNum, wireType, n);
    KnownField(a + b, base, xs, fieldNum, wireType, n);
    ReadExtends(a[n..], b, base + n, xs[fieldNum - 1], wireType, fieldNum);
  }

  lemma SkippedExtends(a: Bytes, b: Bytes, base: nat, xs: seq<FieldValue>, fieldNum: nat, wireType: nat, n: Positive)
    requires DecodeTag(a) == (fieldNum, wireType, n) == DecodeTag(a + b) && !(1 <= fieldNum <= |xs|)
    requires PayloadSize(a[n..], wireType).Some? && base + |a| <= MAX_INT
    ensures StepAt(a + b, base, xs) == StepAt(a, base, xs)
    ensures StepAt(a, base, xs).Next? ==> Some(StepAt(a, base, xs).size - n) == PayloadSize(a[n..], wireType)
  {
    DropOfJoin(a, b, n);
    SkippedField(a, base, xs, fieldNum, wireType, n);
    SkippedField(a + b, base, xs, fieldNum, wireType, n);
    SkipOver(a[n..], b, base + n, wireType);
  }

  /** The step over a complete record does not depend on what follows, and ends where the record ends. */
  lemma StepExtends(a: Bytes, b: Bytes, base: nat, xs: seq<FieldValue>)
    requires RecordSize(a).Some? && base + |a| <= MAX_INT
    ensures StepAt(a + b, base, xs) == StepAt(a, base, xs)
    ensures StepAt(a, base, xs).Next? ==> Some(StepAt(a, base, xs).size) == RecordSize(a)
  {
    TagExtends(a, b);
    var (fieldNum, wireType, n) := DecodeTag(a);
    if 1 <= fieldNum <= |xs| {
      KnownExtends(a, b, base, xs, fieldNum, wireType, n);
    } else {
      SkippedExtends(a, b, base, xs, fieldNum, wireType, n);
    }
  }

  /** A step over a complete record reads the same whatever follows, and uses up just the record. */
  ghost predicate ReadsRecords(step: Stepper, size: Sizer) {
    forall a: Bytes, b: Bytes, base: nat, xs: seq<FieldValue> ::
      size(a).Some? && base + |a| <= MAX_INT ==> ReadsRecord(step, size, a, b, base, xs)
  }

  ghost predicate ReadsRecord(step: Stepper, size: Sizer, a: Bytes, b: Bytes, base: nat, xs: seq<FieldValue>) {
    && step(a + b, base, xs) == step(a, base, xs)
    && (step(a, base, xs).Next? ==> Some(step(a, base, xs).size) == size(a))
  }

  /** Going on with `b` after an earlier outcome. */
  function Continue(step: Stepper, o: Outcome, b: Bytes, base: nat): Outcome {
    if o.err.None? then Run(step, b, base, o.fields) else o
  }

  /** After well-formed records, decoding goes on where they end. */
  lemma {:induction false} RunJoin(step: Stepper, size: Sizer, a: Bytes, b: Bytes, base: nat, xs: seq<FieldValue>)
    requires ReadsRecords(step, size) && Splits(size, a) && base + |a| <= MAX_INT
    ensures Run(step, a + b, base, xs) == Continue(step, Run(step, a, base, xs), b, base + |a|)
    decreases |a|
  {
    if a == [] {
      assert a + b == b;
    } else {
      assert ReadsRecord(step, size, a, b, base, xs);
      match step(a, base, xs)
      case Done(err) =>
        RunDone(step, a + b, base, xs, err);
        RunDone(step, a, base, xs, err);
      case Next(n, ys) =>
        RunNext(step, a + b, base, xs, n, ys);
        RunNext(step, a, base, xs, n, ys);
        DropOfJoin(a, b, n);
        RunJoin(step, size, a[n..], b, base + n, ys);
    }
  }

  lemma StepsReadRecords()
    ensures ReadsRecords(StepAt, RecordSize)
  {
    forall a: Bytes, b: Bytes, base: nat, xs: seq<FieldValue> | RecordSize(a).Some? && base + |a| <= MAX_INT
      ensures ReadsRecord(StepAt, RecordSize, a, b, base, xs)
    {
      StepExtends(a, b, base, xs);
    }
  }

  // ---------- The index of the first byte matters only for lengths that do not fit ----------

  /** The step is the same at a smaller index, unless a length does not fit. */
  ghost predicate Moves(step: Stepper) {
    forall b: Bytes, base: nat, base': nat, xs: seq<FieldValue> ::
      base' <= base && step(b, base, xs) != Done(LengthOverflow) ==> step(b, base', xs) == step(b, base, xs)
  }

  lemma {:induction false} RunMoves(step: Stepper, b: Bytes, base: nat, base': nat,
                                    xs: seq<FieldValue>)
    requires Moves(step) && base' <= base && Run(step, b, base, xs).err != Some(LengthOverflow)
    ensures Run(step, b, base', xs) == Run(step, b, base, xs)
    decreases |b|
  {
    if b != [] {
      match step(b, base, xs)
      case Done(err) =>
        RunDone(step, b, base, xs, err);
        assert step(b, base', xs) == Done(err);
        RunDone(step, b, base', xs, err);
      case Next(size, ys) =>
        RunNext(step, b, base, xs, size, ys);
        RunNext(step, b, base', xs, size, ys);
        RunMoves(step, From(b, size), base + size, base' + size, ys);
    }
  }

  lemma StepMoves(b: Bytes, base: nat, base': nat, xs: seq<FieldValue>)
    requires base' <= base && StepAt(b, base, xs) != Done(LengthOverflow)
    ensures StepAt(b, base', xs) == StepAt(b, base, xs)
  {
  }

  lemma StepsMove()
    ensures Moves(StepAt)
  {
    forall b: Bytes, base: nat, base': nat, xs: seq<FieldValue> |
      base' <= base && StepAt(b, base, xs) != Done(LengthOverflow)
      ensures StepAt(b, base', xs) == StepAt(b, base, xs)
    {
      StepMoves(b, base, base', xs);
    }
  }

  // ---------- The two laws ----------

  lemma RunJoined(step: Stepper, size: Sizer, a: Bytes, b: Bytes, xs: seq<FieldValue>)
    requires ReadsRecords(step, size) && Moves(step) && Splits(size, a) && |a| <= MAX_INT
    requires Run(step, a + b, 0, xs).err != Some(LengthOverflow)
    ensures Run(step, a + b, 0, xs) == Continue(step, Run(step, a, 0, xs), b, 0)
  {
    RunJoin(step, size, a, b, 0, xs);
    var first := Run(step, a, 0, xs);
    if first.err.None? {
      RunMoves(step, b, |a|, 0, first.fields);
    }
  }

  /** Decoding two record sequences joined is decoding the second on top of the first, so the last value
      of a field wins. */
  lemma LastOneWins(a: Bytes, b: Bytes, xs: seq<FieldValue>)
    requires |a| <= MAX_INT && WellFormed(a)
    requires Unmarshalled(a + b, xs).err != Some(LengthOverflow)
    ensures
      var first := Unmarshalled(a, xs);
      Unmarshalled(a + b, xs) == if first.err.None? then Unmarshalled(b, first.fields) else first
  {
    StepsReadRecords();
    StepsMove();
    RunJoined(StepAt, RecordSize, a, b, xs);
  }

  /** A complete record whose number is not a field of the message. */
  predicate UnknownRecord(u: Bytes, fieldCount: nat) {
    && RecordSize(u) == Some(|u|)
    && var (fieldNum, _, _) := DecodeTag(u); !(1 <= fieldNum <= fieldCount)
  }

  /** The step over `u` skips it. */
  ghost predicate Skips(step: Stepper, u: Bytes, fieldCount: nat) {
    forall b: Bytes, base: nat, ys: seq<FieldValue> ::
      |ys| == fieldCount && base + |u| <= MAX_INT ==> u != [] && step(u + b, base, ys) == Next(|u|, ys)
  }

  lemma UnknownSkipped(u: Bytes, b: Bytes, base: nat, ys: seq<FieldValue>)
    requires base + |u| <= MAX_INT && UnknownRecord(u, |ys|)
    ensures StepAt(u + b, base, ys) == Next(|u|, ys)
  {
    StepExtends(u, b, base, ys);
    var (_, wireType, n) := DecodeTag(u);
    SkipOver(u[n..], b, base + n, wireType);
  }

  lemma RunInserted(step: Stepper, size: Sizer, a: Bytes, u: Bytes, b: Bytes, xs: seq<FieldValue>, ys: seq<FieldValue>)
    requires ReadsRecords(step, size) && Moves(step) && Splits(size, a) && |a| + |u| <= MAX_INT
    requires Skips(step, u, |ys|) && (Run(step, a, 0, xs).err.None? ==> ys == Run(step, a, 0, xs).fields)
    requires Run(step, a + (u + b), 0, xs).err != Some(LengthOverflow)
    ensures Run(step, a + (u + b), 0, xs) == Run(step, a + b, 0, xs)
  {
    RunJoin(step, size, a, u + b, 0, xs);
    RunJoin(step, size, a, b, 0, xs);
    if Run(step, a, 0, xs).err.None? {
      RunNext(step, u + b, |a|, ys, |u|, ys);
      assert From(u + b, |u|) == b;
      RunMoves(step, b, |a| + |u|, |a|, ys);
    }
  }

  lemma {:induction false} RunKeepsCount(step: Stepper, b: Bytes, base: nat, xs: seq<FieldValue>)
    requires forall b: Bytes, base: nat, xs: seq<FieldValue> ::
      step(b, base, xs).Next? ==> |step(b, base, xs).fields| == |xs|
    ensures |Run(step, b, base, xs).fields| == |xs|
    decreases |b|
  {
    if b != [] {
      match step(b, base, xs)
      case Done(err) => RunDone(step, b, base, xs, err);
      case Next(size, ys) =>
        RunNext(step, b, base, xs, size, ys);
        RunKeepsCount(step, From(b, size), base + size, ys);
    }
  }

  /** Such a record between two others leaves the result unchanged, errors included. */
  lemma UnknownRecordIgnored(a: Bytes, u: Bytes, b: Bytes, xs: seq<FieldValue>)
    requires |a| + |u| <= MAX_INT && WellFormed(a) && UnknownRecord(u, |xs|)
    requires Unmarshalled(a + (u + b), xs).err != Some(LengthOverflow)
    ensures Unmarshalled(a + (u + b), xs) == Unmarshalled(a + b, xs)
  {
    StepsReadRecords();
    StepsMove();
    forall b: Bytes, base: nat, ys: seq<FieldValue> | |ys| == |xs| && base + |u| <= MAX_INT
      ensures u != [] && StepAt(u + b, base, ys) == Next(|u|, ys)
    {
      UnknownSkipped(u, b, base, ys);
    }
    RunKeepsCount(StepAt, a, 0, xs);
    RunInserted(StepAt, RecordSize, a, u, b, xs, Unmarshalled(a, xs).fields);
  }
}
