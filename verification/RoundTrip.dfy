/** When `Unmarshal` undoes `Marshal`. */
module RoundTrip {
  import opened GoTypes
  import opened Varint
  import opened Wire

  /** The varint of the field fits one group. */
  predicate OneGroup(x: FieldValue) {
    VarintOf(x) < 128
  }

  predicate AllOneGroup(xs: seq<FieldValue>) {
    forall k :: 0 <= k < |xs| ==> OneGroup(xs[k])
  }

  /** Fields before `k` are read, the others still at their defaults. */
  function Partly(xs: seq<FieldValue>, k: nat): (r: seq<FieldValue>)
    requires k <= |xs|
    ensures |r| == |xs|
  {
    xs[..k] + Zero(xs)[k..]
  }

  /** The part of the message that fields `k..` take. */
  function Suffix(order: Order, xs: seq<FieldValue>, k: nat): Bytes
    requires k <= |xs| < 15
  {
    EncodeFields(order, xs[k..], k + 1)
  }

  lemma SuffixUnfold(order: Order, xs: seq<FieldValue>, k: nat)
    requires k < |xs| < 15
    ensures Suffix(order, xs, k) == EncodeField(order, k + 1, xs[k]) + Suffix(order, xs, k + 1)
  {
    assert xs[k..][1..] == xs[k + 1..];
  }

  /** What is written after the tag of field `k`. */
  function Record(order: Order, xs: seq<FieldValue>, k: nat): Bytes
    requires k < |xs| < 15
  {
    EncodedVarint(order, VarintOf(xs[k])) + (Payload(xs[k]) + Suffix(order, xs, k + 1))
  }

  lemma AtRecord(order: Order, xs: seq<FieldValue>, k: nat)
    requires k < |xs| < 15 && !IsDefault(xs[k])
    ensures
      var s := Suffix(order, xs, k);
      && DecodeTag(s) == (k + 1, if xs[k].Str? then 2 else 0, 1)
      && s[1..] == Record(order, xs, k)
  {
    SuffixUnfold(order, xs, k);
    var x := xs[k];
    Reassociate(Tag(k + 1, x), EncodedVarint(order, VarintOf(x)), Payload(x), Suffix(order, xs, k + 1));
    var s := Suffix(order, xs, k);
    assert s == [Tag(k + 1, x)] + Record(order, xs, k);
    TagReads(s, k + 1, x);
  }

  lemma Reassociate(tag: byte, varint: Bytes, payload: Bytes, rest: Bytes)
    ensures [tag] + varint + payload + rest == [tag] + (varint + (payload + rest))
  {
  }

  lemma TagReads(b: Bytes, num: nat, x: FieldValue)
    requires 0 < num < 16 && b != [] && b[0] == Tag(num, x)
    ensures DecodeTag(b) == (num, if x.Str? then 2 else 0, 1)
  {
  }

  lemma AfterRecord(order: Order, xs: seq<FieldValue>, k: nat)
    requires k < |xs| < 15
    ensures FieldSize(xs[k]) <= |Suffix(order, xs, k)|
    ensures From(Suffix(order, xs, k), FieldSize(xs[k])) == Suffix(order, xs, k + 1)
  {
    SuffixUnfold(order, xs, k);
    assert |EncodeField(order, k + 1, xs[k])| == FieldSize(xs[k]);
  }

  /** A varint that reads back. */
  predicate Readable(order: Order, x: FieldValue) {
    order.Standard? || OneGroup(x)
  }

  lemma VarintReadsBack(order: Order, x: FieldValue, c: Bytes)
    requires Readable(order, x) && VarintOf(x) < TWO_64
    ensures Uvarint(EncodedVarint(order, VarintOf(x)) + c) == (VarintOf(x), VarintLen(VarintOf(x)))
  {
    if OneGroup(x) {
      assert MostFirst(VarintOf(x)) == LeastFirst(VarintOf(x));
    }
    LeastFirstRoundTrip(VarintOf(x), c);
  }

  lemma PayloadAt(varint: Bytes, payload: Bytes, rest: Bytes)
    ensures (varint + (payload + rest))[|varint|..|varint| + |payload|] == payload
  {
  }

  lemma ReadsString(b: Bytes, base: nat, s: Bytes, n: nat, fieldNum: nat)
    requires Uvarint(b) == (|s|, n) && 0 < n && n + |s| <= |b| && b[n..n + |s|] == s && base + |b| <= MAX_INT
    ensures ReadField(b, base, Str([]), 2, fieldNum) == Read(Str(s), n + |s|)
  {
  }

  lemma ReadsInt(b: Bytes, base: nat, i: Int64, n: nat, fieldNum: nat)
    requires Uvarint(b) == (ToUint64(i), n) && 0 < n
    ensures ReadField(b, base, Int(0), 0, fieldNum) == Read(Int(i), n)
  {
  }

  /** Reading field `k` where it was written gives it back. */
  lemma ReadsBack(order: Order, xs: seq<FieldValue>, k: nat, base: nat)
    requires k < |xs| < 15 && !IsDefault(xs[k]) && Readable(order, xs[k])
    requires base + |Record(order, xs, k)| <= MAX_INT
    ensures ReadField(Record(order, xs, k), base, Default(xs[k]), if xs[k].Str? then 2 else 0, k + 1) ==
            Read(xs[k], FieldSize(xs[k]) - 1)
  {
    var x := xs[k];
    var v, rest := VarintOf(x), Suffix(order, xs, k + 1);
    VarintReadsBack(order, x, Payload(x) + rest);
    PayloadAt(EncodedVarint(order, v), Payload(x), rest);
    if x.Str? {
      ReadsString(Record(order, xs, k), base, x.s, VarintLen(v), k + 1);
    } else {
      ReadsInt(Record(order, xs, k), base, x.i, VarintLen(v), k + 1);
    }
  }

  lemma PartlyUpdate(xs: seq<FieldValue>, zs: seq<FieldValue>, k: nat)
    requires k < |xs| == |zs|
    ensures (xs[..k] + zs[k..])[k] == zs[k]
    ensures xs[..k + 1] + zs[k + 1..] == (xs[..k] + zs[k..])[k := xs[k]]
    ensures xs[k] == zs[k] ==> xs[..k + 1] + zs[k + 1..] == xs[..k] + zs[k..]
  {
  }

  lemma PartlyNext(xs: seq<FieldValue>, k: nat)
    requires k < |xs|
    ensures Partly(xs, k)[k] == Default(xs[k])
    ensures Partly(xs, k + 1) == Partly(xs, k)[k := xs[k]]
    ensures IsDefault(xs[k]) ==> Partly(xs, k + 1) == Partly(xs, k)
  {
    PartlyUpdate(xs, Zero(xs), k);
  }

  /** The step over a written field stores what is read after the tag. */
  lemma StepStores(order: Order, xs: seq<FieldValue>, k: nat, base: nat, r: Reading)
    requires k < |xs| < 15 && !IsDefault(xs[k]) && r.Read?
    requires r == ReadField(Record(order, xs, k), base + 1, Default(xs[k]), if xs[k].Str? then 2 else 0, k + 1)
    ensures StepAt(Suffix(order, xs, k), base, Partly(xs, k)) == Next(1 + r.size, Partly(xs, k)[k := r.value])
  {
    AtRecord(order, xs, k);
    PartlyNext(xs, k);
    KnownField(Suffix(order, xs, k), base, Partly(xs, k), k + 1, if xs[k].Str? then 2 else 0, 1);
  }

  lemma StepReads(order: Order, xs: seq<FieldValue>, k: nat, base: nat)
    requires k < |xs| < 15 && !IsDefault(xs[k]) && Readable(order, xs[k])
    requires base + |Suffix(order, xs, k)| <= MAX_INT
    ensures StepAt(Suffix(order, xs, k), base, Partly(xs, k)) == Next(FieldSize(xs[k]), Partly(xs, k + 1))
  {
    AtRecord(order, xs, k);
    ReadsBack(order, xs, k, base + 1);
    PartlyNext(xs, k);
    StepStores(order, xs, k, base, Read(xs[k], FieldSize(xs[k]) - 1));
  }

  /** Where decoding stands: the bytes left, the index of the first of them, and the message so far. */
  datatype Place = Place(b: Bytes, base: nat, xs: seq<FieldValue>)

  function RunPlace(step: Stepper, p: Place): Outcome {
    Run(step, p.b, p.base, p.xs)
  }

  /** The place after one step, if decoding goes on. */
  function After(step: Stepper, p: Place): Option<Place> {
    if p.b == [] then None
    else
      match step(p.b, p.base, p.xs)
      case Done(_) => None
      case Next(size, ys) => Some(Place(From(p.b, size), p.base + size, ys))
  }

  /** The number of steps from `p` to `q`, if it is at most one. */
  function StepsTo(step: Stepper, p: Place, q: Place): Option<nat> {
    if p == q then Some(0) else if After(step, p) == Some(q) then Some(1) else None
  }

  predicate Leads(step: Stepper, p: Place, q: Place) {
    StepsTo(step, p, q).Some?
  }

  lemma LeadsOn(step: Stepper, p: Place, q: Place)
    requires Leads(step, p, q)
    ensures RunPlace(step, p) == RunPlace(step, q)
  {
    if p != q {
      match step(p.b, p.base, p.xs)
      case Next(size, ys) => RunNext(step, p.b, p.base, p.xs, size, ys);
    }
  }

  /** The place at which field `k` comes next. */
  function FieldPlace(order: Order, xs: seq<FieldValue>, k: nat, base: nat): Place
    requires k <= |xs| < 15
  {
    Place(Suffix(order, xs, k), base, Partly(xs, k))
  }

  /** The steps that get decoding past field `k`, storing it; a default field was not written at all and takes none. */
  ghost function StepsOver(step: Stepper, order: Order, xs: seq<FieldValue>, k: nat, base: nat): Option<nat>
    requires k < |xs| < 15
  {
    StepsTo(step, FieldPlace(order, xs, k, base), FieldPlace(order, xs, k + 1, base + FieldSize(xs[k])))
  }

  lemma RunEnd(step: Stepper, order: Order, xs: seq<FieldValue>, base: nat)
    requires |xs| < 15
    ensures RunPlace(step, FieldPlace(order, xs, |xs|, base)) == Outcome(xs, None)
  {
    assert xs[|xs|..] == [];
    assert xs[..|xs|] + Zero(xs)[|xs|..] == xs;
  }

  lemma SuffixShrinks(order: Order, xs: seq<FieldValue>, k: nat)
    requires k < |xs| < 15
    ensures |Suffix(order, xs, k)| == FieldSize(xs[k]) + |Suffix(order, xs, k + 1)|
  {
    AfterRecord(order, xs, k);
  }

  /** Where field `k` starts. */
  function Offset(xs: seq<FieldValue>, k: nat): nat
    requires k <= |xs|
  {
    if k == 0 then 0 else Offset(xs, k - 1) + FieldSize(xs[k - 1])
  }

  lemma {:induction false} OffsetFits(order: Order, xs: seq<FieldValue>, k: nat)
    requires k <= |xs| < 15
    ensures Offset(xs, k) + |Suffix(order, xs, k)| == |Suffix(order, xs, 0)|
  {
    if k > 0 {
      OffsetFits(order, xs, k - 1);
      SuffixShrinks(order, xs, k - 1);
    }
  }

  /** Decoding stands before field `k`. */
  function BeforeField(order: Order, xs: seq<FieldValue>, k: nat): Place
    requires k <= |xs| < 15
  {
    FieldPlace(order, xs, k, Offset(xs, k))
  }

  /** The steps over each of the first `n` fields lead to the next one. */
  lemma {:induction false} RunUpTo(step: Stepper, order: Order, xs: seq<FieldValue>, n: nat)
    requires n <= |xs| < 15
    requires forall k: nat :: k < n ==> StepsTo(step, BeforeField(order, xs, k), BeforeField(order, xs, k + 1)).Some?
    ensures RunPlace(step, BeforeField(order, xs, 0)) == RunPlace(step, BeforeField(order, xs, n))
  {
    if n > 0 {
      RunUpTo(step, order, xs, n - 1);
      LeadsOn(step, BeforeField(order, xs, n - 1), BeforeField(order, xs, n));
    }
  }

  lemma FieldStored(order: Order, xs: seq<FieldValue>, k: nat, base: nat)
    requires k < |xs| < 15 && Readable(order, xs[k]) && base + |Suffix(order, xs, k)| <= MAX_INT
    ensures StepsOver(StepAt, order, xs, k, base).Some?
  {
    if IsDefault(xs[k]) {
      DefaultSkipped(StepAt, order, xs, k, base);
    } else {
      StepReads(order, xs, k, base);
      ReadStored(StepAt, order, xs, k, base);
    }
  }

  lemma DefaultSkipped(step: Stepper, order: Order, xs: seq<FieldValue>, k: nat, base: nat)
    requires k < |xs| < 15 && IsDefault(xs[k])
    ensures StepsOver(step, order, xs, k, base) == Some(0)
  {
    AfterRecord(order, xs, k);
    PartlyNext(xs, k);
  }

  lemma ReadStored(step: Stepper, order: Order, xs: seq<FieldValue>, k: nat, base: nat)
    requires k < |xs| < 15 && !IsDefault(xs[k])
    requires step(Suffix(order, xs, k), base, Partly(xs, k)) == Next(FieldSize(xs[k]), Partly(xs, k + 1))
    ensures StepsOver(step, order, xs, k, base).Some?
  {
    AfterRecord(order, xs, k);
  }

  lemma FieldLeads(order: Order, xs: seq<FieldValue>, k: nat)
    requires k < |xs| < 15 && Readable(order, xs[k]) && |Suffix(order, xs, 0)| <= MAX_INT
    ensures StepsTo(StepAt, BeforeField(order, xs, k), BeforeField(order, xs, k + 1)).Some?
  {
    OffsetFits(order, xs, k);
    FieldStored(order, xs, k, Offset(xs, k));
    NextOffset(StepAt, order, xs, k);
  }

  lemma NextOffset(step: Stepper, order: Order, xs: seq<FieldValue>, k: nat)
    requires k < |xs| < 15
    ensures StepsTo(step, BeforeField(order, xs, k), BeforeField(order, xs, k + 1)) ==
            StepsOver(step, order, xs, k, Offset(xs, k))
  {
  }

  /** Fields whose varints read back are read one after the other. */
  lemma ReadUpTo(order: Order, xs: seq<FieldValue>, n: nat)
    requires n <= |xs| < 15 && |Suffix(order, xs, 0)| <= MAX_INT
    requires forall k :: 0 <= k < n ==> Readable(order, xs[k])
    ensures RunPlace(StepAt, BeforeField(order, xs, 0)) == RunPlace(StepAt, BeforeField(order, xs, n))
  {
    forall k: nat | k < n
      ensures StepsTo(StepAt, BeforeField(order, xs, k), BeforeField(order, xs, k + 1)).Some?
    {
      FieldLeads(order, xs, k);
    }
    RunUpTo(StepAt, order, xs, n);
  }

  /** A message whose varints all read back round-trips. */
  lemma ReadableRoundTrip(order: Order, xs: seq<FieldValue>)
    requires |xs| < 15 && Size(xs) <= MAX_INT
    requires forall k :: 0 <= k < |xs| ==> Readable(order, xs[k])
    ensures Unmarshalled(Encode(order, xs), Zero(xs)) == Outcome(xs, None)
  {
    StartsAtFieldZero(order, xs);
    ReadUpTo(order, xs, |xs|);
    RunEnd(StepAt, order, xs, Offset(xs, |xs|));
  }

  function Encode(order: Order, xs: seq<FieldValue>): Bytes
    requires |xs| < 15
  {
    EncodeFields(order, xs, 1)
  }

  lemma StartsAtFieldZero(order: Order, xs: seq<FieldValue>)
    requires |xs| < 15
    ensures Suffix(order, xs, 0) == Encode(order, xs) && |Encode(order, xs)| == Size(xs)
    ensures Partly(xs, 0) == Zero(xs)
  {
    EncodedSize(order, xs, 1);
    assert xs[0..] == xs;
  }

  /** With standard varints every message round-trips: long strings and negative integers included. */
  lemma StandardRoundTrip(xs: seq<FieldValue>)
    requires |xs| < 15 && Size(xs) <= MAX_INT
    ensures Unmarshalled(Encode(Standard, xs), Zero(xs)) == Outcome(xs, None)
  {
    ReadableRoundTrip(Standard, xs);
  }

  // ---------- What decoding can make of a given number of bytes ----------

  lemma {:induction false} SizeOfUpdate(xs: seq<FieldValue>, j: nat, x: FieldValue)
    requires j < |xs|
    ensures Size(xs[j := x]) + FieldSize(xs[j]) == Size(xs) + FieldSize(x)
  {
    if j == 0 {
      assert xs[j := x][1..] == xs[1..];
    } else {
      assert xs[j := x][1..] == xs[1..][j - 1 := x];
      SizeOfUpdate(xs[1..], j - 1, x);
    }
  }

  /** A field that is read is no longer than the bytes it is read from, tag included. */
  lemma ReadSize(b: Bytes, base: nat, x: FieldValue, wireType: nat, fieldNum: nat)
    ensures
      var r := ReadField(b, base, x, wireType, fieldNum);
      r.Read? ==> FieldSize(r.value) <= 1 + r.size
  {
    var r := ReadField(b, base, x, wireType, fieldNum);
    if r.Read? {
      UvarintMinimal(b, 0);
      var (v, n) := Uvarint(b);
      if r.value.Int? {
        assert ToUint64(ToInt64(v)) == v;
      }
    }
  }

  /** The size of the message; not recursive, so that contracts that mention it stay cheap. */
  function Bulk(xs: seq<FieldValue>): nat {
    Size(xs)
  }

  /** A step that reads `cost` bytes makes the message grow by no more than them, and if it overwrites
      field `k`, the size that field had is given up on top. */
  ghost predicate Gain(xs: seq<FieldValue>, ys: seq<FieldValue>, k: nat, cost: nat)
    requires k < |xs| == |ys|
  {
    && Bulk(ys) <= Bulk(xs) + cost
    && (ys[k] != xs[k] ==> Bulk(ys) + FieldSize(xs[k]) <= Bulk(xs) + cost)
  }

  lemma UpdateGain(xs: seq<FieldValue>, j: nat, x: FieldValue, k: nat, cost: nat)
    requires j < |xs| && k < |xs| && FieldSize(x) <= cost
    ensures Gain(xs, xs[j := x], k, cost)
  {
    SizeOfUpdate(xs, j, x);
  }

  /** No step makes the message grow by more than the bytes it uses up. */
  ghost predicate Economical(step: Stepper) {
    forall b: Bytes, base: nat, xs: seq<FieldValue>, k: nat :: k < |xs| ==> Balance(step, b, base, xs, k) >= 0
  }

  /** What remains of the bytes that the step reads, after the growth of the message and the loss of field `k`. */
  ghost function Balance(step: Stepper, b: Bytes, base: nat, xs: seq<FieldValue>, k: nat): int
    requires k < |xs|
  {
    match step(b, base, xs)
    case Done(_) => 0
    case Next(size, ys) =>
      if |ys| != |xs| then -1
      else
        var lost := if ys[k] != xs[k] then FieldSize(xs[k]) else 0;
        |b| - |From(b, size)| - (Bulk(ys) - Bulk(xs)) - lost
  }

  lemma StepsAreEconomical()
    ensures Economical(StepAt)
  {
    forall b: Bytes, base: nat, xs: seq<FieldValue>, k: nat | k < |xs|
      ensures Balance(StepAt, b, base, xs, k) >= 0
    {
      StepGain(b, base, xs, k);
    }
  }

  lemma StepGain(b: Bytes, base: nat, xs: seq<FieldValue>, k: nat)
    requires k < |xs|
    ensures Balance(StepAt, b, base, xs, k) >= 0
  {
    var (fieldNum, wireType, n) := DecodeTag(b);
    if n >= 0 {
      if 1 <= fieldNum <= |xs| {
        KnownField(b, base, xs, fieldNum, wireType, n);
        KnownGain(b, base, xs, fieldNum, wireType, n, k);
      } else {
        SkippedField(b, base, xs, fieldNum, wireType, n);
      }
    }
  }

  lemma KnownGain(b: Bytes, base: nat, xs: seq<FieldValue>, fieldNum: nat, wireType: nat, n: Positive, k: nat)
    requires n <= |b| && 1 <= fieldNum <= |xs| && k < |xs|
    ensures
      match StepOf(ReadField(b[n..], base + n, xs[fieldNum - 1], wireType, fieldNum), n, xs, fieldNum)
      case Done(_) => true
      case Next(size, ys) => |ys| == |xs| && Gain(xs, ys, k, |b| - |From(b, size)|)
  {
    var r := ReadField(b[n..], base + n, xs[fieldNum - 1], wireType, fieldNum);
    ReadSize(b[n..], base + n, xs[fieldNum - 1], wireType, fieldNum);
    if r.Read? {
      UpdateGain(xs, fieldNum - 1, r.value, k, n + r.size);
    }
  }

  /** Economical steps cannot make the message grow by more than the bytes there are. */
  lemma {:induction false} SizeBound(step: Stepper, p: Place)
    requires Economical(step) && p.xs != []
    ensures
      var o := RunPlace(step, p);
      |o.fields| == |p.xs| && (o.err.None? ==> Bulk(o.fields) <= Bulk(p.xs) + |p.b|)
    decreases |p.b|
  {
    var q := After(step, p);
    if q.None? {
      RunStops(step, p);
    } else {
      OneStepGain(step, p, q.value, 0);
      LeadsOn(step, p, q.value);
      SizeBound(step, q.value);
    }
  }

  lemma RunStops(step: Stepper, p: Place)
    requires After(step, p).None?
    ensures RunPlace(step, p).fields == p.xs
  {
    if p.b != [] {
      match step(p.b, p.base, p.xs)
      case Done(err) => RunDone(step, p.b, p.base, p.xs, err);
    }
  }

  lemma OneStepGain(step: Stepper, p: Place, q: Place, k: nat)
    requires Economical(step) && k < |p.xs| && After(step, p) == Some(q)
    ensures |q.b| < |p.b| && |q.xs| == |p.xs| && Gain(p.xs, q.xs, k, |p.b| - |q.b|)
  {
    assert Balance(step, p.b, p.base, p.xs, k) >= 0;
  }

  /** If field `k` was changed, the size it had is missing from the final message. */
  ghost predicate GivenUp(o: Outcome, xs: seq<FieldValue>, k: nat, n: nat)
    requires k < |xs|
  {
    && |o.fields| == |xs|
    && (o.err.None? && o.fields[k] != xs[k] ==> Bulk(o.fields) + FieldSize(xs[k]) <= Bulk(xs) + n)
  }

  /** If a field is overwritten, the bytes it was read from are lost for the final message. */
  lemma {:induction false} Overwritten(step: Stepper, p: Place, k: nat)
    requires Economical(step) && k < |p.xs|
    ensures GivenUp(RunPlace(step, p), p.xs, k, |p.b|)
    decreases |p.b|
  {
    var q := After(step, p);
    if q.None? {
      RunStops(step, p);
    } else {
      OneStepGain(step, p, q.value, k);
      LeadsOn(step, p, q.value);
      SizeBound(step, q.value);
      Overwritten(step, q.value, k);
      GivenUpByStep(RunPlace(step, p), p.xs, q.value.xs, k, |q.value.b|, |p.b|);
    }
  }

  /** The change comes later, or it comes now. */
  lemma GivenUpByStep(o: Outcome, xs: seq<FieldValue>, ys: seq<FieldValue>, k: nat, left: nat, n: nat)
    requires k < |xs| == |ys| && left <= n && Gain(xs, ys, k, n - left) && GivenUp(o, ys, k, left)
    requires o.err.None? ==> Bulk(o.fields) <= Bulk(ys) + left
    ensures GivenUp(o, xs, k, n)
  {
  }

  // ---------- The round trip of the code as written ----------

  /** A field whose varint has several groups is misread, in fewer bytes than it was written in. */
  lemma Misread(xs: seq<FieldValue>, k: nat, base: nat)
    requires k < |xs| < 15 && !OneGroup(xs[k]) && VarintOf(xs[k]) < TWO_64
    requires base + |Record(AsWritten, xs, k)| <= MAX_INT
    ensures
      var r := ReadField(Record(AsWritten, xs, k), base, Default(xs[k]), if xs[k].Str? then 2 else 0, k + 1);
      && r.Read? && r.value != xs[k] && r.value.Str? == xs[k].Str?
      && !IsDefault(r.value) && FieldSize(r.value) == 1 + r.size
  {
    var x := xs[k];
    MostFirstReadsTopGroup(VarintOf(x), Payload(x) + Suffix(AsWritten, xs, k + 1));
  }

  lemma {:induction false} SizeOfPartly(order: Order, xs: seq<FieldValue>, k: nat)
    requires k <= |xs| < 15
    ensures Size(Partly(xs, k)) + |Suffix(order, xs, k)| == Size(xs)
  {
    if k == 0 {
      EncodedSize(order, xs, 1);
      SizeOfZero(xs);
      assert xs[0..] == xs && Partly(xs, 0) == Zero(xs);
    } else {
      SizeOfPartly(order, xs, k - 1);
      PartlyNext(xs, k - 1);
      SizeOfUpdate(Partly(xs, k - 1), k - 1, xs[k - 1]);
      SuffixUnfold(order, xs, k - 1);
      EncodedSize(order, xs[k..], k + 1);
      EncodedSize(order, xs[k - 1..], k);
    }
  }

  lemma {:induction false} SizeOfZero(xs: seq<FieldValue>)
    ensures Size(Zero(xs)) == 0
  {
    if xs != [] {
      assert Zero(xs)[1..] == Zero(xs[1..]);
      SizeOfZero(xs[1..]);
    }
  }

  lemma StepMisreads(xs: seq<FieldValue>, k: nat, base: nat) returns (size: Positive, x: FieldValue)
    requires k < |xs| < 15 && !OneGroup(xs[k]) && base + |Suffix(AsWritten, xs, k)| <= MAX_INT
    ensures x != xs[k] && FieldSize(x) == size <= |Suffix(AsWritten, xs, k)|
    ensures StepAt(Suffix(AsWritten, xs, k), base, Partly(xs, k)) == Next(size, Partly(xs, k)[k := x])
  {
    AtRecord(AsWritten, xs, k);
    Misread(xs, k, base + 1);
    var r := ReadField(Record(AsWritten, xs, k), base + 1, Default(xs[k]), if xs[k].Str? then 2 else 0, k + 1);
    StepStores(AsWritten, xs, k, base, r);
    size, x := 1 + r.size, r.value;
  }

  /** The step over field `k` stores another value, read from fewer bytes than there are. */
  ghost predicate SpoilsWith(step: Stepper, xs: seq<FieldValue>, k: nat, base: nat, size: Positive, x: FieldValue)
    requires k < |xs| < 15
  {
    && x != xs[k] && FieldSize(x) == size <= |Suffix(AsWritten, xs, k)|
    && step(Suffix(AsWritten, xs, k), base, Partly(xs, k)) == Next(size, Partly(xs, k)[k := x])
  }

  ghost predicate Spoils(step: Stepper, xs: seq<FieldValue>, k: nat, base: nat)
    requires k < |xs| < 15
  {
    exists size: Positive, x :: SpoilsWith(step, xs, k, base, size, x)
  }

  /** A spoilt field costs bytes that the rest of the input cannot make up for. */
  lemma SpoiltMessage(step: Stepper, xs: seq<FieldValue>, k: nat, base: nat)
    requires Economical(step) && k < |xs| < 15 && Spoils(step, xs, k, base)
    ensures RunPlace(step, FieldPlace(AsWritten, xs, k, base)) != Outcome(xs, None)
  {
    var size: Positive, x :| SpoilsWith(step, xs, k, base, size, x);
    var p := FieldPlace(AsWritten, xs, k, base);
    var q := Place(From(p.b, size), base + size, p.xs[k := x]);
    LeadsOn(step, p, q);
    PartlyNext(xs, k);
    SizeOfUpdate(p.xs, k, x);
    SizeOfPartly(AsWritten, xs, k);
    TooSmall(step, q, xs, k);
  }

  lemma TooSmall(step: Stepper, q: Place, xs: seq<FieldValue>, k: nat)
    requires Economical(step) && k < |xs| == |q.xs| && q.xs[k] != xs[k]
    requires Size(q.xs) + |q.b| < Size(xs) + FieldSize(q.xs[k])
    ensures RunPlace(step, q) != Outcome(xs, None)
  {
    Overwritten(step, q, k);
  }

  /** The first field that does not read back. */
  lemma {:induction false} FirstSpoilt(xs: seq<FieldValue>) returns (j: nat)
    requires !AllOneGroup(xs)
    ensures j < |xs| && !OneGroup(xs[j]) && forall i :: 0 <= i < j ==> OneGroup(xs[i])
  {
    if OneGroup(xs[0]) {
      j := FirstSpoilt(xs[1..]);
      j := j + 1;
    } else {
      j := 0;
    }
  }

  lemma SpoiltRoundTrip(xs: seq<FieldValue>)
    requires |xs| < 15 && Size(xs) <= MAX_INT && !AllOneGroup(xs)
    ensures Unmarshalled(Encode(AsWritten, xs), Zero(xs)) != Outcome(xs, None)
  {
    StartsAtFieldZero(AsWritten, xs);
    var j := FirstSpoilt(xs);
    ReadUpTo(AsWritten, xs, j);
    SpoiltFrom(xs, j);
  }

  lemma SpoiltFrom(xs: seq<FieldValue>, j: nat)
    requires j < |xs| < 15 && !OneGroup(xs[j]) && |Suffix(AsWritten, xs, 0)| <= MAX_INT
    ensures RunPlace(StepAt, BeforeField(AsWritten, xs, j)) != Outcome(xs, None)
  {
    StepsAreEconomical();
    OffsetFits(AsWritten, xs, j);
    var size, x := StepMisreads(xs, j, Offset(xs, j));
    assert SpoilsWith(StepAt, xs, j, Offset(xs, j), size, x);
    SpoiltMessage(StepAt, xs, j, Offset(xs, j));
  }

  /** The code as written returns a message exactly when every string length and every integer is below
      128; negative integers, which take ten bytes, never survive. */
  lemma RoundTripAsWritten(xs: seq<FieldValue>)
    requires |xs| < 15 && Size(xs) <= MAX_INT
    ensures Unmarshalled(Encode(AsWritten, xs), Zero(xs)) == Outcome(xs, None) <==> AllOneGroup(xs)
  {
    if AllOneGroup(xs) {
      ReadableRoundTrip(AsWritten, xs);
    } else {
      SpoiltRoundTrip(xs);
    }
  }
}
