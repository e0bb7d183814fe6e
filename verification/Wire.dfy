/** The hand-written protobuf codec of the canary messages, over the list of a message's fields. */
module Wire {
  import opened GoTypes
  import opened Varint

  const MAX_INT: int := TWO_63 - 1

  /** The value of field number `k + 1` at index `k`: a string (wire type 2) or an int64 (wire type 0). */
  datatype FieldValue = Str(s: Bytes) | Int(i: Int64)

  datatype Error = UnexpectedEOF | BadWireType(wireType: nat, fieldNum: nat) | LengthOverflow

  /** How varints are laid out: as `encodeVarint` is written, or as the standard prescribes. */
  datatype Order = AsWritten | Standard

  function EncodedVarint(order: Order, v: nat): (s: Bytes)
    ensures |s| == VarintLen(v)
  {
    if order.AsWritten? then MostFirst(v) else LeastFirst(v)
  }

  // ---------- Encoding ----------

  function Tag(num: nat, x: FieldValue): byte
    requires 0 < num < 16
  {
    8 * num + if x.Str? then 2 else 0
  }

  predicate IsDefault(x: FieldValue) {
    x == Str([]) || x == Int(0)
  }

  function Default(x: FieldValue): FieldValue {
    if x.Str? then Str([]) else Int(0)
  }

  /** The number that the varint of a field carries: the length of a string, or the integer itself. */
  function VarintOf(x: FieldValue): nat {
    match x
    case Str(s) => |s|
    case Int(i) => ToUint64(i)
  }

  function Payload(x: FieldValue): Bytes {
    if x.Str? then x.s else []
  }

  function EncodeField(order: Order, num: nat, x: FieldValue): Bytes
    requires 0 < num < 16
  {
    if IsDefault(x) then [] else [Tag(num, x)] + EncodedVarint(order, VarintOf(x)) + Payload(x)
  }

  /** The fields from number `num` on. */
  function EncodeFields(order: Order, xs: seq<FieldValue>, num: nat): Bytes
    requires 0 < num && num + |xs| <= 16
  {
    if xs == [] then [] else EncodeField(order, num, xs[0]) + EncodeFields(order, xs[1..], num + 1)
  }

  function FieldSize(x: FieldValue): nat {
    if IsDefault(x) then 0 else 1 + VarintLen(VarintOf(x)) + |Payload(x)|
  }

  /** `Size()`. */
  function Size(xs: seq<FieldValue>): nat {
    if xs == [] then 0 else FieldSize(xs[0]) + Size(xs[1..])
  }

  lemma {:induction false} EncodedSize(order: Order, xs: seq<FieldValue>, num: nat)
    requires 0 < num && num + |xs| <= 16
    ensures |EncodeFields(order, xs, num)| == Size(xs)
  {
    if xs != [] {
      EncodedSize(order, xs[1..], num + 1);
    }
  }

  // ---------- Decoding ----------

  /** `decodeTag`: field number, wire type and the bytes read, or -1 bytes. */
  function DecodeTag(b: Bytes): (r: (nat, nat, int))
    ensures r.2 == -1 || 0 < r.2 <= |b|
  {
    var (v, n) := Uvarint(b);
    if n <= 0 then (0, 0, -1) else (v / 8, v % 8, n)
  }

  /** The bytes up to and including the one that ends a varint, or all bytes. */
  function SkipVarint(b: Bytes): (n: nat)
    ensures n <= |b|
  {
    if b == [] then 0 else if b[0] < 128 then 1 else 1 + SkipVarint(b[1..])
  }

  /** How far `skipField` moves the cursor over the payload `b` of an unknown field, when the payload
      starts at index `base`; its error is ignored by the callers.  `None` stands for a declared length
      that an int cannot hold past the cursor. */
  function Skip(b: Bytes, base: nat, wireType: nat): Option<nat> {
    if wireType == 0 then Some(SkipVarint(b))
    else if wireType == 1 then Some(8)
    else if wireType == 2 then
      var (len, n) := Uvarint(b);
      if n <= 0 then Some(0)
      else if base + n + len > MAX_INT then None
      else Some(n + len)
    else if wireType == 5 then Some(4)
    else Some(0)
  }

  /** What `Unmarshal` leaves: the fields, and the error it returns. */
  datatype Outcome = Outcome(fields: seq<FieldValue>, err: Option<Error>)

  /** One field value read, and the bytes it took. */
  datatype Reading = Failed(err: Error) | Read(value: FieldValue, size: nat)

  /** Reading a field of the kind of `x` from `b`, which starts at index `base`, as the cases of
      `Unmarshal` do. */
  function ReadField(b: Bytes, base: nat, x: FieldValue, wireType: nat, fieldNum: nat): (r: Reading)
    ensures r.Read? ==> 0 < r.size <= |b|
  {
    if wireType != (if x.Str? then 2 else 0) then Failed(BadWireType(wireType, fieldNum))
    else
      var (v, n) := Uvarint(b);
      if n <= 0 then Failed(UnexpectedEOF)
      else if x.Int? then Read(Int(ToInt64(v)), n)
      else if base + n + v > MAX_INT then Failed(LengthOverflow)
      else if n + v > |b| then Failed(UnexpectedEOF)
      else Read(Str(b[n..n + v]), n + v)
  }

  type Positive = n: int | 0 < n witness 1

  /** One turn of the loop of `Unmarshal`: it returns, or goes on `size` bytes later. */
  datatype Step = Done(err: Error) | Next(size: Positive, fields: seq<FieldValue>)

  /** The step over the record at the start of `b`, which starts at index `base`. */
  function StepAt(b: Bytes, base: nat, xs: seq<FieldValue>): (r: Step)
    ensures r.Next? ==> |r.fields| == |xs|
  {
    var (fieldNum, wireType, n) := DecodeTag(b);
    if n < 0 then Done(UnexpectedEOF)
    else if 1 <= fieldNum <= |xs| then
      match ReadField(b[n..], base + n, xs[fieldNum - 1], wireType, fieldNum)
      case Failed(err) => Done(err)
      case Read(value, size) => Next(n + size, xs[fieldNum - 1 := value])
    else
      match Skip(b[n..], base + n, wireType)
      case None => Done(LengthOverflow)
      case Some(size) => Next(n + size, xs)
  }

  /** The step that a reading amounts to, when the tag before it took `n` bytes. */
  function StepOf(r: Reading, n: Positive, xs: seq<FieldValue>, fieldNum: nat): Step
    requires 1 <= fieldNum <= |xs|
  {
    match r
    case Failed(err) => Done(err)
    case Read(value, size) => Next(n + size, xs[fieldNum - 1 := value])
  }

  lemma KnownField(b: Bytes, base: nat, xs: seq<FieldValue>, fieldNum: nat, wireType: nat, n: Positive)
    requires DecodeTag(b) == (fieldNum, wireType, n) && 1 <= fieldNum <= |xs|
    ensures StepAt(b, base, xs) ==
            StepOf(ReadField(b[n..], base + n, xs[fieldNum - 1], wireType, fieldNum), n, xs, fieldNum)
  {
  }

  lemma SkippedField(b: Bytes, base: nat, xs: seq<FieldValue>, fieldNum: nat, wireType: nat, n: Positive)
    requires DecodeTag(b) == (fieldNum, wireType, n) && !(1 <= fieldNum <= |xs|)
    ensures StepAt(b, base, xs) ==
            match Skip(b[n..], base + n, wireType)
            case None => Done(LengthOverflow)
            case Some(size) => Next(n + size, xs)
  {
  }

  /** The bytes from index `i` on; none past the end. */
  function From(b: Bytes, i: nat): (r: Bytes) {
    if i <= |b| then b[i..] else []
  }

  type Stepper = (Bytes, nat, seq<FieldValue>) -> Step

  /** The loop that takes steps until the bytes `b` from index `base` on are used up. */
  function Run(step: Stepper, b: Bytes, base: nat, xs: seq<FieldValue>): Outcome
    decreases |b|
  {
    if b == [] then Outcome(xs, None)
    else
      match step(b, base, xs)
      case Done(err) => Outcome(xs, Some(err))
      case Next(size, ys) => Run(step, From(b, size), base + size, ys)
  }

  lemma RunNext(step: Stepper, b: Bytes, base: nat, xs: seq<FieldValue>,
                size: Positive, ys: seq<FieldValue>)
    requires b != [] && step(b, base, xs) == Next(size, ys)
    ensures Run(step, b, base, xs) == Run(step, From(b, size), base + size, ys)
  {
  }

  lemma RunDone(step: Stepper, b: Bytes, base: nat, xs: seq<FieldValue>, err: Error)
    requires b != [] && step(b, base, xs) == Done(err)
    ensures Run(step, b, base, xs) == Outcome(xs, Some(err))
  {
  }

  /** The rest of `Unmarshal` when the bytes `b` from index `base` on are left and the message holds `xs`. */
  function Decode(b: Bytes, base: nat, xs: seq<FieldValue>): Outcome {
    Run(StepAt, b, base, xs)
  }

  /** `Unmarshal` of `data` into a message that holds `xs`. */
  function Unmarshalled(data: Bytes, xs: seq<FieldValue>): Outcome {
    Decode(data, 0, xs)
  }

  /** A message with all fields at their defaults. */
  function Zero(xs: seq<FieldValue>): (zs: seq<FieldValue>)
    ensures |zs| == |xs|
    ensures forall k :: 0 <= k < |xs| ==> zs[k] == Default(xs[k])
  {
    seq(|xs|, k requires 0 <= k < |xs| => Default(xs[k]))
  }
}
