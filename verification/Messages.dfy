/** The canary messages as the generated-style code handles them: fields updated in place, a buffer filled
    from its end. */
module Messages {
  import opened GoTypes
  import opened Varint
  import opened Wire

  /** The encodings as the code writes them. */
  function FieldBytes(num: nat, x: FieldValue): Bytes
    requires 0 < num < 16
  {
    EncodeField(AsWritten, num, x)
  }

  /** `encoded` stands at `i..end` of the buffer; the rest is as `before`. */
  ghost predicate Filled(buf: Bytes, before: Bytes, i: nat, encoded: Bytes, end: nat) {
    i <= end <= |before| && buf == before[..i] + encoded + before[end..]
  }

  /** Writing `more` just below what is written already. */
  lemma Prepend(buf: Bytes, mid: Bytes, before: Bytes, j: nat, more: Bytes, i: nat, encoded: Bytes, end: nat)
    requires j <= i && Filled(mid, before, i, encoded, end) && |encoded| == end - i
    requires Filled(buf, mid, j, more, i)
    ensures Filled(buf, before, j, more + encoded, end)
  {
    assert mid[..j] == before[..j];
    assert mid[i..] == encoded + before[end..];
    assert before[..j] + more + (encoded + before[end..]) == before[..j] + (more + encoded) + before[end..];
  }

  /** The block that marshals a string field, from its end: the bytes, their length, the tag. */
  method PutString(dAtA: array<byte>, end: nat, tag: byte, ghost num: nat, s: Bytes) returns (i: nat)
    requires 0 < num < 16 && tag == Tag(num, Str(s)) && |s| < TWO_64
    requires FieldSize(Str(s)) <= end <= dAtA.Length
    modifies dAtA
    ensures i == end - FieldSize(Str(s))
    ensures Filled(dAtA[..], old(dAtA[..]), i, FieldBytes(num, Str(s)), end)
  {
    i := end;
    ghost var before := dAtA[..];
    if |s| > 0 {
      i := i - |s|;
      CopyInto(dAtA, i, s);
      ghost var copied := dAtA[..];
      ghost var start := i;
      i := EncodeVarint(dAtA, i, |s|);
      Prepend(dAtA[..], copied, before, i, MostFirst(|s|), start, s, end);
      i := PutTag(dAtA, i, tag, before, MostFirst(|s|) + s, end);
      assert [tag] + (MostFirst(|s|) + s) == FieldBytes(num, Str(s));
    } else {
      assert before[..end] + [] + before[end..] == before;
    }
  }

  /** `copy(dAtA[i:], s)`. */
  method CopyInto(dAtA: array<byte>, i: nat, s: Bytes)
    requires i + |s| <= dAtA.Length
    modifies dAtA
    ensures Filled(dAtA[..], old(dAtA[..]), i, s, i + |s|)
  {
    forall k | 0 <= k < |s| {
      dAtA[i + k] := s[k];
    }
  }

  /** `i--; dAtA[i] = tag`. */
  method PutTag(dAtA: array<byte>, j: nat, tag: byte, ghost before: Bytes, ghost encoded: Bytes, ghost end: nat)
    returns (i: nat)
    requires 0 < j <= dAtA.Length && Filled(dAtA[..], before, j, encoded, end) && |encoded| == end - j
    modifies dAtA
    ensures i == j - 1 && Filled(dAtA[..], before, i, [tag] + encoded, end)
  {
    i := j - 1;
    ghost var mid := dAtA[..];
    dAtA[i] := tag;
    assert dAtA[..] == mid[..i] + [tag] + mid[j..];
    Prepend(dAtA[..], mid, before, i, [tag], j, encoded, end);
  }

  /** The block that marshals an integer field. */
  method PutInt(dAtA: array<byte>, end: nat, tag: byte, ghost num: nat, v: Int64) returns (i: nat)
    requires 0 < num < 16 && tag == Tag(num, Int(v))
    requires FieldSize(Int(v)) <= end <= dAtA.Length
    modifies dAtA
    ensures i == end - FieldSize(Int(v))
    ensures Filled(dAtA[..], old(dAtA[..]), i, FieldBytes(num, Int(v)), end)
  {
    i := end;
    ghost var before := dAtA[..];
    if v != 0 {
      i := EncodeVarint(dAtA, i, ToUint64(v));
      i := PutTag(dAtA, i, tag, before, MostFirst(ToUint64(v)), end);
      assert [tag] + MostFirst(ToUint64(v)) + [] == [tag] + MostFirst(ToUint64(v));
    } else {
      assert before[..end] + [] + before[end..] == before;
    }
  }

  method SizeOfString(s: Bytes) returns (n: nat)
    requires |s| < TWO_64
    ensures n == FieldSize(Str(s))
  {
    n := 0;
    if |s| > 0 {
      var sov := SovLen(|s|);
      n := n + 1 + sov + |s|;
    }
  }

  method SizeOfInt(v: Int64) returns (n: nat)
    ensures n == FieldSize(Int(v))
  {
    n := 0;
    if v != 0 {
      var sov := SovLen(ToUint64(v));
      n := n + 1 + sov;
    }
  }

  // ---------- Decoding ----------

  /** What is left of `Unmarshal`, by cursor and message so far. */
  type Rest = (nat, seq<FieldValue>) -> Outcome

  /** `rest` gives what is left of `Unmarshal` of `data`.  The loops below are proved for any such `rest`,
      which keeps the many branches of decoding out of their proofs. */
  ghost predicate IsRest(rest: Rest, data: Bytes) {
    forall i: nat, xs: seq<FieldValue> :: RestAt(rest, data, i, xs)
  }

  ghost predicate RestAt(rest: Rest, data: Bytes, i: nat, xs: seq<FieldValue>) {
    rest(i, xs) == Run(StepAt, From(data, i), i, xs)
  }

  function Resume(data: Bytes): Rest {
    (i: nat, xs: seq<FieldValue>) => Run(StepAt, From(data, i), i, xs)
  }

  lemma ResumeIsRest(data: Bytes)
    ensures IsRest(Resume(data), data)
  {
    forall i: nat, xs: seq<FieldValue>
      ensures RestAt(Resume(data), data, i, xs)
    {
    }
  }

  lemma FromFrom(data: Bytes, i: nat, n: nat)
    ensures From(From(data, i), n) == From(data, i + n)
  {
  }

  lemma GoesOn(rest: Rest, data: Bytes, i: nat, xs: seq<FieldValue>, next: nat, ys: seq<FieldValue>)
    requires IsRest(rest, data) && i < |data| && i < next && StepAt(From(data, i), i, xs) == Next(next - i, ys)
    ensures rest(i, xs) == rest(next, ys)
  {
    assert RestAt(rest, data, i, xs) && RestAt(rest, data, next, ys);
    FromFrom(data, i, next - i);
    RunGoesOn(StepAt, From(data, i), i, xs, next - i, ys, From(data, next), next);
  }

  lemma RunGoesOn(step: Stepper, b: Bytes, i: nat, xs: seq<FieldValue>, size: Positive, ys: seq<FieldValue>,
                  c: Bytes, next: nat)
    requires b != [] && step(b, i, xs) == Next(size, ys) && c == From(b, size) && next == i + size
    ensures Run(step, b, i, xs) == Run(step, c, next, ys)
  {
    RunNext(step, b, i, xs, size, ys);
  }

  lemma Returns(rest: Rest, data: Bytes, i: nat, xs: seq<FieldValue>, err: Error)
    requires IsRest(rest, data) && i < |data| && StepAt(From(data, i), i, xs) == Done(err)
    ensures rest(i, xs) == Outcome(xs, Some(err))
  {
    assert RestAt(rest, data, i, xs);
    RunDone(StepAt, From(data, i), i, xs, err);
  }

  lemma AtEnd(rest: Rest, data: Bytes, i: nat, xs: seq<FieldValue>)
    requires IsRest(rest, data) && i >= |data|
    ensures rest(i, xs) == Outcome(xs, None)
  {
    assert RestAt(rest, data, i, xs);
  }

  /** The outcome of reading a value that ends at `next`. */
  function ResultOf(value: FieldValue, start: nat, next: nat, err: Option<Error>): Reading
    requires start <= next
  {
    if err.Some? then Failed(err.value) else Read(value, next - start)
  }

  /** The case of a string field, after its tag. */
  method ReadString(data: Bytes, start: nat, wireType: nat, fieldNum: nat)
    returns (s: Bytes, iNdEx: nat, err: Option<Error>)
    requires start <= |data|
    ensures iNdEx >= start
    ensures ResultOf(Str(s), start, iNdEx, err) == ReadField(From(data, start), start, Str([]), wireType, fieldNum)
  {
    s, iNdEx, err := [], start, None;
    if wireType != 2 {
      return s, iNdEx, Some(BadWireType(wireType, fieldNum));
    }
    var (sLen, n) := Uvarint(data[iNdEx..]);
    if n <= 0 {
      return s, iNdEx, Some(UnexpectedEOF);
    }
    iNdEx := iNdEx + n;
    if iNdEx + sLen > MAX_INT {
      return s, iNdEx, Some(LengthOverflow);
    }
    if iNdEx + sLen > |data| {
      return s, iNdEx, Some(UnexpectedEOF);
    }
    s := data[iNdEx..iNdEx + sLen];
    assert s == data[start..][n..n + sLen];
    iNdEx := iNdEx + sLen;
  }

  /** The case of an integer field, after its tag. */
  method ReadInt(data: Bytes, start: nat, wireType: nat, fieldNum: nat)
    returns (v: Int64, iNdEx: nat, err: Option<Error>)
    requires start <= |data|
    ensures iNdEx >= start
    ensures ResultOf(Int(v), start, iNdEx, err) == ReadField(From(data, start), start, Int(0), wireType, fieldNum)
  {
    v, iNdEx, err := 0, start, None;
    if wireType != 0 {
      return v, iNdEx, Some(BadWireType(wireType, fieldNum));
    }
    var (u, n) := Uvarint(data[iNdEx..]);
    if n <= 0 {
      return v, iNdEx, Some(UnexpectedEOF);
    }
    v := ToInt64(u);
    iNdEx := iNdEx + n;
  }

  /** `skipField`.  The callers ignore its error, so only the cursor is returned, or `None` when the
      declared length does not fit past the cursor. */
  method SkipField(data: Bytes, start: nat, wireType: nat) returns (r: Option<nat>)
    requires start <= |data|
    ensures r == match Skip(From(data, start), start, wireType)
                 case None => None
                 case Some(size) => Some(start + size)
  {
    if wireType == 0 {
      var iNdEx := start;
      while iNdEx < |data|
        invariant start <= iNdEx <= |data|
        invariant iNdEx + SkipVarint(data[iNdEx..]) == start + SkipVarint(data[start..])
      {
        assert data[iNdEx..][1..] == data[iNdEx + 1..];
        if data[iNdEx] < 128 {
          return Some(iNdEx + 1);
        }
        iNdEx := iNdEx + 1;
      }
      return Some(|data|);
    } else if wireType == 1 {
      return Some(start + 8);
    } else if wireType == 2 {
      var (sLen, n) := Uvarint(data[start..]);
      if n <= 0 {
        return Some(start);
      }
      if start + n + sLen > MAX_INT {
        return None;
      }
      return Some(start + n + sLen);
    } else if wireType == 5 {
      return Some(start + 4);
    } else {
      return Some(start);
    }
  }

  /** Only the kind of the field that is read matters, not the value it has. */
  lemma ReadKind(data: Bytes, i: nat, x: FieldValue, wireType: nat, fieldNum: nat)
    ensures ReadField(From(data, i), i, x, wireType, fieldNum) ==
            ReadField(From(data, i), i, Default(x), wireType, fieldNum)
  {
  }

  /** A tag with this number and wire type stands at `i` and ends at `next`. */
  ghost predicate AtTag(data: Bytes, i: nat, fieldNum: nat, wireType: nat, next: nat) {
    i < next <= |data| && DecodeTag(From(data, i)) == (fieldNum, wireType, next - i)
  }

  /** The head of the loop of `Unmarshal`. */
  method ReadTag(data: Bytes, i: nat, ghost rest: Rest, ghost xs: seq<FieldValue>)
    returns (fieldNum: nat, wireType: nat, iNdEx: nat, err: Option<Error>)
    requires IsRest(rest, data) && i < |data|
    ensures err.Some? ==> rest(i, xs) == Outcome(xs, err)
    ensures err.None? ==> AtTag(data, i, fieldNum, wireType, iNdEx) && i < iNdEx <= |data|
  {
    var (num, wire, n) := DecodeTag(data[i..]);
    fieldNum, wireType, iNdEx, err := num, wire, i, None;
    if n < 0 {
      Returns(rest, data, i, xs, UnexpectedEOF);
      return fieldNum, wireType, iNdEx, Some(UnexpectedEOF);
    }
    iNdEx := i + n;
  }

  /** The step at the tag of a known field is decided by reading its value. */
  lemma StepAtField(data: Bytes, i: nat, xs: seq<FieldValue>, fieldNum: nat, wireType: nat, start: nat, r: Reading)
    requires AtTag(data, i, fieldNum, wireType, start) && 1 <= fieldNum <= |xs|
    requires r == ReadField(From(data, start), start, Default(xs[fieldNum - 1]), wireType, fieldNum)
    ensures StepAt(From(data, i), i, xs) == StepOf(r, start - i, xs, fieldNum)
  {
    assert From(data, i)[start - i..] == From(data, start);
    KnownFieldAt(From(data, i), i, xs, fieldNum, wireType, start - i, From(data, start), start);
    ReadKind(data, start, xs[fieldNum - 1], wireType, fieldNum);
  }

  lemma KnownFieldAt(b: Bytes, base: nat, xs: seq<FieldValue>, fieldNum: nat, wireType: nat, n: Positive,
                     after: Bytes, start: nat)
    requires DecodeTag(b) == (fieldNum, wireType, n) && 1 <= fieldNum <= |xs| && n <= |b|
    requires after == b[n..] && start == base + n
    ensures StepAt(b, base, xs) ==
            StepOf(ReadField(after, start, xs[fieldNum - 1], wireType, fieldNum), n, xs, fieldNum)
  {
    KnownField(b, base, xs, fieldNum, wireType, n);
  }

  /** How the loop goes on after the value of a known field. */
  lemma AfterField(rest: Rest, data: Bytes, i: nat, xs: seq<FieldValue>, fieldNum: nat, wireType: nat, start: nat,
                   value: FieldValue, iNdEx: nat, err: Option<Error>)
    requires IsRest(rest, data) && AtTag(data, i, fieldNum, wireType, start) && 1 <= fieldNum <= |xs| && iNdEx >= start
    requires ResultOf(value, start, iNdEx, err) ==
             ReadField(From(data, start), start, Default(xs[fieldNum - 1]), wireType, fieldNum)
    ensures err.Some? ==> rest(i, xs) == Outcome(xs, err)
    ensures err.None? ==> rest(i, xs) == rest(iNdEx, xs[fieldNum - 1 := value])
  {
    StepAtField(data, i, xs, fieldNum, wireType, start, ResultOf(value, start, iNdEx, err));
    if err.Some? {
      Returns(rest, data, i, xs, err.value);
    } else {
      GoesOn(rest, data, i, xs, iNdEx, xs[fieldNum - 1 := value]);
    }
  }

  lemma AfterSkip(rest: Rest, data: Bytes, i: nat, xs: seq<FieldValue>, fieldNum: nat, wireType: nat, start: nat,
                  next: Option<nat>)
    requires IsRest(rest, data) && AtTag(data, i, fieldNum, wireType, start) && !(1 <= fieldNum <= |xs|)
    requires next == match Skip(From(data, start), start, wireType)
                     case None => None
                     case Some(size) => Some(start + size)
    ensures next.None? ==> rest(i, xs) == Outcome(xs, Some(LengthOverflow))
    ensures next.Some? ==> rest(i, xs) == rest(next.value, xs)
  {
    assert From(data, i)[start - i..] == From(data, start);
    SkippedField(From(data, i), i, xs, fieldNum, wireType, start - i);
    if next.None? {
      Returns(rest, data, i, xs, LengthOverflow);
    } else {
      GoesOn(rest, data, i, xs, next.value, xs);
    }
  }

  /** The case of string field `fieldNum`: what it stores, and how the loop goes on. */
  method StringCase(data: Bytes, ghost rest: Rest, ghost i: nat, ghost xs: seq<FieldValue>, start: nat,
                    wireType: nat, fieldNum: nat)
    returns (s: Bytes, iNdEx: nat, err: Option<Error>)
    requires IsRest(rest, data) && AtTag(data, i, fieldNum, wireType, start) && start <= |data|
    requires 1 <= fieldNum <= |xs| && xs[fieldNum - 1].Str?
    ensures err.Some? ==> rest(i, xs) == Outcome(xs, err)
    ensures err.None? ==>
      iNdEx >= start && rest(i, xs) == rest(iNdEx, xs[fieldNum - 1 := Str(s)])
  {
    s, iNdEx, err := ReadString(data, start, wireType, fieldNum);
    AfterField(rest, data, i, xs, fieldNum, wireType, start, Str(s), iNdEx, err);
  }

  /** The case of integer field `fieldNum`. */
  method IntCase(data: Bytes, ghost rest: Rest, ghost i: nat, ghost xs: seq<FieldValue>, start: nat,
                 wireType: nat, fieldNum: nat)
    returns (v: Int64, iNdEx: nat, err: Option<Error>)
    requires IsRest(rest, data) && AtTag(data, i, fieldNum, wireType, start) && start <= |data|
    requires 1 <= fieldNum <= |xs| && xs[fieldNum - 1].Int?
    ensures err.Some? ==> rest(i, xs) == Outcome(xs, err)
    ensures err.None? ==>
      iNdEx >= start && rest(i, xs) == rest(iNdEx, xs[fieldNum - 1 := Int(v)])
  {
    v, iNdEx, err := ReadInt(data, start, wireType, fieldNum);
    AfterField(rest, data, i, xs, fieldNum, wireType, start, Int(v), iNdEx, err);
  }

  /** The default case: the field is skipped. */
  method SkipCase(data: Bytes, ghost rest: Rest, ghost i: nat, ghost xs: seq<FieldValue>, start: nat,
                  wireType: nat, ghost fieldNum: nat)
    returns (iNdEx: nat, err: Option<Error>)
    requires IsRest(rest, data) && AtTag(data, i, fieldNum, wireType, start) && start <= |data|
    requires !(1 <= fieldNum <= |xs|)
    ensures err.Some? ==> rest(i, xs) == Outcome(xs, err)
    ensures err.None? ==> iNdEx >= start && rest(i, xs) == rest(iNdEx, xs)
  {
    var next := SkipField(data, start, wireType);
    AfterSkip(rest, data, i, xs, fieldNum, wireType, start, next);
    match next
    case None => return start, Some(LengthOverflow);
    case Some(cursor) => return cursor, None;
  }

  // ---------- MsgCanaryMapSet ----------

  class MsgCanaryMapSet {
    var Sender: Bytes
    var Key: Bytes
    var Value: Int64

    ghost function Fields(): (xs: seq<FieldValue>)
      reads this
    {
      [Str(Sender), Str(Key), Int(Value)]
    }

    method Size() returns (n: nat)
      requires |Sender| < TWO_63 && |Key| < TWO_63
      ensures n == Wire.Size(Fields())
    {
      var a := SizeOfString(Sender);
      var b := SizeOfString(Key);
      var c := SizeOfInt(Value);
      n := a + b + c;
      SizeOfThree(Str(Sender), Str(Key), Int(Value));
    }

    /** Marshals into the last bytes of the slice `dAtA[:length]`. */
    method MarshalToSizedBuffer(dAtA: array<byte>, length: nat) returns (n: nat)
      requires |Sender| < TWO_63 && |Key| < TWO_63
      requires Wire.Size(Fields()) <= length <= dAtA.Length
      modifies dAtA
      ensures n == Wire.Size(Fields())
      ensures Filled(dAtA[..], old(dAtA[..]), length - n, EncodeFields(AsWritten, Fields(), 1), length)
    {
      SizeOfThree(Str(Sender), Str(Key), Int(Value));
      ghost var before := dAtA[..];
      var i := PutInt(dAtA, length, 0x18, 3, Value);
      ghost var c, j, mid := FieldBytes(3, Int(Value)), i, dAtA[..];
      i := PutString(dAtA, i, 0x12, 2, Key);
      Prepend(dAtA[..], mid, before, i, FieldBytes(2, Str(Key)), j, c, length);
      ghost var bc := FieldBytes(2, Str(Key)) + c;
      j, mid := i, dAtA[..];
      i := PutString(dAtA, i, 0x0a, 1, Sender);
      Prepend(dAtA[..], mid, before, i, FieldBytes(1, Str(Sender)), j, bc, length);
      EncodingOfThree(Str(Sender), Str(Key), Int(Value));
      n := length - i;
    }

    method Marshal() returns (r: Bytes)
      requires |Sender| < TWO_63 && |Key| < TWO_63
      ensures r == EncodeFields(AsWritten, [Str(Sender), Str(Key), Int(Value)], 1)
    {
      var size := Size();
      var buf := new byte[size];
      var n := MarshalToSizedBuffer(buf, size);
      assert n == size;
      r := buf[..n];
    }

    method Unmarshal(data: Bytes) returns (err: Option<Error>)
      modifies this
      ensures Outcome([Str(Sender), Str(Key), Int(Value)], err) ==
              Unmarshalled(data, old([Str(Sender), Str(Key), Int(Value)]))
    {
      ResumeIsRest(data);
      assert From(data, 0) == data;
      err := UnmarshalLoop(data, Resume(data));
    }

    /** The loop of `Unmarshal`. */
    method UnmarshalLoop(data: Bytes, ghost rest: Rest) returns (err: Option<Error>)
      requires IsRest(rest, data)
      modifies this
      ensures Outcome(Fields(), err) == rest(0, old(Fields()))
    {
      var iNdEx := 0;
      while iNdEx < |data|
        invariant rest(iNdEx, Fields()) == rest(0, old(Fields()))
        decreases |data| - iNdEx
      {
        ghost var xs, i := Fields(), iNdEx;
        var fieldNum, wireType, start, e := ReadTag(data, iNdEx, rest, xs);
        if e.Some? {
          return e;
        }
        if fieldNum == 1 {
          var s, next, e := StringCase(data, rest, i, xs, start, wireType, fieldNum);
          if e.Some? {
            return e;
          }
          Sender, iNdEx := s, next;
          assert Fields() == xs[0 := Str(s)];
        } else if fieldNum == 2 {
          var s, next, e := StringCase(data, rest, i, xs, start, wireType, fieldNum);
          if e.Some? {
            return e;
          }
          Key, iNdEx := s, next;
          assert Fields() == xs[1 := Str(s)];
        } else if fieldNum == 3 {
          var v, next, e := IntCase(data, rest, i, xs, start, wireType, fieldNum);
          if e.Some? {
            return e;
          }
          Value, iNdEx := v, next;
          assert Fields() == xs[2 := Int(v)];
        } else {
          var next, e := SkipCase(data, rest, i, xs, start, wireType, fieldNum);
          if e.Some? {
            return e;
          }
          iNdEx := next;
        }
      }
      AtEnd(rest, data, iNdEx, Fields());
      return None;
    }
  }

  lemma SizeOfThree(a: FieldValue, b: FieldValue, c: FieldValue)
    ensures Wire.Size([a, b, c]) == FieldSize(a) + FieldSize(b) + FieldSize(c)
  {
    assert [a, b, c][1..] == [b, c] && [b, c][1..] == [c];
    assert Wire.Size([c]) == FieldSize(c);
  }

  lemma EncodingOfThree(a: FieldValue, b: FieldValue, c: FieldValue)
    ensures EncodeFields(AsWritten, [a, b, c], 1) == FieldBytes(1, a) + (FieldBytes(2, b) + FieldBytes(3, c))
  {
    assert [a, b, c][1..] == [b, c] && [b, c][1..] == [c] && [c][1..] == [];
    assert FieldBytes(3, c) + [] == FieldBytes(3, c);
    assert EncodeFields(AsWritten, [c], 3) == FieldBytes(3, c);
  }

  // ---------- MsgCanaryBlockContextSet ----------

  class MsgCanaryBlockContextSet {
    var Sender: Bytes
    var Field: Bytes
    var Value: Bytes

    ghost function Fields(): (xs: seq<FieldValue>)
      reads this
    {
      [Str(Sender), Str(Field), Str(Value)]
    }

    method Size() returns (n: nat)
      requires |Sender| < TWO_63 && |Field| < TWO_63 && |Value| < TWO_63
      ensures n == Wire.Size(Fields())
    {
      var a := SizeOfString(Sender);
      var b := SizeOfString(Field);
      var c := SizeOfString(Value);
      n := a + b + c;
      SizeOfThree(Str(Sender), Str(Field), Str(Value));
    }

    method MarshalToSizedBuffer(dAtA: array<byte>, length: nat) returns (n: nat)
      requires |Sender| < TWO_63 && |Field| < TWO_63 && |Value| < TWO_63
      requires Wire.Size(Fields()) <= length <= dAtA.Length
      modifies dAtA
      ensures n == Wire.Size(Fields())
      ensures Filled(dAtA[..], old(dAtA[..]), length - n, EncodeFields(AsWritten, Fields(), 1), length)
    {
      SizeOfThree(Str(Sender), Str(Field), Str(Value));
      ghost var before := dAtA[..];
      var i := PutString(dAtA, length, 0x1a, 3, Value);
      ghost var c, j, mid := FieldBytes(3, Str(Value)), i, dAtA[..];
      i := PutString(dAtA, i, 0x12, 2, Field);
      Prepend(dAtA[..], mid, before, i, FieldBytes(2, Str(Field)), j, c, length);
      ghost var bc := FieldBytes(2, Str(Field)) + c;
      j, mid := i, dAtA[..];
      i := PutString(dAtA, i, 0x0a, 1, Sender);
      Prepend(dAtA[..], mid, before, i, FieldBytes(1, Str(Sender)), j, bc, length);
      EncodingOfThree(Str(Sender), Str(Field), Str(Value));
      n := length - i;
    }

    method Marshal() returns (r: Bytes)
      requires |Sender| < TWO_63 && |Field| < TWO_63 && |Value| < TWO_63
      ensures r == EncodeFields(AsWritten, [Str(Sender), Str(Field), Str(Value)], 1)
    {
      var size := Size();
      var buf := new byte[size];
      var n := MarshalToSizedBuffer(buf, size);
      assert n == size;
      r := buf[..n];
    }

    method Unmarshal(data: Bytes) returns (err: Option<Error>)
      modifies this
      ensures Outcome([Str(Sender), Str(Field), Str(Value)], err) ==
              Unmarshalled(data, old([Str(Sender), Str(Field), Str(Value)]))
    {
      ResumeIsRest(data);
      assert From(data, 0) == data;
      err := UnmarshalLoop(data, Resume(data));
    }

    /** The loop of `Unmarshal`. */
    method UnmarshalLoop(data: Bytes, ghost rest: Rest) returns (err: Option<Error>)
      requires IsRest(rest, data)
      modifies this
      ensures Outcome(Fields(), err) == rest(0, old(Fields()))
    {
      var iNdEx := 0;
      while iNdEx < |data|
        invariant rest(iNdEx, Fields()) == rest(0, old(Fields()))
        decreases |data| - iNdEx
      {
        ghost var xs, i := Fields(), iNdEx;
        var fieldNum, wireType, start, e := ReadTag(data, iNdEx, rest, xs);
        if e.Some? {
          return e;
        }
        if fieldNum == 1 {
          var s, next, e := StringCase(data, rest, i, xs, start, wireType, fieldNum);
          if e.Some? {
            return e;
          }
          Sender, iNdEx := s, next;
          assert Fields() == xs[0 := Str(s)];
        } else if fieldNum == 2 {
          var s, next, e := StringCase(data, rest, i, xs, start, wireType, fieldNum);
          if e.Some? {
            return e;
          }
          Field, iNdEx := s, next;
          assert Fields() == xs[1 := Str(s)];
        } else if fieldNum == 3 {
          var s, next, e := StringCase(data, rest, i, xs, start, wireType, fieldNum);
          if e.Some? {
            return e;
          }
          Value, iNdEx := s, next;
          assert Fields() == xs[2 := Str(s)];
        } else {
          var next, e := SkipCase(data, rest, i, xs, start, wireType, fieldNum);
          if e.Some? {
            return e;
          }
          iNdEx := next;
        }
      }
      AtEnd(rest, data, iNdEx, Fields());
      return None;
    }
  }

  // ---------- MsgCanaryMapReadAndWriteResponse ----------

  class MsgCanaryMapReadAndWriteResponse {
    var ObservedValue: Int64

    ghost function Fields(): (xs: seq<FieldValue>)
      reads this
    {
      [Int(ObservedValue)]
    }

    method Size() returns (n: nat)
      ensures n == Wire.Size(Fields())
    {
      n := SizeOfInt(ObservedValue);
      assert Fields()[1..] == [];
    }

    method MarshalToSizedBuffer(dAtA: array<byte>, length: nat) returns (n: nat)
      requires Wire.Size(Fields()) <= length <= dAtA.Length
      modifies dAtA
      ensures n == Wire.Size(Fields())
      ensures Filled(dAtA[..], old(dAtA[..]), length - n, EncodeFields(AsWritten, Fields(), 1), length)
    {
      assert Fields()[1..] == [];
      var i := PutInt(dAtA, length, 0x08, 1, ObservedValue);
      assert FieldBytes(1, Int(ObservedValue)) + [] == FieldBytes(1, Int(ObservedValue));
      n := length - i;
    }

    method Marshal() returns (r: Bytes)
      ensures r == EncodeFields(AsWritten, [Int(ObservedValue)], 1)
    {
      var size := Size();
      var buf := new byte[size];
      var n := MarshalToSizedBuffer(buf, size);
      assert n == size;
      r := buf[..n];
    }

    method Unmarshal(data: Bytes) returns (err: Option<Error>)
      modifies this
      ensures Outcome([Int(ObservedValue)], err) == Unmarshalled(data, old([Int(ObservedValue)]))
    {
      ResumeIsRest(data);
      assert From(data, 0) == data;
      err := UnmarshalLoop(data, Resume(data));
    }

    /** The loop of `Unmarshal`. */
    method UnmarshalLoop(data: Bytes, ghost rest: Rest) returns (err: Option<Error>)
      requires IsRest(rest, data)
      modifies this
      ensures Outcome(Fields(), err) == rest(0, old(Fields()))
    {
      var iNdEx := 0;
      while iNdEx < |data|
        invariant rest(iNdEx, Fields()) == rest(0, old(Fields()))
        decreases |data| - iNdEx
      {
        ghost var xs, i := Fields(), iNdEx;
        var fieldNum, wireType, start, e := ReadTag(data, iNdEx, rest, xs);
        if e.Some? {
          return e;
        }
        if fieldNum == 1 {
          var v, next, e := IntCase(data, rest, i, xs, start, wireType, fieldNum);
          if e.Some? {
            return e;
          }
          ObservedValue, iNdEx := v, next;
          assert Fields() == xs[0 := Int(v)];
        } else {
          var next, e := SkipCase(data, rest, i, xs, start, wireType, fieldNum);
          if e.Some? {
            return e;
          }
          iNdEx := next;
        }
      }
      AtEnd(rest, data, iNdEx, Fields());
      return None;
    }
  }
}
