/** Base-128 varints: the standard form, the form `encodeVarint` writes, and Go's `binary.Uvarint`. */
module Varint {
  import opened GoTypes

  /** `v >> 7*k`. */
  function Shift(v: nat, k: nat): nat {
    if k == 0 then v else Shift(v / 128, k - 1)
  }

  /** The standard base-128 varint, least significant group first. */
  function LeastFirst(v: nat): (s: Bytes)
    ensures |s| == VarintLen(v)
  {
    if v < 128 then [v] else [v % 128 + 128] + LeastFirst(v / 128)
  }

  /** The groups in memory as `encodeVarint` leaves them: most significant first, and every group but
      that first one marked as continued. */
  function MostFirst(v: nat): (s: Bytes)
    ensures |s| == VarintLen(v)
  {
    if v < 128 then [v] else MostFirst(v / 128) + [v % 128 + 128]
  }

  function VarintLen(v: nat): (n: nat)
    ensures n > 0
  {
    if v < 128 then 1 else 1 + VarintLen(v / 128)
  }

  /** `sovLen`. */
  method SovLen(v: Uint64) returns (n: nat)
    ensures n == VarintLen(v)
  {
    var x := v;
    n := 0;
    while true
      invariant n + VarintLen(x) == VarintLen(v)
      decreases x
    {
      n := n + 1;
      x := x / 128;
      if x == 0 {
        break;
      }
    }
  }

  function Reverse(s: Bytes): (r: Bytes)
    ensures |r| == |s|
  {
    if s == [] then [] else Reverse(s[1..]) + [s[0]]
  }

  /** Read back to front, the bytes in memory are the standard varint. */
  lemma {:induction false} MostFirstReversed(v: nat)
    ensures MostFirst(v) == Reverse(LeastFirst(v))
  {
    if v >= 128 {
      MostFirstReversed(v / 128);
      assert LeastFirst(v)[1..] == LeastFirst(v / 128);
    } else {
      assert LeastFirst(v)[1..] == [];
    }
  }

  /** The most significant group. */
  function TopGroup(v: nat): (g: byte)
    ensures g < 128 && (v > 0 ==> g > 0) && g <= v && (v >= 128 ==> g < v)
  {
    if v < 128 then v else TopGroup(v / 128)
  }

  lemma {:induction false} TopGroupShift(v: nat)
    ensures TopGroup(v) == Shift(v, VarintLen(v) - 1)
  {
    if v >= 128 {
      TopGroupShift(v / 128);
    }
  }

  lemma {:induction false} MostFirstHead(v: nat)
    ensures MostFirst(v)[0] == TopGroup(v)
    ensures forall i :: 0 < i < |MostFirst(v)| ==> MostFirst(v)[i] >= 128
  {
    if v >= 128 {
      MostFirstHead(v / 128);
    }
  }

  // ---------- encodeVarint ----------

  /** The `k` lowest groups of `v`, all marked as continued, highest of them first. */
  function LowGroups(v: nat, k: nat): (s: Bytes)
    ensures |s| == k
  {
    if k == 0 then [] else LowGroups(v / 128, k - 1) + [v % 128 + 128]
  }

  lemma {:induction false} LowGroupsNext(v: nat, k: nat)
    ensures LowGroups(v, k + 1) == [Shift(v, k) % 128 + 128] + LowGroups(v, k)
  {
    if k > 0 {
      LowGroupsNext(v / 128, k - 1);
      assert LowGroups(v, k + 1) == LowGroups(v / 128, k) + [v % 128 + 128];
    }
  }

  /** The bytes are complete once the last group written is all that is left of `v`. */
  lemma {:induction false} MostFirstSplit(v: nat, k: nat)
    requires Shift(v, k) < 128 && (k > 0 ==> Shift(v, k) > 0)
    ensures MostFirst(v) == [Shift(v, k)] + LowGroups(v, k)
    ensures VarintLen(v) == k + 1
  {
    if k > 0 {
      MostFirstSplit(v / 128, k - 1);
      ShiftPositive(v, k);
    }
  }

  lemma {:induction false} ShiftPositive(v: nat, k: nat)
    requires k > 0 && Shift(v, k) > 0
    ensures v >= 128 && VarintLen(v) > k
  {
    if k > 1 {
      ShiftPositive(v / 128, k - 1);
    }
  }

  lemma {:induction false} ShiftNext(v: nat, k: nat)
    ensures Shift(v, k + 1) == Shift(v, k) / 128
  {
    if k > 0 {
      ShiftNext(v / 128, k - 1);
    }
  }

  /** `b |= 0x80`. */
  function SetTopBit(b: byte): byte {
    if b < 128 then b + 128 else b
  }

  /** Groups `0..k` of `v` are written just below `start`: the one of index `k` not marked yet, those
      below it marked.  The rest of the buffer is as `before`. */
  ghost predicate Written(buf: Bytes, before: Bytes, start: nat, v: nat, k: nat) {
    && k < start <= |before| && |buf| == |before|
    && var rest, g := Shift(v, k), buf[start - k - 1];
    && g % 128 == rest % 128 && (rest < 128 ==> g == rest)
    && buf[..start - k - 1] == before[..start - k - 1]
    && buf[start - k..start] == LowGroups(v, k)
    && buf[start..] == before[start..]
  }

  /** The buffer with the group below `j` marked as continued and the next one written. */
  function Marked(buf: Bytes, j: nat, g: byte): Bytes
    requires 0 < j < |buf|
  {
    buf[j := SetTopBit(buf[j])][j - 1 := g]
  }

  lemma MarkedParts(buf: Bytes, j: nat, end: nat, g: byte)
    requires 0 < j < end <= |buf|
    ensures Marked(buf, j, g)[..j - 1] == buf[..j - 1]
    ensures Marked(buf, j, g)[j..end] == [SetTopBit(buf[j])] + buf[j + 1..end]
    ensures Marked(buf, j, g)[end..] == buf[end..]
  {
  }

  lemma MarkedGroups(buf: Bytes, before: Bytes, start: nat, v: nat, k: nat, g: byte)
    requires 0 < k < start && Written(buf, before, start, v, k - 1)
    ensures Marked(buf, start - k, g)[start - k..start] == LowGroups(v, k)
  {
    MarkedParts(buf, start - k, start, g);
    LowGroupsNext(v, k - 1);
    assert SetTopBit(buf[start - k]) == Shift(v, k - 1) % 128 + 128;
  }

  lemma MarkedFront(buf: Bytes, before: Bytes, j: nat, g: byte)
    requires 0 < j < |buf| == |before| && buf[..j] == before[..j]
    ensures Marked(buf, j, g)[..j - 1] == before[..j - 1]
  {
    assert buf[..j - 1] == buf[..j][..j - 1];
    assert before[..j - 1] == before[..j][..j - 1];
  }

  lemma GroupStep(buf: Bytes, before: Bytes, start: nat, v: nat, k: nat, g: byte)
    requires 0 < k < start && Written(buf, before, start, v, k - 1)
    requires g == Shift(v, k) % 128
    ensures Written(buf[start - k := SetTopBit(buf[start - k])][start - k - 1 := g], before, start, v, k)
  {
    var next := Marked(buf, start - k, g);
    MarkedGroups(buf, before, start, v, k, g);
    MarkedFront(buf, before, start - k, g);
    MarkedParts(buf, start - k, start, g);
    assert next[start - k - 1] == g;
  }

  /** Mark the last group as continued and write the next one: `dAtA[offset] |= 0x80; offset--;
      dAtA[offset] = group`. */
  method NextGroup(dAtA: array<byte>, offset: nat, v: Uint64, group: byte, ghost before: Bytes, ghost start: nat,
                   ghost k: nat)
    returns (r: nat)
    requires offset + k == start && 0 < k < start && Written(dAtA[..], before, start, v, k - 1)
    requires group == Shift(v, k) % 128
    modifies dAtA
    ensures r == offset - 1 && Written(dAtA[..], before, start, v, k)
  {
    GroupStep(dAtA[..], before, start, v, k, group);
    dAtA[offset] := SetTopBit(dAtA[offset]);
    r := offset - 1;
    dAtA[r] := group;
    assert dAtA[..] == old(dAtA[..])[start - k := SetTopBit(old(dAtA[offset]))][start - k - 1 := group];
  }

  /** `encodeVarint`, as written: the low group goes to the highest index.  It touches exactly the
      `VarintLen(v)` bytes below `start`. */
  method EncodeVarint(dAtA: array<byte>, start: nat, v: Uint64) returns (offset: nat)
    requires VarintLen(v) <= start <= dAtA.Length
    modifies dAtA
    ensures offset == start - VarintLen(v)
    ensures dAtA[..] == old(dAtA[..offset]) + MostFirst(v) + old(dAtA[start..])
  {
    ghost var before := dAtA[..];
    Thresholds(v);
    offset := start - 1;
    dAtA[offset] := v % 256;
    FirstGroup(dAtA[..], before, start, v);
    ghost var k := 0;
    if v >= 0x80 {
      ShiftPositive(v, 1);
      k := 1;
      offset := NextGroup(dAtA, offset, v, LowSeven(Shift(v, 1)), before, start, k);
      if v >= 0x4000 {
        ShiftPositive(v, 2);
        k := 2;
        offset := NextGroup(dAtA, offset, v, LowSeven(Shift(v, 2)), before, start, k);
        if v >= 0x20_0000 {
          ShiftPositive(v, 3);
          k := 3;
          offset := NextGroup(dAtA, offset, v, LowSeven(Shift(v, 3)), before, start, k);
          if v >= 0x1000_0000 {
            ShiftPositive(v, 4);
            k := 4;
            offset := NextGroup(dAtA, offset, v, LowSeven(Shift(v, 4)), before, start, k);
            offset, k := EncodeHighGroups(dAtA, offset, v, before, start);
          }
        }
      }
    }
    Finished(dAtA[..], before, start, v, k);
  }

  /** The inner half of the nested tests of `encodeVarint`, for values of at least 2^28. */
  method EncodeHighGroups(dAtA: array<byte>, from: nat, v: Uint64, ghost before: Bytes, ghost start: nat)
    returns (offset: nat, ghost k: nat)
    requires from + 5 == start && VarintLen(v) <= start
    requires Written(dAtA[..], before, start, v, 4) && Shift(v, 4) > 0
    modifies dAtA
    ensures offset + k + 1 == start && k >= 4
    ensures Written(dAtA[..], before, start, v, k) && Shift(v, k) > 0 && Shift(v, k + 1) == 0
  {
    Thresholds(v);
    offset, k := from, 4;
    if v >= 0x8_0000_0000 {
      ShiftPositive(v, 5);
      k := 5;
      offset := NextGroup(dAtA, offset, v, LowSeven(Shift(v, 5)), before, start, k);
      if v >= 0x400_0000_0000 {
        ShiftPositive(v, 6);
        k := 6;
        offset := NextGroup(dAtA, offset, v, LowSeven(Shift(v, 6)), before, start, k);
        if v >= 0x2_0000_0000_0000 {
          ShiftPositive(v, 7);
          k := 7;
          offset := NextGroup(dAtA, offset, v, LowSeven(Shift(v, 7)), before, start, k);
          if v >= 0x100_0000_0000_0000 {
            ShiftPositive(v, 8);
            k := 8;
            offset := NextGroup(dAtA, offset, v, LowSeven(Shift(v, 8)), before, start, k);
            if v >= 0x8000_0000_0000_0000 {
              ShiftPositive(v, 9);
              k := 9;
              offset := NextGroup(dAtA, offset, v, 1, before, start, k);
            }
          }
        }
      }
    }
  }

  lemma ShiftConstants(v: Uint64)
    ensures Shift(v, 1) == v / 0x80 && Shift(v, 2) == v / 0x4000 && Shift(v, 3) == v / 0x20_0000
    ensures Shift(v, 4) == v / 0x1000_0000 && Shift(v, 5) == v / 0x8_0000_0000 && Shift(v, 6) == v / 0x400_0000_0000
    ensures Shift(v, 7) == v / 0x2_0000_0000_0000 && Shift(v, 8) == v / 0x100_0000_0000_0000
    ensures Shift(v, 9) == v / 0x8000_0000_0000_0000
  {
    ShiftNext(v, 0);
    ShiftNext(v, 1);
    ShiftNext(v, 2);
    ShiftNext(v, 3);
    ShiftNext(v, 4);
    ShiftNext(v, 5);
    ShiftNext(v, 6);
    ShiftNext(v, 7);
    ShiftNext(v, 8);
  }

  /** The guards of `encodeVarint` test whether a group is left. */
  lemma Thresholds(v: Uint64)
    ensures v >= 0x80 <==> Shift(v, 1) > 0
    ensures v >= 0x4000 <==> Shift(v, 2) > 0
    ensures v >= 0x20_0000 <==> Shift(v, 3) > 0
    ensures v >= 0x1000_0000 <==> Shift(v, 4) > 0
    ensures v >= 0x8_0000_0000 <==> Shift(v, 5) > 0
    ensures v >= 0x400_0000_0000 <==> Shift(v, 6) > 0
    ensures v >= 0x2_0000_0000_0000 <==> Shift(v, 7) > 0
    ensures v >= 0x100_0000_0000_0000 <==> Shift(v, 8) > 0
    ensures v >= 0x8000_0000_0000_0000 <==> Shift(v, 9) == 1
    ensures v < 0x8000_0000_0000_0000 ==> Shift(v, 9) == 0
    ensures Shift(v, 10) == 0
  {
    ShiftConstants(v);
    ShiftNext(v, 9);
  }

  /** `uint8(x) & 0x7f`: the low seven bits. */
  function LowSeven(x: nat): byte {
    x % 128
  }

  lemma FirstGroup(buf: Bytes, before: Bytes, start: nat, v: Uint64)
    requires 0 < start <= |before| && buf == before[start - 1 := v % 256]
    ensures Written(buf, before, start, v, 0)
  {
    var k := 0;
    assert Shift(v, k) == v && LowGroups(v, k) == [];
    assert v % 256 % 128 == v % 128;
    assert buf[start..] == before[start..] && buf[..start - 1] == before[..start - 1];
    assert buf[start..start] == [];
  }

  lemma Finished(buf: Bytes, before: Bytes, start: nat, v: Uint64, k: nat)
    requires Written(buf, before, start, v, k) && Shift(v, k + 1) == 0 && (k > 0 ==> Shift(v, k) > 0)
    ensures VarintLen(v) == k + 1
    ensures buf == before[..start - VarintLen(v)] + MostFirst(v) + before[start..]
  {
    ShiftNext(v, k);
    MostFirstSplit(v, k);
    assert buf == buf[..start - k - 1] + [buf[start - k - 1]] + buf[start - k..start] + buf[start..];
  }

  // ---------- binary.Uvarint ----------

  /** `binary.Uvarint`: the value and the number of bytes read; zero bytes when the input ends too early,
      a negative number when the value exceeds 64 bits. */
  function Uvarint(b: Bytes): (r: (Uint64, int))
    ensures r.1 <= |b| && r.1 <= 10
  {
    UvarintFrom(b, 0)
  }

  /** 2^(64 - 7*i): what the groups from index `i` on may amount to. */
  function Limit(i: nat): nat
    requires i <= 9
    decreases 9 - i
  {
    if i == 9 then 2 else 128 * Limit(i + 1)
  }

  lemma LimitOfAll()
    ensures Limit(0) == TWO_64
  {
    assert Limit(8) == 0x100;
    assert Limit(6) == 0x40_0000;
    assert Limit(4) == 0x10_0000_0000;
    assert Limit(2) == 0x4_0000_0000_0000;
  }

  lemma {:induction false} LimitDecreases(i: nat)
    requires i <= 9
    ensures 2 <= Limit(i) <= TWO_64
  {
    LimitOfAll();
    if i > 0 {
      LimitDecreases(i - 1);
      LimitAtLeastTwo(i);
    }
  }

  lemma {:induction false} LimitAtLeastTwo(i: nat)
    requires i <= 9
    ensures Limit(i) >= 2
    decreases 9 - i
  {
    if i < 9 {
      LimitAtLeastTwo(i + 1);
    }
  }

  /** The groups of the varint from index `i` on. */
  function UvarintFrom(b: Bytes, i: nat): (r: (Uint64, int))
    requires i <= |b| && i <= 10
    ensures r.1 <= |b| && r.1 <= 10 && (r.1 > 0 ==> r.1 > i && i < 10 && r.0 < Limit(i))
    decreases |b| - i
  {
    if i == |b| then (0, 0)
    else if i == 10 then (0, -(i + 1))
    else if b[i] < 128 then
      assert i < 9 ==> Limit(i) >= 256 by { if i < 9 { LimitAtLeastTwo(i + 1); } }
      if i == 9 && b[i] > 1 then (0, -(i + 1)) else (b[i], i + 1)
    else
      var (x, n) := UvarintFrom(b, i + 1);
      if n <= 0 then (0, n)
      else
        assert i < 9 && 128 * x + 127 < Limit(i);
        LimitDecreases(i);
        (b[i] - 128 + 128 * x, n)
  }

  /** Bytes after the end of the varint do not matter. */
  lemma {:induction false} UvarintExtends(b: Bytes, c: Bytes, i: nat)
    requires i <= |b| && i <= 10
    requires UvarintFrom(b, i).1 != 0
    ensures UvarintFrom(b + c, i) == UvarintFrom(b, i)
    decreases |b| - i
  {
    if i < 10 && b[i] >= 128 {
      UvarintExtends(b, c, i + 1);
    }
  }

  /** What is read cannot be written in fewer bytes than were read. */
  lemma {:induction false} UvarintMinimal(b: Bytes, i: nat)
    requires i <= |b| && i <= 10 && UvarintFrom(b, i).1 > 0
    ensures VarintLen(UvarintFrom(b, i).0) <= UvarintFrom(b, i).1 - i
    decreases |b| - i
  {
    if b[i] >= 128 {
      UvarintMinimal(b, i + 1);
    }
  }

  /** Reading back a standard varint that starts at byte `i`. */
  lemma {:induction false} UvarintReads(b: Bytes, i: nat, v: nat, c: Bytes)
    requires i <= |b| && i <= 9 && v < Limit(i)
    requires b[i..] == LeastFirst(v) + c
    ensures UvarintFrom(b, i) == (v, i + VarintLen(v))
    decreases v
  {
    assert b[i] == b[i..][0] == LeastFirst(v)[0];
    if v >= 128 {
      assert b[i + 1..] == b[i..][1..] == LeastFirst(v / 128) + c;
      UvarintReads(b, i + 1, v / 128, c);
    }
  }

  /** The standard varint reads back to the value it was written for. */
  lemma LeastFirstRoundTrip(v: Uint64, c: Bytes)
    ensures Uvarint(LeastFirst(v) + c) == (v, VarintLen(v))
  {
    var b := LeastFirst(v) + c;
    assert b[0..] == b;
    LimitOfAll();
    UvarintReads(b, 0, v, c);
  }

  /** What `encodeVarint` wrote reads back as its top group, in one byte: `v >> 7*(sovLen(v)-1)`.  That is
      `v` exactly when `v` is below 128. */
  lemma MostFirstReadsTopGroup(v: Uint64, c: Bytes)
    ensures Uvarint(MostFirst(v) + c) == (Shift(v, VarintLen(v) - 1), 1)
    ensures Shift(v, VarintLen(v) - 1) == TopGroup(v)
    ensures TopGroup(v) == v <==> v < 128
  {
    MostFirstHead(v);
    TopGroupShift(v);
    assert (MostFirst(v) + c)[0] == TopGroup(v);
  }
}
