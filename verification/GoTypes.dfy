/** The Go machine types that the model needs: bytes, byte strings and 64-bit integers. */
module GoTypes {

  type byte = b: int | 0 <= b < 256

  /** A Go `string` or `[]byte`.  Go strings are byte strings, so one type serves both. */
  type Bytes = seq<byte>

  const TWO_63: int := 0x8000_0000_0000_0000
  const TWO_64: int := 0x1_0000_0000_0000_0000

  type Int64 = i: int | -TWO_63 <= i < TWO_63
  type Uint64 = u: int | 0 <= u < TWO_64

  datatype Option<+T> = None | Some(value: T)

  /** The conversion `uint64(i)`: two's complement. */
  function ToUint64(i: Int64): (u: Uint64)
    ensures ToInt64(u) == i
  {
    if i < 0 then i + TWO_64 else i
  }

  /** The conversion `int64(u)`. */
  function ToInt64(u: Uint64): Int64 {
    if u < TWO_63 then u else u - TWO_64
  }

  /** `binary.BigEndian.PutUint64` for a field of `width` bytes. */
  function BigEndian(u: nat, width: nat): (s: Bytes)
    ensures |s| == width
  {
    if width == 0 then [] else BigEndian(u / 256, width - 1) + [u % 256]
  }

  function Power256(width: nat): (p: nat)
    ensures p > 0
  {
    if width == 0 then 1 else 256 * Power256(width - 1)
  }

  /** A number that fits is determined by its big-endian bytes. */
  lemma {:induction false} BigEndianInjective(u: nat, v: nat, width: nat)
    requires u < Power256(width) && v < Power256(width)
    requires BigEndian(u, width) == BigEndian(v, width)
    ensures u == v
  {
    if width > 0 {
      var s, t := BigEndian(u, width), BigEndian(v, width);
      assert s[width - 1] == u % 256 && t[width - 1] == v % 256;
      assert s[..width - 1] == BigEndian(u / 256, width - 1);
      assert t[..width - 1] == BigEndian(v / 256, width - 1);
      BigEndianInjective(u / 256, v / 256, width - 1);
    }
  }

  lemma EightBytes()
    ensures Power256(8) == TWO_64
  {
    assert Power256(2) == 0x1_0000;
    assert Power256(4) == 0x1_0000_0000;
    assert Power256(6) == 0x1_0000_0000_0000;
  }

  /** The first big-endian byte of a number below 2^62 is below 0x40. */
  lemma FirstByteSmall(u: Uint64)
    requires u < 0x4000_0000_0000_0000
    ensures BigEndian(u, 8)[0] < 0x40
  {
    assert BigEndian(u, 8)[0] == BigEndian(u / 256, 7)[0];
    assert BigEndian(u / 256, 7)[0] == BigEndian(u / 256 / 256, 6)[0];
    assert BigEndian(u / 256 / 256, 6)[0] == BigEndian(u / 256 / 256 / 256, 5)[0];
    var w := u / 256 / 256 / 256;
    assert BigEndian(w, 5)[0] == BigEndian(w / 256, 4)[0];
    assert BigEndian(w / 256, 4)[0] == BigEndian(w / 256 / 256, 3)[0];
    assert BigEndian(w / 256 / 256, 3)[0] == BigEndian(w / 256 / 256 / 256, 2)[0];
    var x := w / 256 / 256 / 256;
    assert BigEndian(x, 2)[0] == BigEndian(x / 256, 1)[0];
    assert BigEndian(x / 256, 1)[0] == x / 256 % 256;
  }
}
