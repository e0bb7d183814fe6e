/** The text formats the tools rely on being readable back: decimal, hexadecimal, joined lists. */
module Text {
  import opened GoTypes

  /** A string literal of ASCII characters. */
  function Ascii(s: string): (r: Bytes)
    ensures |r| == |s|
  {
    seq(|s|, i requires 0 <= i < |s| => s[i] as int % 256)
  }

  const NUL: byte := 0x00
  const COMMA: byte := 0x2C
  const MINUS: byte := 0x2D
  const SLASH: byte := 0x2F
  const ZERO: byte := 0x30
  const COLON: byte := 0x3A
  const SEMICOLON: byte := 0x3B

  /** `fmt.Sprintf("%d", n)` for a non-negative `n`. */
  function Digits(n: nat): (s: Bytes)
    ensures |s| > 0 && forall c :: c in s ==> ZERO <= c < COLON
  {
    if n < 10 then [ZERO + n] else Digits(n / 10) + [ZERO + n % 10]
  }

  function ParseDigits(s: Bytes): int {
    if s == [] then 0 else ParseDigits(s[..|s| - 1]) * 10 + (s[|s| - 1] - ZERO)
  }

  lemma {:induction false} DigitsParse(n: nat)
    ensures ParseDigits(Digits(n)) == n
  {
    var s := Digits(n);
    if n < 10 {
      assert s[..0] == [];
    } else {
      DigitsParse(n / 10);
      assert s[..|s| - 1] == Digits(n / 10);
    }
  }

  /** `fmt.Sprintf("%v", i)` for an integer. */
  function FormatInt(i: int): (s: Bytes)
    ensures |s| > 0 && COLON !in s
  {
    if i < 0 then [MINUS] + Digits(-i) else Digits(i)
  }

  lemma FormatIntInjective(i: int, j: int)
    requires FormatInt(i) == FormatInt(j)
    ensures i == j
  {
    var s := FormatInt(i);
    if i < 0 {
      DigitsParse(-i);
      assert s[0] == MINUS && s[1..] == Digits(-i);
    } else {
      DigitsParse(i);
      assert s[0] in Digits(i);
    }
    if j < 0 {
      DigitsParse(-j);
      assert s[1..] == Digits(-j);
    } else {
      DigitsParse(j);
      assert s[0] in Digits(j);
    }
  }

  /** The ten to the power of `k`. */
  function PowerOfTen(k: nat): (p: nat)
    ensures p > 0
  {
    if k == 0 then 1 else 10 * PowerOfTen(k - 1)
  }

  /** The decimal digits, the last one first; no digit 0 comes first in a number of several digits; a minus before
      negative numbers. */
  lemma {:induction false} DigitAt(n: nat, k: nat)
    requires k < |Digits(n)|
    ensures Digits(n)[|Digits(n)| - 1 - k] == 0x30 + n / PowerOfTen(k) % 10
    ensures |Digits(n)| > 1 ==> Digits(n)[0] != 0x30
    decreases n
  {
    if n >= 10 {
      var front := Digits(n / 10);
      assert Digits(n) == front + [ZERO + n % 10];
      if k == 0 {
        DigitAt(n / 10, 0);
      } else {
        DigitAt(n / 10, k - 1);
        DivideTwice(n, PowerOfTen(k - 1));
        assert Digits(n)[|Digits(n)| - 1 - k] == front[|front| - 1 - (k - 1)];
      }
    }
  }

  lemma DivideTwice(n: nat, p: nat)
    requires p > 0
    ensures n / 10 / p == n / (10 * p)
  {
    var q, r := n / 10 / p, n / 10 % p;
    assert n / 10 == q * p + r;
    assert n == (10 * p) * q + (10 * r + n % 10);
    assert 10 * r + n % 10 < 10 * p;
    DividesTo(n, 10 * p, q, 10 * r + n % 10);
  }

  lemma DividesTo(n: nat, d: nat, q: nat, r: nat)
    requires d > 0 && n == d * q + r && r < d
    ensures n / d == q
  {
    if n / d < q {
      Multiples(d, n / d, q);
    } else if q < n / d {
      Multiples(d, q, n / d);
    }
  }

  lemma {:induction false} Multiples(d: nat, x: int, y: int)
    requires x < y
    ensures d * x + d <= d * y
    decreases y - x
  {
    assert d * y == d * (y - 1) + d;
    if x < y - 1 {
      Multiples(d, x, y - 1);
    }
  }

  lemma DecimalDigits(i: int)
    ensures i < 0 ==> FormatInt(i) == [0x2D] + FormatInt(-i)
    ensures i >= 0 ==> forall k :: 0 <= k < |FormatInt(i)| ==>
                                     FormatInt(i)[|FormatInt(i)| - 1 - k] == 0x30 + i / PowerOfTen(k) % 10
    ensures i >= 0 && |FormatInt(i)| > 1 ==> FormatInt(i)[0] != 0x30
  {
    if i >= 0 {
      forall k | 0 <= k < |FormatInt(i)|
        ensures FormatInt(i)[|FormatInt(i)| - 1 - k] == 0x30 + i / PowerOfTen(k) % 10
        ensures |FormatInt(i)| > 1 ==> FormatInt(i)[0] != 0x30
      {
        DigitAt(i, k);
      }
      DigitAt(i, 0);
    }
  }

  function HexDigit(n: nat): byte
    requires n < 16
  {
    if n < 10 then 0x30 + n else 0x57 + n
  }

  /** `hex.EncodeToString`. */
  function Hex(key: Bytes): (s: Bytes)
    ensures |s| == 2 * |key|
    ensures forall c :: c in s ==> 0x30 <= c <= 0x39 || 0x61 <= c <= 0x66
  {
    if key == [] then [] else [HexDigit(key[0] / 16), HexDigit(key[0] % 16)] + Hex(key[1..])
  }

  /** Two digits for each byte, the high half first. */
  lemma HexDigits(key: Bytes, k: nat)
    requires k < |key|
    ensures Hex(key)[2 * k] == "0123456789abcdef"[key[k] / 16] as int
    ensures Hex(key)[2 * k + 1] == "0123456789abcdef"[key[k] % 16] as int
  {
    HexAt(key, k);
    HexDigitText(key[k] / 16);
    HexDigitText(key[k] % 16);
  }

  lemma HexDigitText(n: nat)
    requires n < 16
    ensures HexDigit(n) == "0123456789abcdef"[n] as int
  {
  }

  lemma {:induction false} HexAt(key: Bytes, k: nat)
    requires k < |key|
    ensures Hex(key)[2 * k] == HexDigit(key[k] / 16) && Hex(key)[2 * k + 1] == HexDigit(key[k] % 16)
  {
    if k > 0 {
      HexAt(key[1..], k - 1);
    }
  }

  lemma {:induction false} HexInjective(a: Bytes, b: Bytes)
    requires Hex(a) == Hex(b)
    ensures a == b
  {
    assert |a| == |b|;
    if a != [] {
      assert Hex(a)[0] == HexDigit(a[0] / 16) && Hex(a)[1] == HexDigit(a[0] % 16);
      assert Hex(b)[0] == HexDigit(b[0] / 16) && Hex(b)[1] == HexDigit(b[0] % 16);
      assert Hex(a)[2..] == Hex(a[1..]) && Hex(b)[2..] == Hex(b[1..]);
      HexInjective(a[1..], b[1..]);
      assert a == [a[0]] + a[1..] && b == [b[0]] + b[1..];
    }
  }

  /** `strings.Join(parts, sep)` for a one-byte separator. */
  function Join(parts: seq<Bytes>, sep: byte): Bytes {
    if parts == [] then []
    else parts[0] + if |parts| == 1 then [] else [sep] + Join(parts[1..], sep)
  }

  /** What a joined list holds after its first part. */
  function Tail(parts: seq<Bytes>, sep: byte): Bytes
    requires parts != []
  {
    if |parts| == 1 then [] else [sep] + Join(parts[1..], sep)
  }

  /** The parts a joined list can be split into again. */
  ghost predicate Joinable(parts: seq<Bytes>, sep: byte) {
    forall p :: p in parts ==> p != [] && sep !in p
  }

  /** Two strings without a separator, each followed by nothing or by a separator, are told apart. */
  lemma SplitAtSeparator(p: Bytes, x: Bytes, q: Bytes, y: Bytes, sep: byte)
    requires sep !in p && sep !in q
    requires x == [] || x[0] == sep
    requires y == [] || y[0] == sep
    requires p + x == q + y
    ensures p == q && x == y
  {
    var s := p + x;
    assert (forall k :: 0 <= k < |p| ==> s[k] == p[k]) && (x != [] ==> s[|p|] == x[0]);
    assert (forall k :: 0 <= k < |q| ==> s[k] == q[k]) && (y != [] ==> s[|q|] == y[0]);
    assert |p| == |q|;
    assert p == s[..|p|] && q == s[..|p|];
    assert x == s[|p|..] && y == s[|p|..];
  }

  lemma {:induction false} JoinInjective(a: seq<Bytes>, b: seq<Bytes>, sep: byte)
    requires Joinable(a, sep) && Joinable(b, sep)
    requires Join(a, sep) == Join(b, sep)
    ensures a == b
  {
    assert (a != [] ==> a[0] in a) && (b != [] ==> b[0] in b);
    if a != [] {
      if b != [] {
        SplitAtSeparator(a[0], Tail(a, sep), b[0], Tail(b, sep), sep);
        if |a| > 1 && |b| > 1 {
          assert Tail(a, sep)[1..] == Join(a[1..], sep);
          assert Tail(b, sep)[1..] == Join(b[1..], sep);
          assert forall p :: p in a[1..] ==> p in a;
          assert forall p :: p in b[1..] ==> p in b;
          JoinInjective(a[1..], b[1..], sep);
          assert a == [a[0]] + a[1..] && b == [b[0]] + b[1..];
        }
      }
    }
  }
}
