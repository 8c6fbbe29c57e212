/** The pieces of a changeset's identity hash that are not SHA-1 itself: UTF-8 encoding of the
    preimage and the lowercase base-16 rendering of the digest. SHA-1 (FIPS 180-4) is left
    uninterpreted: it is a function value of type `Sha1`, supplied by whoever uses the model. */
module Hashing {
  import opened Text

  newtype byte = x: int | 0 <= x < 256

  /** A SHA-1 digest: 20 bytes. */
  type Digest = d: seq<byte> | |d| == 20 witness seq(20, i => 0 as byte)

  /** SHA-1 as a black box from messages to digests. */
  type Sha1 = seq<byte> -> Digest

  /** The UTF-8 encoding of one Unicode scalar value. */
  function Utf8Char(c: char): (r: seq<byte>)
    ensures 1 <= |r| <= 4
    ensures c as int < 0x80 ==> r == [c as int as byte]
  {
    var n := c as int;
    if n < 0x80 then [n as byte]
    else if n < 0x800 then [(0xC0 + n / 0x40) as byte, (0x80 + n % 0x40) as byte]
    else if n < 0x10000 then
      [(0xE0 + n / 0x1000) as byte, (0x80 + (n / 0x40) % 0x40) as byte, (0x80 + n % 0x40) as byte]
    else
      [(0xF0 + n / 0x40000) as byte, (0x80 + (n / 0x1000) % 0x40) as byte,
       (0x80 + (n / 0x40) % 0x40) as byte, (0x80 + n % 0x40) as byte]
  }

  /** Python's `s.encode('utf-8')`. */
  function EncodeUtf8(s: string): seq<byte> {
    if s == [] then [] else Utf8Char(s[0]) + EncodeUtf8(s[1..])
  }

  lemma {:induction false} EncodeUtf8Append(a: string, b: string)
    ensures EncodeUtf8(a + b) == EncodeUtf8(a) + EncodeUtf8(b)
  {
    if a == [] {
      assert a + b == b;
    } else {
      assert (a + b)[1..] == a[1..] + b;
      EncodeUtf8Append(a[1..], b);
    }
  }

  predicate IsAscii(s: string) {
    forall i | 0 <= i < |s| :: s[i] as int < 0x80
  }

  /** On ASCII text the encoding is one byte per character, the character's code. */
  lemma {:induction false} EncodeAscii(s: string)
    requires IsAscii(s)
    ensures |EncodeUtf8(s)| == |s|
    ensures forall i | 0 <= i < |s| :: EncodeUtf8(s)[i] as int == s[i] as int
  {
    if s != [] {
      EncodeAscii(s[1..]);
    }
  }

  /** Distinct ASCII texts have distinct encodings. */
  lemma EncodeAsciiInjective(a: string, b: string)
    requires IsAscii(a) && IsAscii(b)
    requires EncodeUtf8(a) == EncodeUtf8(b)
    ensures a == b
  {
    EncodeAscii(a);
    EncodeAscii(b);
    assert forall i | 0 <= i < |a| :: a[i] as int == b[i] as int;
  }

  /** How many bytes a UTF-8 sequence takes, read off its lead byte. */
  function SequenceLength(lead: byte): int {
    if lead < 0x80 then 1 else if lead < 0xE0 then 2 else if lead < 0xF0 then 3 else 4
  }

  /** The lead byte of an encoded character announces the encoding's length. */
  lemma Utf8LeadByte(c: char)
    ensures |Utf8Char(c)| == SequenceLength(Utf8Char(c)[0])
  {
    var n := c as int;
    if 0x800 <= n < 0x10000 {
      assert n / 0x1000 < 16;
    } else if 0x80 <= n < 0x800 {
      assert n / 0x40 < 32;
    }
  }

  /** Two numbers with the same quotient and remainder by `k` are equal. */
  lemma QuotientRemainder(n: int, m: int, k: int)
    requires k > 0 && n / k == m / k && n % k == m % k
    ensures n == m
  {
    assert n == k * (n / k) + n % k;
    assert m == k * (m / k) + m % k;
  }

  /** Dividing by 64 twice is dividing by 4096. */
  lemma DivideTwice(n: int)
    requires n >= 0
    ensures n / 0x40 / 0x40 == n / 0x1000
  {
    var q, r := n / 0x1000, n % 0x1000;
    assert n == 0x1000 * q + r && 0 <= r < 0x1000;
    assert n / 0x40 == 0x40 * q + r / 0x40;
  }

  /** A three-byte encoding determines the code point. */
  lemma ThreeBytesDetermine(n: int, m: int)
    requires 0 <= n && 0 <= m
    requires n / 0x1000 == m / 0x1000 && (n / 0x40) % 0x40 == (m / 0x40) % 0x40 && n % 0x40 == m % 0x40
    ensures n == m
  {
    DivideTwice(n);
    DivideTwice(m);
    QuotientRemainder(n / 0x40, m / 0x40, 0x40);
    QuotientRemainder(n, m, 0x40);
  }

  /** A four-byte encoding determines the code point. */
  lemma FourBytesDetermine(n: int, m: int)
    requires 0 <= n && 0 <= m
    requires n / 0x40000 == m / 0x40000 && (n / 0x1000) % 0x40 == (m / 0x1000) % 0x40
    requires (n / 0x40) % 0x40 == (m / 0x40) % 0x40 && n % 0x40 == m % 0x40
    ensures n == m
  {
    DivideTwice(n / 0x40);
    DivideTwice(m / 0x40);
    DivideTwice(n);
    DivideTwice(m);
    assert n / 0x40000 == n / 0x1000 / 0x40 && m / 0x40000 == m / 0x1000 / 0x40;
    QuotientRemainder(n / 0x1000, m / 0x1000, 0x40);
    ThreeBytesDetermine(n, m);
  }

  /** Different characters have different encodings. */
  lemma Utf8CharInjective(c: char, d: char)
    requires Utf8Char(c) == Utf8Char(d)
    ensures c == d
  {
    var n, m := c as int, d as int;
    var e := Utf8Char(c);
    Utf8LeadByte(c);
    Utf8LeadByte(d);
    if |e| == 2 {
      QuotientRemainder(n, m, 0x40);
    } else if |e| == 3 {
      assert e[0] as int == 0xE0 + n / 0x1000 == 0xE0 + m / 0x1000;
      assert e[1] as int == 0x80 + (n / 0x40) % 0x40 == 0x80 + (m / 0x40) % 0x40;
      assert e[2] as int == 0x80 + n % 0x40 == 0x80 + m % 0x40;
      ThreeBytesDetermine(n, m);
    } else if |e| == 4 {
      assert e[0] as int == 0xF0 + n / 0x40000 == 0xF0 + m / 0x40000;
      assert e[1] as int == 0x80 + (n / 0x1000) % 0x40 == 0x80 + (m / 0x1000) % 0x40;
      assert e[2] as int == 0x80 + (n / 0x40) % 0x40 == 0x80 + (m / 0x40) % 0x40;
      assert e[3] as int == 0x80 + n % 0x40 == 0x80 + m % 0x40;
      FourBytesDetermine(n, m);
    }
  }

  /** Python's UTF-8 encoding loses nothing: different texts have different encodings. */
  lemma {:induction false} EncodeUtf8Injective(a: string, b: string)
    requires EncodeUtf8(a) == EncodeUtf8(b)
    ensures a == b
  {
    if a != [] {
      assert b != [];
      var x, y := Utf8Char(a[0]), Utf8Char(b[0]);
      var e := EncodeUtf8(a);
      Utf8LeadByte(a[0]);
      Utf8LeadByte(b[0]);
      assert x[0] == e[0] == y[0];
      assert |x| == |y|;
      assert x == e[..|x|] == y;
      Utf8CharInjective(a[0], b[0]);
      assert EncodeUtf8(a[1..]) == e[|x|..] == EncodeUtf8(b[1..]);
      EncodeUtf8Injective(a[1..], b[1..]);
      assert a == [a[0]] + a[1..];
      assert b == [b[0]] + b[1..];
    }
  }

  /** Different texts have different encodings, stated forwards. */
  lemma EncodeUtf8Distinguishes(a: string, b: string)
    requires a != b
    ensures EncodeUtf8(a) != EncodeUtf8(b)
  {
    if EncodeUtf8(a) == EncodeUtf8(b) {
      EncodeUtf8Injective(a, b);
    }
  }

  // ---- base 16 -----------------------------------------------------------------------------

  predicate IsLowerHexDigit(c: char) {
    '0' <= c <= '9' || 'a' <= c <= 'f'
  }

  function HexDigit(v: int): (c: char)
    requires 0 <= v < 16
    ensures IsLowerHexDigit(c)
  {
    if v < 10 then ('0' as int + v) as char else ('a' as int + v - 10) as char
  }

  /** Python's `hexdigest()`: two lowercase hexadecimal digits per byte, high nibble first. */
  function Hex(bytes: seq<byte>): (r: string)
    ensures |r| == 2 * |bytes|
    ensures forall i | 0 <= i < |r| :: IsLowerHexDigit(r[i])
  {
    if bytes == [] then ""
    else [HexDigit(bytes[0] as int / 16), HexDigit(bytes[0] as int % 16)] + Hex(bytes[1..])
  }

  lemma HexDigitInjective(u: int, v: int)
    requires 0 <= u < 16 && 0 <= v < 16
    requires HexDigit(u) == HexDigit(v)
    ensures u == v
  {
  }

  /** The rendering loses nothing: equal renderings come from equal byte strings. */
  lemma {:induction false} HexInjective(a: seq<byte>, b: seq<byte>)
    requires Hex(a) == Hex(b)
    ensures a == b
  {
    if a != [] {
      assert b != [];
      var x, y := a[0] as int, b[0] as int;
      assert Hex(a)[0] == HexDigit(x / 16) && Hex(b)[0] == HexDigit(y / 16);
      assert Hex(a)[1] == HexDigit(x % 16) && Hex(b)[1] == HexDigit(y % 16);
      HexDigitInjective(x / 16, y / 16);
      HexDigitInjective(x % 16, y % 16);
      assert Hex(a)[2..] == Hex(a[1..]) && Hex(b)[2..] == Hex(b[1..]);
      HexInjective(a[1..], b[1..]);
    }
  }
}
