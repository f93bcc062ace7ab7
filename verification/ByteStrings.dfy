/**
  Bytes, fixed-width integers, and the byte encodings of Go's standard library that the node
  relies on: big-endian integers and hexadecimal text. A Go string is its byte sequence.
 */
module ByteStrings {
  import opened Base

  type byte = x: int | 0 <= x < 256
  type Bytes = seq<byte>

  const TWO_64: int := 0x1_0000_0000_0000_0000
  const TWO_63: int := 0x8000_0000_0000_0000
  const TWO_32: int := 0x1_0000_0000

  type uint64 = x: int | 0 <= x < TWO_64
  type int64 = x: int | -TWO_63 <= x < TWO_63

  const MAX_UINT64: uint64 := TWO_64 - 1

  /** What SHA-256 returns. */
  type Digest = s: seq<byte> | |s| == 32 witness seq(32, _ => 0)

  /** SHA-256 is any function from byte strings to digests: nothing says it is injective. */
  type Hash = Bytes -> Digest

  /** Two distinct byte strings with one digest. */
  datatype Collision = Collision(left: Bytes, right: Bytes) {
    predicate Of(h: Hash) {
      left != right && h(left) == h(right)
    }
  }

  /** The bytes of an ASCII literal. */
  function Text(s: string): (b: Bytes)
    ensures |b| == |s|
    ensures forall i :: 0 <= i < |s| ==> b[i] == (s[i] as int) % 256
  {
    seq(|s|, i requires 0 <= i < |s| => (s[i] as int) % 256)
  }

  predicate Ascii(s: Bytes) {
    forall i :: 0 <= i < |s| ==> s[i] < 0x80
  }

  /** `n` characters '0'. */
  function Zeros(n: nat): (s: Bytes)
    ensures |s| == n
    ensures Ascii(s)
    ensures forall i :: 0 <= i < n ==> s[i] == '0' as int
  {
    if n == 0 then [] else [48] + Zeros(n - 1)
  }

  // ---------------------------------------------------------------------------
  // Big-endian integers
  // ---------------------------------------------------------------------------

  function Pow256(width: nat): (p: nat)
    ensures p > 0
  {
    if width == 0 then 1 else 256 * Pow256(width - 1)
  }

  /** The low `width` bytes of `n`, most significant first. */
  function BigEndian(n: nat, width: nat): (b: Bytes)
    ensures |b| == width
  {
    if width == 0 then [] else BigEndian(n / 256, width - 1) + [n % 256]
  }

  function FromBigEndian(b: Bytes): nat {
    if |b| == 0 then 0 else 256 * FromBigEndian(b[..|b| - 1]) + b[|b| - 1]
  }

  lemma {:induction false} BigEndianRoundTrip(n: nat, width: nat)
    requires n < Pow256(width)
    ensures FromBigEndian(BigEndian(n, width)) == n
  {
    if width > 0 {
      BigEndianRoundTrip(n / 256, width - 1);
      var b := BigEndian(n, width);
      assert b[..|b| - 1] == BigEndian(n / 256, width - 1);
    }
  }

  lemma {:induction false} FromBigEndianRoundTrip(b: Bytes)
    ensures FromBigEndian(b) < Pow256(|b|)
    ensures BigEndian(FromBigEndian(b), |b|) == b
  {
    if |b| > 0 {
      FromBigEndianRoundTrip(b[..|b| - 1]);
    }
  }

  lemma {:induction false} Pow256Values()
    ensures Pow256(4) == TWO_32 && Pow256(8) == TWO_64
  {
    assert Pow256(1) == 256;
    assert Pow256(2) == 65536;
    assert Pow256(3) == 16777216;
    assert Pow256(5) == 256 * TWO_32;
    assert Pow256(6) == 65536 * TWO_32;
    assert Pow256(7) == 16777216 * TWO_32;
  }

  /** Go's conversion of an int64 to uint64: two's complement. */
  function ToUnsigned(t: int64): uint64 {
    if t < 0 then t + TWO_64 else t
  }

  function FromUnsigned(u: uint64): int64 {
    if u < TWO_63 then u else u - TWO_64
  }

  lemma BigEndianStep(n: nat, width: nat)
    requires width > 0
    ensures BigEndian(n, width) == BigEndian(n / 256, width - 1) + [n % 256]
  {
  }

  /** The four low bytes, one by one. */
  lemma {:induction false} BigEndianLow(n: nat, width: nat)
    requires width >= 4
    ensures BigEndian(n, width) ==
            BigEndian(n / 0x1_0000_0000, width - 4) +
            [n / 0x100_0000 % 256, n / 0x1_0000 % 256, n / 0x100 % 256, n % 256]
  {
    hide BigEndian;
    BigEndianStep(n, width);
    BigEndianStep(n / 0x100, width - 1);
    BigEndianStep(n / 0x1_0000, width - 2);
    BigEndianStep(n / 0x100_0000, width - 3);
    assert n / 0x100 / 256 == n / 0x1_0000;
    assert n / 0x1_0000 / 256 == n / 0x100_0000;
    assert n / 0x100_0000 / 256 == n / 0x1_0000_0000;
  }

  lemma BigEndianOf32(n: nat)
    ensures BigEndian(n, 4) == [n / 0x100_0000 % 256, n / 0x1_0000 % 256, n / 0x100 % 256, n % 256]
  {
    BigEndianLow(n, 4);
    assert BigEndian(n / 0x1_0000_0000, 0) == [];
  }

  lemma HighBytes(n: nat)
    ensures n / 0x1_0000_0000 / 0x100 == n / 0x100_0000_0000
    ensures n / 0x1_0000_0000 / 0x1_0000 == n / 0x1_0000_0000_0000
    ensures n / 0x1_0000_0000 / 0x100_0000 == n / 0x100_0000_0000_0000
  {
  }

  /** The eight bytes of a 64-bit integer, one by one. */
  lemma BigEndianOf64(n: nat)
    ensures BigEndian(n, 8) ==
            [n / 0x100_0000_0000_0000 % 256, n / 0x1_0000_0000_0000 % 256, n / 0x100_0000_0000 % 256,
             n / 0x1_0000_0000 % 256, n / 0x100_0000 % 256, n / 0x1_0000 % 256, n / 0x100 % 256, n % 256]
  {
    hide BigEndian;
    BigEndianLow(n, 8);
    BigEndianOf32(n / 0x1_0000_0000);
    HighBytes(n);
  }

  lemma ToUnsignedModulo(t: int64)
    ensures ToUnsigned(t) == t % 0x1_0000_0000_0000_0000
  {
  }

  // ---------------------------------------------------------------------------
  // Hexadecimal text (encoding/hex)
  // ---------------------------------------------------------------------------

  /** Lower-case digit. */
  function HexDigit(v: int): (c: byte)
    requires 0 <= v < 16
    ensures c < 0x80
  {
    if v < 10 then 48 + v else 87 + v
  }

  /** Both cases are accepted, as encoding/hex does. */
  function HexValue(c: byte): (v: Option<int>)
    ensures v.Some? ==> 0 <= v.value < 16 && c < 0x80
  {
    if 48 <= c <= 57 then Some(c - 48)
    else if 97 <= c <= 102 then Some(c - 87)
    else if 65 <= c <= 70 then Some(c - 55)
    else None
  }

  function HexEncode(b: Bytes): (s: Bytes)
    ensures |s| == 2 * |b|
    ensures Ascii(s)
  {
    if |b| == 0 then [] else [HexDigit(b[0] / 16), HexDigit(b[0] % 16)] + HexEncode(b[1..])
  }

  /** None on odd length and on any character that is no hex digit. */
  function HexDecode(s: Bytes): (b: Option<Bytes>)
    ensures b.Some? ==> |s| == 2 * |b.value|
  {
    if |s| == 0 then Some([])
    else if |s| == 1 then None
    else
      var high :- HexValue(s[0]);
      var low :- HexValue(s[1]);
      var rest :- HexDecode(s[2..]);
      Some([16 * high + low] + rest)
  }

  lemma {:induction false} HexIsAscii(s: Bytes)
    requires HexDecode(s).Some?
    ensures Ascii(s)
  {
    if |s| > 0 {
      HexIsAscii(s[2..]);
      assert forall i :: 2 <= i < |s| ==> s[i] == s[2..][i - 2];
    }
  }

  lemma HexDigits(v: byte)
    ensures HexValue(HexDigit(v / 16)) == Some(v / 16) && HexValue(HexDigit(v % 16)) == Some(v % 16)
    ensures 16 * (v / 16) + v % 16 == v
  {
  }

  lemma {:induction false} HexRoundTrip(b: Bytes)
    ensures HexDecode(HexEncode(b)) == Some(b)
  {
    hide HexDigit, HexValue;
    if |b| > 0 {
      HexDigits(b[0]);
      HexRoundTrip(b[1..]);
      assert HexEncode(b)[2..] == HexEncode(b[1..]);
      assert [b[0]] + b[1..] == b;
    }
  }

  /** ASCII letters A to F in lower case. */
  function LowerHex(c: byte): byte {
    if 65 <= c <= 70 then c + 32 else c
  }

  lemma LowerDigits(c: byte, d: byte)
    requires HexValue(c).Some? && HexValue(d).Some?
    ensures var v := 16 * HexValue(c).value + HexValue(d).value;
            HexDigit(v / 16) == LowerHex(c) && HexDigit(v % 16) == LowerHex(d)
  {
  }

  /** Decodable text is the encoding of its value, up to the case of its digits. */
  lemma {:induction false} HexDecodeExactly(s: Bytes, i: nat)
    requires HexDecode(s).Some? && i < |s|
    ensures HexEncode(HexDecode(s).value)[i] == LowerHex(s[i])
  {
    hide HexDigit, HexValue, LowerHex;
    LowerDigits(s[0], s[1]);
    if i >= 2 {
      HexDecodeExactly(s[2..], i - 2);
    }
    assert HexDecode(s).value[1..] == HexDecode(s[2..]).value;
  }

  lemma {:induction false} HexEncodeInjective(a: Bytes, b: Bytes)
    requires HexEncode(a) == HexEncode(b)
    ensures a == b
  {
    HexRoundTrip(a);
    HexRoundTrip(b);
  }

  /** Character by character: the digits of each byte, the high half first. */
  lemma {:induction false} HexEncodeAt(b: Bytes, i: nat)
    requires i < |b|
    ensures HexEncode(b)[2 * i] == "0123456789abcdef"[b[i] / 16] as int
    ensures HexEncode(b)[2 * i + 1] == "0123456789abcdef"[b[i] % 16] as int
  {
    if i > 0 {
      HexEncodeAt(b[1..], i - 1);
    }
  }

  /** Exactly the texts of even length decode that hold digits of either case only. */
  lemma {:induction false} HexDecodesExactly(s: Bytes)
    ensures HexDecode(s).Some? <==>
              && |s| % 2 == 0
              && forall i :: 0 <= i < |s| ==>
                   || '0' as int <= s[i] <= '9' as int
                   || 'a' as int <= s[i] <= 'f' as int
                   || 'A' as int <= s[i] <= 'F' as int
  {
    if |s| >= 2 {
      HexDecodesExactly(s[2..]);
      assert forall i :: 2 <= i < |s| ==> s[i] == s[2..][i - 2];
    }
  }
}
