/** JSON numbers, byte slices (base64, section 4 of RFC 4648) and punctuation. */
module JsonValues {
  import opened ByteStrings
  import opened Base
  import opened JsonText

  // ---------------------------------------------------------------------------
  // Punctuation
  // ---------------------------------------------------------------------------

  function Lit(s: string, k: Bytes): Bytes {
    Text(s) + k
  }

  function ParseLit(s: string, t: Bytes): (p: Parsed<()>)
    ensures p.Got? ==> |p.rest| + |s| == |t|
  {
    if |t| >= |s| && t[..|s|] == Text(s) then Got((), t[|s|..]) else NoParse
  }

  lemma LitRoundTrip(s: string, k: Bytes)
    ensures ParseLit(s, Lit(s, k)) == Got((), k)
  {
    assert Lit(s, k)[..|s|] == Text(s) && Lit(s, k)[|s|..] == k;
  }

  /** A literal is refused at its first wrong character. */
  lemma LitRefused(s: string, t: Bytes, i: nat)
    requires i < |s| && i < |t| && t[i] != (s[i] as int) % 256
    ensures ParseLit(s, t) == NoParse
  {
    if |t| >= |s| {
      assert t[..|s|][i] != Text(s)[i];
    }
  }

  // ---------------------------------------------------------------------------
  // Integers
  // ---------------------------------------------------------------------------

  const ZERO_DIGIT: byte := 48

  predicate IsDigit(c: byte) {
    48 <= c <= 57
  }

  function Digits(n: nat): (d: Bytes)
    ensures |d| > 0 && IsDigit(d[0])
    ensures n > 0 ==> d[0] != ZERO_DIGIT
  {
    if n < 10 then [48 + n] else Digits(n / 10) + [48 + n % 10]
  }

  /** Reads digits onto the value `acc` read so far. */
  function ScanDigits(acc: nat, t: Bytes): (p: (nat, Bytes))
    ensures |p.1| <= |t|
    decreases |t|
  {
    if |t| > 0 && IsDigit(t[0]) then ScanDigits(10 * acc + (t[0] - 48), t[1..]) else (acc, t)
  }

  /** A zero in front of another digit is refused. */
  function ParseNat(t: Bytes): (p: Parsed<nat>)
    ensures p.Got? ==> |p.rest| < |t|
  {
    if |t| > 1 && t[0] == ZERO_DIGIT && IsDigit(t[1]) then NoParse
    else if |t| > 0 && IsDigit(t[0]) then
      var (n, rest) := ScanDigits(t[0] - 48, t[1..]);
      Got(n, rest)
    else NoParse
  }

  /** The value after reading the digits of `n` onto `acc`. */
  function Shift(acc: nat, n: nat): nat {
    if n < 10 then 10 * acc + n else 10 * Shift(acc, n / 10) + n % 10
  }

  lemma {:induction false} ShiftZero(n: nat)
    ensures Shift(0, n) == n
  {
    if n >= 10 {
      ShiftZero(n / 10);
    }
  }

  lemma {:induction false} ScanPrinted(acc: nat, n: nat, k: Bytes)
    ensures ScanDigits(acc, Digits(n) + k) == ScanDigits(Shift(acc, n), k)
  {
    if n < 10 {
      assert ([48 + n] + k)[1..] == k;
    } else {
      var low := [48 + n % 10];
      ScanPrinted(acc, n / 10, low + k);
      assert Digits(n) + k == Digits(n / 10) + (low + k);
      assert (low + k)[1..] == k;
    }
  }

  predicate NoDigitFirst(k: Bytes) {
    |k| == 0 || !IsDigit(k[0])
  }

  lemma NatRoundTrip(n: nat, k: Bytes)
    requires NoDigitFirst(k)
    ensures ParseNat(Digits(n) + k) == Got(n, k)
  {
    ScanPrinted(0, n, k);
    ShiftZero(n);
  }

  function PutUint(n: uint64, k: Bytes): Bytes {
    Digits(n) + k
  }

  function ParseUint(t: Bytes): (p: Parsed<uint64>)
    ensures p.Got? ==> |p.rest| < |t|
  {
    var (n, rest) :- ParseNat(t);
    if n < TWO_64 then Got(n, rest) else NoParse
  }

  lemma UintRoundTrip(n: uint64, k: Bytes)
    requires NoDigitFirst(k)
    ensures ParseUint(PutUint(n, k)) == Got(n, k)
  {
    NatRoundTrip(n, k);
  }

  const MINUS: byte := 45

  function PutInt(n: int64, k: Bytes): Bytes {
    if n < 0 then [MINUS] + (Digits(-(n as int)) + k) else Digits(n) + k
  }

  function ParseInt(t: Bytes): (p: Parsed<int64>)
    ensures p.Got? ==> |p.rest| < |t|
  {
    if |t| > 0 && t[0] == MINUS then
      var (n, rest) :- ParseNat(t[1..]);
      if n <= TWO_63 then Got(-(n as int), rest) else NoParse
    else
      var (n, rest) :- ParseNat(t);
      if n < TWO_63 then Got(n, rest) else NoParse
  }

  lemma IntRoundTrip(n: int64, k: Bytes)
    requires NoDigitFirst(k)
    ensures ParseInt(PutInt(n, k)) == Got(n, k)
  {
    if n < 0 {
      NatRoundTrip(-(n as int), k);
      assert PutInt(n, k)[1..] == Digits(-(n as int)) + k;
    } else {
      NatRoundTrip(n, k);
    }
  }

  // ---------------------------------------------------------------------------
  // Base64
  // ---------------------------------------------------------------------------

  function Sextet(v: int): (c: byte)
    requires 0 <= v < 64
    ensures c < 0x80 && c != PAD
  {
    if v < 26 then 65 + v
    else if v < 52 then 71 + v
    else if v < 62 then v - 4
    else if v == 62 then 43
    else 47
  }

  const PAD: byte := 61

  function SextetValue(c: byte): (v: Option<int>)
    ensures v.Some? ==> 0 <= v.value < 64
  {
    if 65 <= c <= 90 then Some(c - 65)
    else if 97 <= c <= 122 then Some(c - 71)
    else if 48 <= c <= 57 then Some(c + 4)
    else if c == 43 then Some(62)
    else if c == 47 then Some(63)
    else None
  }

  lemma SextetRoundTrip(v: int)
    requires 0 <= v < 64
    ensures SextetValue(Sextet(v)) == Some(v)
  {
  }

  function Base64(b: Bytes): (s: Bytes)
    ensures Ascii(s)
  {
    if |b| == 0 then []
    else if |b| == 1 then [Sextet(b[0] / 4), Sextet(16 * (b[0] % 4)), PAD, PAD]
    else if |b| == 2 then
      [Sextet(b[0] / 4), Sextet(16 * (b[0] % 4) + b[1] / 16), Sextet(4 * (b[1] % 16)), PAD]
    else
      [Sextet(b[0] / 4), Sextet(16 * (b[0] % 4) + b[1] / 16), Sextet(4 * (b[1] % 16) + b[2] / 64),
       Sextet(b[2] % 64)] + Base64(b[3..])
  }

  /** Trailing bits of a padded group are ignored, as the standard decoder does. */
  function Base64Decode(s: Bytes): Option<Bytes> {
    if |s| == 0 then Some([])
    else if |s| < 4 then None
    else
      var p :- SextetValue(s[0]);
      var q :- SextetValue(s[1]);
      if s[2] == PAD then
        if s[3] == PAD && |s| == 4 then Some([4 * p + q / 16]) else None
      else
        var r :- SextetValue(s[2]);
        if s[3] == PAD then
          if |s| == 4 then Some([4 * p + q / 16, 16 * (q % 16) + r / 4]) else None
        else
          var u :- SextetValue(s[3]);
          var rest :- Base64Decode(s[4..]);
          Some([4 * p + q / 16, 16 * (q % 16) + r / 4, 64 * (r % 4) + u] + rest)
  }

  /** The four sextets of three bytes give the bytes back. */
  lemma SextetsOf(x: byte, y: byte, z: byte)
    ensures 4 * (x / 4) + (16 * (x % 4) + y / 16) / 16 == x
    ensures 16 * ((16 * (x % 4) + y / 16) % 16) + (4 * (y % 16) + z / 64) / 4 == y
    ensures 64 * ((4 * (y % 16) + z / 64) % 4) + z % 64 == z
  {
    assert (16 * (x % 4) + y / 16) / 16 == x % 4 && (16 * (x % 4) + y / 16) % 16 == y / 16;
    assert (4 * (y % 16) + z / 64) / 4 == y % 16 && (4 * (y % 16) + z / 64) % 4 == z / 64;
  }

  /** Reading one full group. */
  lemma DecodeGroup(x: byte, y: byte, z: byte, k: Bytes)
    requires Base64Decode(k).Some?
    ensures var s := [Sextet(x / 4), Sextet(16 * (x % 4) + y / 16), Sextet(4 * (y % 16) + z / 64),
                      Sextet(z % 64)] + k;
            Base64Decode(s) == Some([x, y, z] + Base64Decode(k).value)
  {
    var s := [Sextet(x / 4), Sextet(16 * (x % 4) + y / 16), Sextet(4 * (y % 16) + z / 64),
              Sextet(z % 64)] + k;
    SextetsOf(x, y, z);
    SextetRoundTrip(x / 4);
    SextetRoundTrip(16 * (x % 4) + y / 16);
    SextetRoundTrip(4 * (y % 16) + z / 64);
    SextetRoundTrip(z % 64);
    assert s[4..] == k;
  }

  /** Reading a padded group. */
  lemma DecodeOne(x: byte)
    ensures Base64Decode(Base64([x])) == Some([x])
  {
    hide Sextet, SextetValue;
    SextetsOf(x, 0, 0);
    SextetRoundTrip(x / 4);
    SextetRoundTrip(16 * (x % 4));
  }

  lemma DecodeTwo(x: byte, y: byte)
    ensures Base64Decode(Base64([x, y])) == Some([x, y])
  {
    hide Sextet, SextetValue;
    var p, q, r := x / 4, 16 * (x % 4) + y / 16, 4 * (y % 16);
    SextetsOf(x, y, 0);
    SextetRoundTrip(p);
    SextetRoundTrip(q);
    SextetRoundTrip(r);
    assert Base64([x, y]) == [Sextet(p), Sextet(q), Sextet(r), PAD];
    assert Base64Decode([Sextet(p), Sextet(q), Sextet(r), PAD]) == Some([4 * p + q / 16, 16 * (q % 16) + r / 4]);
  }

  lemma {:induction false} Base64RoundTrip(b: Bytes)
    ensures Base64Decode(Base64(b)) == Some(b)
  {
    if |b| == 1 {
      DecodeOne(b[0]);
      assert b == [b[0]];
    } else if |b| == 2 {
      DecodeTwo(b[0], b[1]);
      assert b == [b[0], b[1]];
    } else if |b| > 2 {
      Base64RoundTrip(b[3..]);
      DecodeGroup(b[0], b[1], b[2], Base64(b[3..]));
      assert b == [b[0], b[1], b[2]] + b[3..];
    }
  }

  /** A byte slice: null when nil, base64 text otherwise. */
  function PutBlob(b: Slice<byte>, k: Bytes): Bytes {
    if b.Nil? then Lit("null", k) else PutString(Base64(b.items), k)
  }

  function ParseBlob(t: Bytes): (p: Parsed<Slice<byte>>)
    ensures p.Got? ==> |p.rest| < |t|
  {
    if ParseLit("null", t).Got? then Got(Nil, ParseLit("null", t).rest)
    else
      var (s, rest) :- ParseString(t);
      match Base64Decode(s)
      case Some(b) => Got(Slice(b), rest)
      case None => NoParse
  }

  lemma BlobRoundTrip(b: Slice<byte>, k: Bytes)
    ensures ParseBlob(PutBlob(b, k)) == Got(b, k)
  {
    if b.Nil? {
      LitRoundTrip("null", k);
    } else {
      var t := PutBlob(b, k);
      assert t[0] == QUOTE;
      assert |t| >= 4 ==> t[..4][0] != Text("null")[0];
      StringRoundTrip(Base64(b.items), k);
      AsciiSanitize(Base64(b.items));
      Base64RoundTrip(b.items);
    }
  }

  // ---------------------------------------------------------------------------
  // Struct fields: the text before a value (brace or comma, key, colon) and the value
  // ---------------------------------------------------------------------------

  function PutTextField(key: string, s: Bytes, k: Bytes): Bytes {
    Lit(key, PutString(s, k))
  }

  function ParseTextField(key: string, t: Bytes): (p: Parsed<Bytes>)
    ensures p.Got? ==> |p.rest| < |t|
  {
    var (_, t1) :- ParseLit(key, t);
    ParseString(t1)
  }

  lemma TextFieldRoundTrip(key: string, s: Bytes, k: Bytes)
    ensures ParseTextField(key, PutTextField(key, s, k)) == Got(Sanitize(s), k)
  {
    LitRoundTrip(key, PutString(s, k));
    StringRoundTrip(s, k);
  }

  function PutBlobField(key: string, b: Slice<byte>, k: Bytes): Bytes {
    Lit(key, PutBlob(b, k))
  }

  function ParseBlobField(key: string, t: Bytes): (p: Parsed<Slice<byte>>)
    ensures p.Got? ==> |p.rest| < |t|
  {
    var (_, t1) :- ParseLit(key, t);
    ParseBlob(t1)
  }

  lemma BlobFieldRoundTrip(key: string, b: Slice<byte>, k: Bytes)
    ensures ParseBlobField(key, PutBlobField(key, b, k)) == Got(b, k)
  {
    LitRoundTrip(key, PutBlob(b, k));
    BlobRoundTrip(b, k);
  }

  function PutIntField(key: string, n: int64, k: Bytes): Bytes {
    Lit(key, PutInt(n, k))
  }

  function ParseIntField(key: string, t: Bytes): (p: Parsed<int64>)
    ensures p.Got? ==> |p.rest| < |t|
  {
    var (_, t1) :- ParseLit(key, t);
    ParseInt(t1)
  }

  lemma IntFieldRoundTrip(key: string, n: int64, k: Bytes)
    requires NoDigitFirst(k)
    ensures ParseIntField(key, PutIntField(key, n, k)) == Got(n, k)
  {
    LitRoundTrip(key, PutInt(n, k));
    IntRoundTrip(n, k);
  }

  function PutUintField(key: string, n: uint64, k: Bytes): Bytes {
    Lit(key, PutUint(n, k))
  }

  function ParseUintField(key: string, t: Bytes): (p: Parsed<uint64>)
    ensures p.Got? ==> |p.rest| < |t|
  {
    var (_, t1) :- ParseLit(key, t);
    ParseUint(t1)
  }

  lemma UintFieldRoundTrip(key: string, n: uint64, k: Bytes)
    requires NoDigitFirst(k)
    ensures ParseUintField(key, PutUintField(key, n, k)) == Got(n, k)
  {
    LitRoundTrip(key, PutUint(n, k));
    UintRoundTrip(n, k);
  }

  /** A comma or a brace ends a number. */
  lemma LitEndsNumber(s: string, k: Bytes)
    requires |s| > 0 && (s[0] == ',' || s[0] == '}')
    ensures NoDigitFirst(Lit(s, k))
  {
    assert Lit(s, k)[0] == Text(s)[0];
  }

  // ---------------------------------------------------------------------------
  // What follows a printed value can be appended later
  // ---------------------------------------------------------------------------

  lemma LitAppend(s: string, a: Bytes, b: Bytes)
    ensures Lit(s, a) + b == Lit(s, a + b)
  {
    assert Text(s) + a + b == Text(s) + (a + b);
  }

  lemma TextFieldAppend(key: string, s: Bytes, a: Bytes, b: Bytes)
    ensures PutTextField(key, s, a) + b == PutTextField(key, s, a + b)
  {
    LitAppend(key, PutString(s, a), b);
    CharsAppend(s, a, b);
    assert [QUOTE] + PutChars(s, a) + b == [QUOTE] + (PutChars(s, a) + b);
  }

  lemma IntAppend(n: int64, a: Bytes, b: Bytes)
    ensures PutInt(n, a) + b == PutInt(n, a + b)
  {
    hide Digits;
    if n < 0 {
      var d := Digits(-(n as int));
      assert [MINUS] + (d + a) + b == [MINUS] + (d + (a + b));
    } else {
      assert Digits(n) + a + b == Digits(n) + (a + b);
    }
  }

  lemma IntFieldAppend(key: string, n: int64, a: Bytes, b: Bytes)
    ensures PutIntField(key, n, a) + b == PutIntField(key, n, a + b)
  {
    hide PutInt;
    LitAppend(key, PutInt(n, a), b);
    IntAppend(n, a, b);
  }

  // ---------------------------------------------------------------------------
  // What a printed field determines
  // ---------------------------------------------------------------------------

  lemma Strip(p: Bytes, k: Bytes, l: Bytes)
    requires p + k == p + l
    ensures k == l
  {
    assert (p + k)[|p|..] == k && (p + l)[|p|..] == l;
  }

  lemma LitStrip(s: string, k: Bytes, l: Bytes)
    requires Lit(s, k) == Lit(s, l)
    ensures k == l
  {
    Strip(Text(s), k, l);
  }

  lemma TextFieldDetermines(key: string, s: Bytes, t: Bytes, k: Bytes, l: Bytes)
    requires ValidText(t) && PutTextField(key, s, k) == PutTextField(key, t, l)
    ensures s == t && k == l
  {
    LitStrip(key, PutString(s, k), PutString(t, l));
    Strip([QUOTE], PutChars(s, k), PutChars(t, l));
    PrintedTextDetermines(s, t, k, l);
  }

  lemma IntFieldStrip(key: string, n: int64, k: Bytes, l: Bytes)
    requires PutIntField(key, n, k) == PutIntField(key, n, l)
    ensures k == l
  {
    hide Digits;
    LitStrip(key, PutInt(n, k), PutInt(n, l));
    if n < 0 {
      Strip([MINUS], Digits(-(n as int)) + k, Digits(-(n as int)) + l);
      Strip(Digits(-(n as int)), k, l);
    } else {
      Strip(Digits(n), k, l);
    }
  }

  lemma TwinFieldPrintsAlike(key: string, s: Bytes, k: Bytes)
    requires !ValidText(s)
    ensures PutTextField(key, Twin(s), k) == PutTextField(key, s, k)
  {
    TwinPrintsAlike(s, k);
  }

  // ---------------------------------------------------------------------------
  // The text itself
  // ---------------------------------------------------------------------------

  /** The value of decimal digits, by place. */
  function FromDigits(d: Bytes): int {
    if |d| == 0 then 0 else 10 * FromDigits(d[..|d| - 1]) + (d[|d| - 1] - '0' as int)
  }

  /** A number is printed in decimal digits of its value, without leading zeros. */
  lemma {:induction false} DigitsOutright(n: nat)
    ensures FromDigits(Digits(n)) == n
    ensures forall i :: 0 <= i < |Digits(n)| ==> '0' as int <= Digits(n)[i] <= '9' as int
    ensures |Digits(n)| > 1 ==> Digits(n)[0] != '0' as int
  {
    if n >= 10 {
      DigitsOutright(n / 10);
      assert Digits(n)[..|Digits(n)| - 1] == Digits(n / 10);
    } else {
      assert Digits(n)[..0] == [];
    }
  }

  lemma NumbersOutright(n: int64, u: uint64, k: Bytes)
    ensures PutUint(u, k) == Digits(u) + k
    ensures PutInt(n, k) == if n < 0 then Text("-") + Digits(-(n as int)) + k else Digits(n) + k
  {
  }

  /** The bits 6i to 6i + 5 of `b`, zeros after its end. */
  function Bits6(b: Bytes, i: nat): (v: int)
    requires 6 * i < 8 * |b|
    ensures 0 <= v < 64
  {
    var j := 3 * (i / 4);
    var y: int := if j + 1 < |b| then b[j + 1] else 0;
    var z: int := if j + 2 < |b| then b[j + 2] else 0;
    var group := 0x1_0000 * (b[j] as int) + 0x100 * y + z;
    match i % 4
    case 0 => group / 0x4_0000
    case 1 => group / 0x1000 % 64
    case 2 => group / 64 % 64
    case _ => group % 64
  }

  /** The character that stands for six bits: A to Z, a to z, 0 to 9, plus and slash. */
  function Base64Char(v: int): int
    requires 0 <= v < 64
  {
    if v < 26 then 'A' as int + v
    else if v < 52 then 'a' as int + (v - 26)
    else if v < 62 then '0' as int + (v - 52)
    else if v == 62 then '+' as int
    else '/' as int
  }

  lemma SextetOutright(v: int)
    requires 0 <= v < 64
    ensures Sextet(v) == Base64Char(v)
  {
  }

  /** How many '=' end the text: one for every byte missing to a multiple of three. */
  function Padding(n: nat): (p: nat)
    ensures p <= 2
  {
    if n % 3 == 0 then 0 else 3 - n % 3
  }

  lemma GroupQuotients(x: int, y: int, z: int)
    requires 0 <= x < 256 && 0 <= y < 256 && 0 <= z < 256
    ensures var group := 0x1_0000 * x + 0x100 * y + z;
            && group / 0x4_0000 == x / 4 && group / 0x1000 == 16 * x + y / 16
            && group / 64 == 1024 * x + 4 * y + z / 64
  {
  }

  lemma GroupBits(x: byte, y: byte, z: byte)
    ensures var group := 0x1_0000 * (x as int) + 0x100 * (y as int) + z as int;
            && group / 0x4_0000 == x / 4 && group / 0x1000 % 64 == 16 * (x % 4) + y / 16
            && group / 64 % 64 == 4 * (y % 16) + z / 64 && group % 64 == z % 64
  {
    var group := 0x1_0000 * (x as int) + 0x100 * (y as int) + z as int;
    GroupQuotients(x, y, z);
    assert 16 * (x as int) == 64 * (x / 4) + 16 * (x % 4);
    assert 1024 * (x as int) + 4 * (y as int) == 64 * (16 * (x as int) + y / 16) + 4 * (y % 16);
  }

  lemma GroupStart(b: Bytes)
    requires |b| > 0
    ensures |Base64(b)| >= 4
    ensures Base64(b)[0] == Sextet(Bits6(b, 0)) && Base64(b)[1] == Sextet(Bits6(b, 1))
  {
    hide Sextet;
    GroupBits(b[0], if |b| > 1 then b[1] else 0, if |b| > 2 then b[2] else 0);
  }

  lemma GroupEnd(b: Bytes)
    requires |b| > 0
    ensures |Base64(b)| >= 4
    ensures Base64(b)[2] == if |b| > 1 then Sextet(Bits6(b, 2)) else '=' as int
    ensures Base64(b)[3] == if |b| > 2 then Sextet(Bits6(b, 3)) else '=' as int
  {
    hide Sextet;
    GroupBits(b[0], if |b| > 1 then b[1] else 0, if |b| > 2 then b[2] else 0);
  }

  /** The first group of four. */
  lemma FirstGroup(b: Bytes, i: nat)
    requires |b| > 0 && i < 4
    ensures |Base64(b)| >= 4
    ensures 8 * |b| > 6 * i <==> i < 4 - (if |b| >= 3 then 0 else Padding(|b|))
    ensures Base64(b)[i] == if 8 * |b| > 6 * i then Base64Char(Bits6(b, i)) else '=' as int
  {
    hide Base64, Sextet, Base64Char, Bits6;
    GroupStart(b);
    GroupEnd(b);
    if 8 * |b| > 6 * i {
      SextetOutright(Bits6(b, i));
    }
    assert i == 0 || i == 1 || i == 2 || i == 3;
  }

  /** Character by character: groups of four, each character the one for its six bits, and '=' where a
      group has none. */
  lemma {:induction false} Base64Outright(b: Bytes, i: nat)
    ensures |Base64(b)| == 4 * ((|b| + 2) / 3)
    ensures i < |Base64(b)| ==>
              && (i < |Base64(b)| - Padding(|b|) <==> 6 * i < 8 * |b|)
              && Base64(b)[i] == if 6 * i < 8 * |b| then Base64Char(Bits6(b, i)) else '=' as int
    ensures forall v :: 0 <= v < 64 ==>
              Base64Char(v) ==
              if v < 26 then 'A' as int + v
              else if v < 52 then 'a' as int + v - 26
              else if v < 62 then '0' as int + v - 52
              else if v == 62 then '+' as int else '/' as int
  {
    hide Sextet, Bits6;
    if |b| > 0 && i < 4 {
      FirstGroup(b, i);
    }
    if |b| >= 3 {
      Base64Outright(b[3..], if i >= 4 then i - 4 else 0);
      if i >= 4 {
        NextGroup(b, i);
      }
    }
  }

  lemma NextGroup(b: Bytes, i: nat)
    requires |b| >= 3 && 4 <= i
    ensures Padding(|b|) == Padding(|b[3..]|)
    ensures 6 * i < 8 * |b| ==> 6 * (i - 4) < 8 * |b[3..]| && Bits6(b, i) == Bits6(b[3..], i - 4)
    ensures Base64(b)[4..] == Base64(b[3..])
  {
    assert i / 4 == (i - 4) / 4 + 1 && i % 4 == (i - 4) % 4;
  }

  lemma Base64IsPlain(b: Bytes)
    ensures forall i :: 0 <= i < |Base64(b)| ==> Plain(Base64(b)[i])
  {
    hide Base64, Bits6;
    forall i | 0 <= i < |Base64(b)|
      ensures Plain(Base64(b)[i])
    {
      Base64Outright(b, i);
    }
  }

  lemma BlobOutright(b: Slice<byte>, k: Bytes)
    ensures PutBlob(b, k) == if b.Nil? then Text("null") + k else Text("\"") + Base64(b.items) + Text("\"") + k
  {
    hide PutString, Base64;
    if b.Slice? {
      Base64IsPlain(b.items);
      PlainPrints(Base64(b.items), k);
    }
  }
}
