/**
  JSON strings as encoding/json prints and reads them (sections 7 and 8.1 of RFC 8259). A printer
  `PutX(v, k)` gives the text of `v` followed by `k`; a parser gives a value and what follows it.
 */
module JsonText {
  import opened ByteStrings
  import opened Base

  datatype Parsed<+T> = NoParse | Got(value: T, rest: Bytes) {
    predicate IsFailure() {
      NoParse?
    }

    function PropagateFailure<U>(): Parsed<U>
      requires NoParse?
    {
      NoParse
    }

    function Extract(): (T, Bytes)
      requires Got?
    {
      (value, rest)
    }
  }

  const QUOTE: byte := 34
  const BACKSLASH: byte := 92

  /** U+FFFD in UTF-8: what decoding puts in place of an invalid byte. */
  const REPLACEMENT: Bytes := [0xEF, 0xBF, 0xBD]

  /** The escape that is printed for an invalid byte. */
  const INVALID_ESCAPE: Bytes := [BACKSLASH, 117, 102, 102, 102, 100]

  // ---------------------------------------------------------------------------
  // UTF-8
  // ---------------------------------------------------------------------------

  predicate Continuation(c: byte) {
    0x80 <= c <= 0xBF
  }

  /** Length of the rune that `s` starts with, 0 if its first byte starts no valid rune
      (overlong forms, surrogates and code points above U+10FFFF included). */
  function RuneLen(s: Bytes): (n: nat)
    requires |s| > 0
    ensures n <= 4 && n <= |s|
    ensures s[0] < 0x80 <==> n == 1
  {
    var c := s[0];
    if c < 0x80 then 1
    else if 0xC2 <= c <= 0xDF then
      if |s| >= 2 && Continuation(s[1]) then 2 else 0
    else if 0xE0 <= c <= 0xEF then
      if |s| >= 3 && Continuation(s[1]) && Continuation(s[2])
         && (c == 0xE0 ==> s[1] >= 0xA0) && (c == 0xED ==> s[1] <= 0x9F) then 3 else 0
    else if 0xF0 <= c <= 0xF4 then
      if |s| >= 4 && Continuation(s[1]) && Continuation(s[2]) && Continuation(s[3])
         && (c == 0xF0 ==> s[1] >= 0x90) && (c == 0xF4 ==> s[1] <= 0x8F) then 4 else 0
    else 0
  }

  predicate ValidText(s: Bytes) {
    |s| == 0 || (RuneLen(s) > 0 && ValidText(s[RuneLen(s)..]))
  }

  /** `s` with every invalid byte replaced by U+FFFD. */
  function Sanitize(s: Bytes): (t: Bytes)
    ensures |t| >= |s|
  {
    if |s| == 0 then []
    else if RuneLen(s) == 0 then REPLACEMENT + Sanitize(s[1..])
    else s[..RuneLen(s)] + Sanitize(s[RuneLen(s)..])
  }

  /** What decoding makes of the rune, or the invalid byte, that `s` starts with. */
  function FirstRune(s: Bytes): Bytes
    requires |s| > 0
  {
    if RuneLen(s) == 0 then REPLACEMENT else s[..RuneLen(s)]
  }

  /** Sanitizing leaves exactly the valid texts as they are. */
  lemma {:induction false} SanitizeFixpoint(s: Bytes)
    ensures Sanitize(s) == s <==> ValidText(s)
  {
    if |s| > 0 {
      var n := RuneLen(s);
      if n == 0 {
        assert |Sanitize(s)| > |s|;
      } else {
        SanitizeFixpoint(s[n..]);
        assert Sanitize(s)[n..] == Sanitize(s[n..]);
        assert s == s[..n] + s[n..];
      }
    }
  }

  lemma {:induction false} AsciiIsValidText(s: Bytes)
    requires Ascii(s)
    ensures ValidText(s)
  {
    if |s| > 0 {
      AsciiIsValidText(s[1..]);
    }
  }

  lemma AsciiSanitize(s: Bytes)
    requires Ascii(s)
    ensures Sanitize(s) == s
  {
    AsciiIsValidText(s);
    SanitizeFixpoint(s);
  }

  // ---------------------------------------------------------------------------
  // Printing
  // ---------------------------------------------------------------------------

  /** One ASCII character; `<`, `>` and `&` are escaped too, as json.Marshal does by default. */
  function EscapeAscii(c: byte): (e: Bytes)
    requires c < 0x80
    ensures |e| > 0
  {
    if c == QUOTE || c == BACKSLASH then [BACKSLASH, c]
    else if c == 8 then [BACKSLASH, 98]
    else if c == 12 then [BACKSLASH, 102]
    else if c == 10 then [BACKSLASH, 110]
    else if c == 13 then [BACKSLASH, 114]
    else if c == 9 then [BACKSLASH, 116]
    else if c < 32 || c == 60 || c == 62 || c == 38 then
      [BACKSLASH, 117, 48, 48, HexDigit(c / 16), HexDigit(c % 16)]
    else [c]
  }

  /** U+2028 and U+2029, which are escaped as well. */
  predicate LineSeparator(rune: Bytes) {
    rune == [0xE2, 0x80, 0xA8] || rune == [0xE2, 0x80, 0xA9]
  }

  /** What is printed for the rune, or the invalid byte, that `s` starts with. */
  function EscapeRune(s: Bytes): (e: Bytes)
    requires |s| > 0
    ensures |e| > 0
  {
    var n := RuneLen(s);
    if n == 0 then INVALID_ESCAPE
    else if n == 1 then EscapeAscii(s[0])
    else if LineSeparator(s[..n]) then [BACKSLASH, 117, 50, 48, 50, HexDigit(s[2] - 0xA0)]
    else s[..n]
  }

  function PutChars(s: Bytes, k: Bytes): Bytes {
    if |s| == 0 then [QUOTE] + k
    else
      var n := if RuneLen(s) == 0 then 1 else RuneLen(s);
      EscapeRune(s) + PutChars(s[n..], k)
  }

  function PutString(s: Bytes, k: Bytes): Bytes {
    [QUOTE] + PutChars(s, k)
  }

  // ---------------------------------------------------------------------------
  // Parsing
  // ---------------------------------------------------------------------------

  /** UTF-8 of a code point below U+10000. */
  function EncodeRune(r: int): Bytes
    requires 0 <= r < 0x10000
  {
    if r < 0x80 then [r]
    else if r < 0x800 then [0xC0 + r / 64, 0x80 + r % 64]
    else [0xE0 + r / 4096, 0x80 + (r / 64) % 64, 0x80 + r % 64]
  }

  /** The escape at the start of `t`. Surrogates, which the printer never emits, are refused. */
  function ParseEscape(t: Bytes): (p: Parsed<Bytes>)
    ensures p.Got? ==> |p.rest| < |t|
  {
    if |t| < 2 then NoParse
    else if t[1] == 34 || t[1] == 92 || t[1] == 47 then Got([t[1]], t[2..])
    else if t[1] == 98 then Got([8], t[2..])
    else if t[1] == 102 then Got([12], t[2..])
    else if t[1] == 110 then Got([10], t[2..])
    else if t[1] == 114 then Got([13], t[2..])
    else if t[1] == 116 then Got([9], t[2..])
    else if t[1] == 117 && |t| >= 6 then
      match (HexValue(t[2]), HexValue(t[3]), HexValue(t[4]), HexValue(t[5]))
      case (Some(a), Some(b), Some(c), Some(d)) =>
        var r := 4096 * a + 256 * b + 16 * c + d;
        if 0xD800 <= r <= 0xDFFF then NoParse else Got(EncodeRune(r), t[6..])
      case _ => NoParse
    else NoParse
  }

  /** The characters up to the closing quote. */
  function ParseChars(t: Bytes): (p: Parsed<Bytes>)
    ensures p.Got? ==> |p.rest| < |t|
  {
    if |t| == 0 then NoParse
    else if t[0] == QUOTE then Got([], t[1..])
    else if t[0] == BACKSLASH then
      var (c, t1) :- ParseEscape(t);
      var (cs, rest) :- ParseChars(t1);
      Got(c + cs, rest)
    else if t[0] < 32 then NoParse
    else
      var n := RuneLen(t);
      var (cs, rest) :- ParseChars(t[if n == 0 then 1 else n..]);
      Got((if n == 0 then REPLACEMENT else t[..n]) + cs, rest)
  }

  function ParseString(t: Bytes): (p: Parsed<Bytes>)
    ensures p.Got? ==> |p.rest| < |t|
  {
    if |t| > 0 && t[0] == QUOTE then ParseChars(t[1..]) else NoParse
  }

  // ---------------------------------------------------------------------------
  // Round trip
  // ---------------------------------------------------------------------------

  /** The length of a rune depends on its own bytes alone. */
  lemma RuneLenLocal(s: Bytes, k: Bytes)
    requires |s| > 0 && RuneLen(s) > 0
    ensures RuneLen(s[..RuneLen(s)] + k) == RuneLen(s)
  {
    var n := RuneLen(s);
    var t := s[..n] + k;
    assert forall i :: 0 <= i < n ==> t[i] == s[i];
  }

  /** Reading an escaped ASCII character gives it back. */
  lemma ReadAsciiEscape(c: byte, k: Bytes)
    requires c < 0x80 && EscapeAscii(c)[0] == BACKSLASH
    ensures ParseEscape(EscapeAscii(c) + k) == Got([c], k)
  {
    var t := EscapeAscii(c) + k;
    if |EscapeAscii(c)| == 2 {
      assert t[2..] == k;
    } else {
      assert t[6..] == k;
      assert HexValue(t[4]) == Some(c / 16) && HexValue(t[5]) == Some(c % 16);
    }
  }

  lemma ReadLineSeparator(rune: Bytes, k: Bytes)
    requires LineSeparator(rune)
    ensures ParseEscape([BACKSLASH, 117, 50, 48, 50, HexDigit(rune[2] - 0xA0)] + k) == Got(rune, k)
  {
    var t := [BACKSLASH, 117, 50, 48, 50, HexDigit(rune[2] - 0xA0)] + k;
    assert t[6..] == k;
    assert EncodeRune(0x2028) == [0xE2, 0x80, 0xA8];
    assert EncodeRune(0x2029) == [0xE2, 0x80, 0xA9];
  }

  lemma ReadReplacement(k: Bytes)
    ensures ParseEscape([BACKSLASH, 117, 102, 102, 102, 100] + k) == Got(REPLACEMENT, k)
  {
    var t := [BACKSLASH, 117, 102, 102, 102, 100] + k;
    assert t[6..] == k;
    assert EncodeRune(0xFFFD) == REPLACEMENT;
  }

  /** Reading one printed rune in front of a readable text. */
  lemma ReadEscaped(s: Bytes, k: Bytes)
    requires |s| > 0 && ParseChars(k).Got?
    requires EscapeRune(s)[0] == BACKSLASH
    ensures ParseChars(EscapeRune(s) + k) == Got(FirstRune(s) + ParseChars(k).value, ParseChars(k).rest)
  {
    hide EscapeAscii, ParseEscape;
    var n := RuneLen(s);
    if n == 0 {
      ReadReplacement(k);
    } else if n == 1 {
      ReadAsciiEscape(s[0], k);
      assert s[..1] == [s[0]];
    } else {
      ReadLineSeparator(s[..n], k);
    }
  }

  lemma ReadPlain(s: Bytes, k: Bytes)
    requires |s| > 0 && ParseChars(k).Got?
    requires EscapeRune(s)[0] != BACKSLASH
    ensures ParseChars(EscapeRune(s) + k) == Got(FirstRune(s) + ParseChars(k).value, ParseChars(k).rest)
  {
    hide ParseEscape;
    var n := RuneLen(s);
    var t := EscapeRune(s) + k;
    assert EscapeRune(s) == s[..n];
    RuneLenLocal(s, k);
    assert t[n..] == k && t[..n] == s[..n];
    assert t[0] == s[0] != QUOTE;
  }

  lemma {:induction false} CharsRoundTrip(s: Bytes, k: Bytes)
    ensures ParseChars(PutChars(s, k)) == Got(Sanitize(s), k)
  {
    hide EscapeRune, RuneLen;
    if |s| == 0 {
      assert PutChars(s, k)[1..] == k;
    } else {
      var n := if RuneLen(s) == 0 then 1 else RuneLen(s);
      CharsRoundTrip(s[n..], k);
      if EscapeRune(s)[0] == BACKSLASH {
        ReadEscaped(s, PutChars(s[n..], k));
      } else {
        ReadPlain(s, PutChars(s[n..], k));
      }
    }
  }

  /** A printed string reads back with its invalid bytes replaced. */
  lemma StringRoundTrip(s: Bytes, k: Bytes)
    ensures ParseString(PutString(s, k)) == Got(Sanitize(s), k)
  {
    CharsRoundTrip(s, k);
    assert PutString(s, k)[1..] == PutChars(s, k);
  }

  lemma {:induction false} CharsAppend(s: Bytes, a: Bytes, b: Bytes)
    ensures PutChars(s, a) + b == PutChars(s, a + b)
  {
    hide EscapeRune, RuneLen;
    if |s| == 0 {
      assert [QUOTE] + a + b == [QUOTE] + (a + b);
    } else {
      var n := if RuneLen(s) == 0 then 1 else RuneLen(s);
      CharsAppend(s[n..], a, b);
      assert EscapeRune(s) + PutChars(s[n..], a) + b == EscapeRune(s) + (PutChars(s[n..], a) + b);
    }
  }

  // ---------------------------------------------------------------------------
  // What the printed text determines
  // ---------------------------------------------------------------------------

  /** No valid rune prints as the escape of an invalid byte. */
  lemma ValidRunePrintsOtherwise(t: Bytes, k: Bytes)
    requires |t| > 0 && RuneLen(t) > 0
    ensures !(INVALID_ESCAPE <= EscapeRune(t) + k)
  {
    var p := EscapeRune(t) + k;
    assert p[0] == EscapeRune(t)[0];
    assert |p| < 6 || p[0] != INVALID_ESCAPE[0] || p[1] != INVALID_ESCAPE[1] || p[2] != INVALID_ESCAPE[2];
  }

  lemma RuneAgrees(s: Bytes, t: Bytes)
    requires |s| > 0 && RuneLen(s) > 0 && RuneLen(s) <= |t| && s[..RuneLen(s)] == t[..RuneLen(s)]
    ensures RuneLen(t) == RuneLen(s) && EscapeRune(t) == EscapeRune(s)
  {
    var n := RuneLen(s);
    assert t == s[..n] + t[n..];
    RuneLenLocal(s, t[n..]);
    assert s[0] == s[..n][0] == t[0];
    if n == 3 {
      assert s[2] == s[..n][2] == t[2];
    }
  }

  lemma InvalidPrints(s: Bytes)
    requires |s| > 0 && RuneLen(s) == 0
    ensures EscapeRune(s) == INVALID_ESCAPE
  {
  }

  /** Valid text shares its printed form, whatever follows, with no other byte string. */
  lemma {:induction false} PrintedTextDetermines(s: Bytes, t: Bytes, k: Bytes, l: Bytes)
    requires ValidText(t) && PutChars(s, k) == PutChars(t, l)
    ensures s == t && k == l
  {
    hide EscapeRune, RuneLen;
    CharsRoundTrip(s, k);
    CharsRoundTrip(t, l);
    SanitizeFixpoint(t);
    assert Sanitize(s) == t;
    if |s| > 0 {
      var n := RuneLen(s);
      if n == 0 {
        assert t != [];
        assert EscapeRune(s) == INVALID_ESCAPE by {
          InvalidPrints(s);
        }
        assert PutChars(t, l) == EscapeRune(t) + PutChars(t[RuneLen(t)..], l);
        ValidRunePrintsOtherwise(t, PutChars(t[RuneLen(t)..], l));
      } else {
        assert t == s[..n] + Sanitize(s[n..]);
        RuneAgrees(s, t);
        var e := EscapeRune(s);
        assert PutChars(s[n..], k) == PutChars(s, k)[|e|..] == PutChars(t[n..], l);
        PrintedTextDetermines(s[n..], t[n..], k, l);
        assert s == s[..n] + s[n..];
      }
    }
  }

  /** Another byte string that prints like the invalid text `s`: its first invalid byte is exchanged
      for another byte that is never valid. */
  function Twin(s: Bytes): (t: Bytes)
    requires !ValidText(s)
    ensures t != s
  {
    var n := RuneLen(s);
    if n == 0 then [if s[0] == 0xFF then 0xFE else 0xFF] + s[1..]
    else
      assert s == s[..n] + s[n..];
      s[..n] + Twin(s[n..])
  }

  lemma {:induction false} TwinPrintsAlike(s: Bytes, k: Bytes)
    requires !ValidText(s)
    ensures PutChars(Twin(s), k) == PutChars(s, k)
  {
    var n := RuneLen(s);
    var t := Twin(s);
    if n == 0 {
      assert RuneLen(t) == 0 && t[1..] == s[1..];
      assert EscapeRune(t) == EscapeRune(s);
    } else {
      hide EscapeRune;
      RuneAgrees(s, t);
      assert t[n..] == Twin(s[n..]);
      TwinPrintsAlike(s[n..], k);
    }
  }

  // ---------------------------------------------------------------------------
  // The text itself
  // ---------------------------------------------------------------------------

  /** ASCII that stands for itself in a JSON string as encoding/json prints it. */
  predicate Plain(c: byte) {
    32 <= c < 128 && c != '"' as int && c != '\\' as int && c != '<' as int && c != '>' as int && c != '&' as int
  }

  /** The escapes with a letter of their own. */
  lemma ShortEscapes()
    ensures EscapeAscii('"' as int) == Text("\\\"") && EscapeAscii('\\' as int) == Text("\\\\")
    ensures EscapeAscii(8) == Text("\\b") && EscapeAscii(9) == Text("\\t") && EscapeAscii(10) == Text("\\n")
    ensures EscapeAscii(12) == Text("\\f") && EscapeAscii(13) == Text("\\r")
  {
  }

  /** The other control characters, and the three that HTML gives a meaning. */
  lemma LongEscapes(c: byte)
    requires c < 0x80 && !Plain(c) && c != '"' as int && c != '\\' as int
    requires c != 8 && c != 9 && c != 10 && c != 12 && c != 13
    ensures EscapeAscii(c) == Text("\\u00") + ["0123"[c / 16] as int, "0123456789abcdef"[c % 16] as int]
  {
    assert Text("\\u00") == [BACKSLASH, 117, 48, 48];
  }

  lemma PlainEscapes(c: byte)
    requires Plain(c)
    ensures EscapeAscii(c) == [c]
  {
  }

  /** What is escaped beyond ASCII: U+2028, U+2029 and invalid bytes; all other runes are not. */
  lemma RuneEscapes(s: Bytes)
    requires |s| > 0 && s[0] >= 0x80
    ensures RuneLen(s) == 0 ==> EscapeRune(s) == Text("\\ufffd")
    ensures RuneLen(s) > 0 && s[..RuneLen(s)] == [0xE2, 0x80, 0xA8] ==> EscapeRune(s) == Text("\\u2028")
    ensures RuneLen(s) > 0 && s[..RuneLen(s)] == [0xE2, 0x80, 0xA9] ==> EscapeRune(s) == Text("\\u2029")
    ensures RuneLen(s) > 0 && s[..RuneLen(s)] != [0xE2, 0x80, 0xA8] && s[..RuneLen(s)] != [0xE2, 0x80, 0xA9] ==>
              EscapeRune(s) == s[..RuneLen(s)]
  {
    hide RuneLen;
    if RuneLen(s) == 0 {
      assert Text("\\ufffd") == INVALID_ESCAPE;
    } else if LineSeparator(s[..RuneLen(s)]) {
      assert s[2] == s[..RuneLen(s)][2];
      assert Text("\\u202") == [BACKSLASH, 117, 50, 48, 50];
      assert Text("\\u2028") == Text("\\u202") + [56] && Text("\\u2029") == Text("\\u202") + [57];
    }
  }

  lemma PlainFirst(s: Bytes)
    requires |s| > 0 && Plain(s[0])
    ensures RuneLen(s) == 1 && EscapeRune(s) == [s[0]]
  {
    PlainEscapes(s[0]);
  }

  /** Plain text is printed as it is, between quotes. */
  lemma {:induction false} PlainPrints(s: Bytes, k: Bytes)
    requires forall i :: 0 <= i < |s| ==> Plain(s[i])
    ensures PutChars(s, k) == s + Text("\"") + k
    ensures PutString(s, k) == Text("\"") + s + Text("\"") + k
  {
    hide EscapeAscii, Plain, EscapeRune;
    if |s| > 0 {
      PlainPrints(s[1..], k);
      PlainFirst(s);
      assert PutChars(s, k) == [s[0]] + (s[1..] + Text("\"") + k);
      assert s == [s[0]] + s[1..];
    }
  }

  // ---------------------------------------------------------------------------
  // UTF-8 itself (section 3 of RFC 3629)
  // ---------------------------------------------------------------------------

  /** A Unicode scalar value: a code point that is no surrogate. */
  predicate Scalar(r: int) {
    0 <= r < 0xD800 || 0xE000 <= r < 0x11_0000
  }

  function Utf8(r: int): (b: Bytes)
    requires Scalar(r)
    ensures 1 <= |b| <= 4
  {
    if r < 0x80 then [r]
    else if r < 0x800 then [0xC0 + r / 0x40, 0x80 + r % 0x40]
    else if r < 0x1_0000 then [0xE0 + r / 0x1000, 0x80 + r / 0x40 % 0x40, 0x80 + r % 0x40]
    else [0xF0 + r / 0x4_0000, 0x80 + r / 0x1000 % 0x40, 0x80 + r / 0x40 % 0x40, 0x80 + r % 0x40]
  }

  /** The scalar value of the rune that `s` starts with. */
  function ScalarOf(s: Bytes): (r: int)
    requires |s| > 0 && RuneLen(s) > 0
    ensures Scalar(r)
  {
    match RuneLen(s)
    case 1 => s[0]
    case 2 => 0x40 * (s[0] as int - 0xC0) + (s[1] as int - 0x80)
    case 3 => 0x1000 * (s[0] as int - 0xE0) + 0x40 * (s[1] as int - 0x80) + (s[2] as int - 0x80)
    case _ =>
      0x4_0000 * (s[0] as int - 0xF0) + 0x1000 * (s[1] as int - 0x80) + 0x40 * (s[2] as int - 0x80)
      + (s[3] as int - 0x80)
  }

  lemma ThreeDigits(a: int, b: int, c: int)
    requires 0 <= b < 0x40 && 0 <= c < 0x40 && 0 <= a
    ensures var r := 0x1000 * a + 0x40 * b + c;
            r / 0x1000 == a && r / 0x40 % 0x40 == b && r % 0x40 == c && r / 0x40 == 0x40 * a + b
  {
  }

  lemma ShortIsScalar(s: Bytes)
    requires |s| > 0 && 0 < RuneLen(s) <= 2
    ensures s[..RuneLen(s)] == Utf8(ScalarOf(s))
  {
  }

  lemma ThreeIsScalar(s: Bytes)
    requires |s| > 0 && RuneLen(s) == 3
    ensures s[..3] == Utf8(ScalarOf(s))
  {
    ThreeDigits(s[0] as int - 0xE0, s[1] as int - 0x80, s[2] as int - 0x80);
    assert ScalarOf(s) >= 0x800;
  }

  lemma FourIsScalar(s: Bytes)
    requires |s| > 0 && RuneLen(s) == 4
    ensures s[..4] == Utf8(ScalarOf(s))
  {
    ThreeDigits(0x40 * (s[0] as int - 0xF0) + (s[1] as int - 0x80), s[2] as int - 0x80, s[3] as int - 0x80);
    assert ScalarOf(s) >= 0x1_0000;
  }

  /** A rune that is taken as valid is the encoding of a scalar value. */
  lemma RuneIsScalar(s: Bytes)
    requires |s| > 0 && RuneLen(s) > 0
    ensures s[..RuneLen(s)] == Utf8(ScalarOf(s))
  {
    hide RuneLen, Utf8, ScalarOf;
    if RuneLen(s) == 3 {
      ThreeIsScalar(s);
    } else if RuneLen(s) == 4 {
      FourIsScalar(s);
    } else {
      ShortIsScalar(s);
    }
  }

  lemma LongIsRune(r: int, k: Bytes)
    requires Scalar(r) && r >= 0x1_0000
    ensures RuneLen(Utf8(r) + k) == |Utf8(r)|
  {
  }

  lemma ShortIsRune(r: int, k: Bytes)
    requires Scalar(r) && r < 0x1_0000
    ensures RuneLen(Utf8(r) + k) == |Utf8(r)|
  {
  }

  /** And every encoding of one is taken as valid. */
  lemma ScalarIsRune(r: int, k: Bytes)
    requires Scalar(r)
    ensures RuneLen(Utf8(r) + k) == |Utf8(r)|
  {
    hide RuneLen, Utf8;
    if r < 0x1_0000 {
      ShortIsRune(r, k);
    } else {
      LongIsRune(r, k);
    }
  }

  /** Valid UTF-8 is a sequence of encoded scalar values, and nothing else is. */
  lemma {:induction false} ValidTextOutright(s: Bytes) returns (rs: seq<int>)
    requires ValidText(s)
    ensures forall i :: 0 <= i < |rs| ==> Scalar(rs[i])
    ensures s == Encoded(rs)
  {
    hide Utf8, RuneLen, ScalarOf, Scalar;
    if |s| == 0 {
      rs := [];
    } else {
      var n := RuneLen(s);
      RuneIsScalar(s);
      var rest := ValidTextOutright(s[n..]);
      rs := [ScalarOf(s)] + rest;
      assert s == s[..n] + s[n..] && rs[1..] == rest;
    }
  }

  function Encoded(rs: seq<int>): Bytes
    requires forall i :: 0 <= i < |rs| ==> Scalar(rs[i])
  {
    if |rs| == 0 then [] else Utf8(rs[0]) + Encoded(rs[1..])
  }

  lemma {:induction false} EncodedIsValid(rs: seq<int>)
    requires forall i :: 0 <= i < |rs| ==> Scalar(rs[i])
    ensures ValidText(Encoded(rs))
  {
    hide Utf8, RuneLen, Scalar;
    if |rs| > 0 {
      var b := Utf8(rs[0]);
      ScalarIsRune(rs[0], Encoded(rs[1..]));
      EncodedIsValid(rs[1..]);
      assert Encoded(rs)[|b|..] == Encoded(rs[1..]);
    }
  }

  lemma ReplacementIs()
    ensures Utf8(0xFFFD) == REPLACEMENT
  {
  }

  lemma SanitizeStep(s: Bytes)
    requires |s| > 0
    ensures RuneLen(s) == 0 ==> Sanitize(s) == Utf8(0xFFFD) + Sanitize(s[1..])
    ensures RuneLen(s) > 0 ==> Sanitize(s) == s[..RuneLen(s)] + Sanitize(s[RuneLen(s)..])
  {
    hide RuneLen, Utf8;
    ReplacementIs();
  }

  /** Decoding keeps what is valid and puts U+FFFD in place of each byte that starts no valid rune. */
  lemma {:induction false} SanitizeOutright(a: Bytes, b: Bytes)
    requires ValidText(a)
    ensures Sanitize(a + b) == a + Sanitize(b)
    ensures |b| > 0 && RuneLen(b) == 0 ==> Sanitize(b) == Utf8(0xFFFD) + Sanitize(b[1..])
  {
    hide RuneLen, Sanitize, Utf8;
    if |b| > 0 {
      SanitizeStep(b);
    }
    if |a| == 0 {
      assert a + b == b;
      assert [] + Sanitize(b) == Sanitize(b);
    } else {
      var n := RuneLen(a);
      assert a + b == a[..n] + (a[n..] + b);
      RuneAgrees(a, a + b);
      SanitizeOutright(a[n..], b);
      SanitizeStep(a + b);
      assert (a + b)[n..] == a[n..] + b && (a + b)[..n] == a[..n];
      assert a[..n] + (a[n..] + Sanitize(b)) == a + Sanitize(b);
    }
  }
}
