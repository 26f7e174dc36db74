/**
 * The text of a quoted string: the escapes as the decoder reads them, and the unescaping of section 7 of RFC 8259
 * that it agrees with.
 */
module Escapes {
  import opened Common
  import opened Scanner
  import Bits

  const LOWER_U: Byte := 117

  // ----- Code points -----

  /** The value of a hexadecimal digit, -1 for other bytes. */
  function DigitToVal(b: Byte): (v: int)
    ensures -1 <= v <= 15
  {
    if 48 <= b <= 57 then b - 48 else if 65 <= b <= 70 then b - 55 else if 97 <= b <= 102 then b - 87 else -1
  }

  /** `v << k` on 32 bits, read as unsigned. */
  function Shifted(v: int, k: nat): nat
    requires -1 <= v <= 15 && k in {0, 4, 8, 12}
  {
    v * Bits.Power(k) % 0x1_0000_0000
  }

  function HexToU32(s: Bytes, i: nat): nat
    requires i + 4 <= |s|
  {
    Bits.BitOr(Bits.BitOr(Bits.BitOr(Shifted(DigitToVal(s[i]), 12), Shifted(DigitToVal(s[i + 1]), 8)),
                          Shifted(DigitToVal(s[i + 2]), 4)),
               Shifted(DigitToVal(s[i + 3]), 0))
  }

  predicate IsHex(b: Byte) { 48 <= b <= 57 || 65 <= b <= 70 || 97 <= b <= 102 }

  predicate IsHex4(s: Bytes, i: nat) {
    i + 4 <= |s| && IsHex(s[i]) && IsHex(s[i + 1]) && IsHex(s[i + 2]) && IsHex(s[i + 3])
  }

  /** The code unit that four hexadecimal digits stand for. */
  function CodeUnit(s: Bytes, i: nat): (u: nat)
    requires IsHex4(s, i)
    ensures u < 0x1_0000
  {
    4096 * DigitToVal(s[i]) + 256 * DigitToVal(s[i + 1]) + 16 * DigitToVal(s[i + 2]) + DigitToVal(s[i + 3])
  }

  lemma {:induction false} Powers()
    ensures Bits.Power(0) == 1 && Bits.Power(4) == 16 && Bits.Power(8) == 256 && Bits.Power(12) == 4096
    ensures Bits.Power(10) == 1024 && Bits.Power(16) == 65536 && Bits.Power(20) == 1048576
  {
    assert Bits.Power(14) == 16384;
    assert Bits.Power(18) == 262144;
  }

  lemma {:induction false} ShiftedDigit(v: int, k: nat)
    requires -1 <= v <= 15 && k in {0, 4, 8, 12}
    ensures if v >= 0 then Shifted(v, k) == Bits.Power(k) * v else Shifted(v, k) >= 0xFFFF_0000
  {
    hide Bits.Power;
    Powers();
  }

  /** One byte that is not a digit sets the high bits of the whole. */
  lemma {:induction false} HexIsCodeUnit(s: Bytes, i: nat)
    requires i + 4 <= |s|
    ensures if IsHex4(s, i) then HexToU32(s, i) == CodeUnit(s, i) else HexToU32(s, i) >= 0xFFFF_0000
  {
    hide Bits.BitOr, Bits.Power, Shifted;
    Powers();
    var a, b, c, d := DigitToVal(s[i]), DigitToVal(s[i + 1]), DigitToVal(s[i + 2]), DigitToVal(s[i + 3]);
    ShiftedDigit(a, 12);
    ShiftedDigit(b, 8);
    ShiftedDigit(c, 4);
    ShiftedDigit(d, 0);
    if IsHex4(s, i) {
      Bits.BitOrDisjoint(a, 256 * b, 12);
      Bits.BitOrDisjoint(16 * a + b, 16 * c, 8);
      Bits.BitOrDisjoint(256 * a + 16 * b + c, d, 4);
    }
  }

  predicate IsHigh(u: nat) { 0xD800 <= u < 0xDC00 }

  predicate IsLow(u: nat) { 0xDC00 <= u < 0xE000 }

  datatype Escaped = Escaped(codePoint: nat, used: nat)

  /**
   * `get_unicode_codepoint` on the bytes from a backslash on. A high surrogate that nothing fitting follows comes
   * out as code point 0.
   */
  function GetUnicodeCodepoint(s: Bytes, i: nat): (r: Result<Escaped>)
    requires i + 12 <= |s|
    ensures r.Ok? ==> r.value.used in {6, 12}
  {
    var first := HexToU32(s, i + 2);
    if IsHigh(first) then
      if s[i + 6] != BACKSLASH || s[i + 7] != LOWER_U then Ok(Escaped(0, 6))
      else
        var second := HexToU32(s, i + 8);
        if Bits.BitOr(first, second) / 0x1_0000 != 0 then Ok(Escaped(0, 6))
        else if second < 0xDC00 then Err(InvalidUtf8)
        else Ok(Escaped(Bits.BitOr(1024 * (first - 0xD800), second - 0xDC00) + 0x1_0000, 12))
    else if IsLow(first) then Err(InvalidUtf8)
    else Ok(Escaped(first, 6))
  }

  /** The UTF-8 form of a code point; nothing for numbers beyond the last one. */
  function Utf8(cp: nat): (s: Bytes)
    ensures |s| <= 4 && (s == [] <==> cp > 0x10_FFFF)
    ensures cp <= 0xFFFF ==> |s| <= 3
  {
    if cp <= 0x7F then [cp]
    else if cp <= 0x7FF then [cp / 64 + 192, cp % 64 + 128]
    else if cp <= 0xFFFF then [cp / 4096 + 224, cp / 64 % 64 + 128, cp % 64 + 128]
    else if cp <= 0x10_FFFF then [cp / 0x4_0000 + 240, cp / 4096 % 64 + 128, cp / 64 % 64 + 128, cp % 64 + 128]
    else []
  }

  predicate IsTail(b: Byte) { 0x80 <= b <= 0xBF }

  /** The code point of a well-formed sequence of RFC 3629, section 3. */
  function FromUtf8(s: Bytes): Option<nat> {
    if |s| == 1 && s[0] <= 0x7F then Some(s[0])
    else if |s| == 2 && 0xC2 <= s[0] <= 0xDF && IsTail(s[1]) then Some(64 * (s[0] - 192) as int + (s[1] - 128))
    else if |s| == 3 && 0xE0 <= s[0] <= 0xEF && IsTail(s[1]) && IsTail(s[2]) then
      var cp := 4096 * (s[0] - 224) as int + 64 * (s[1] - 128) as int + (s[2] - 128);
      if cp <= 0x7FF || 0xD800 <= cp < 0xE000 then None else Some(cp)
    else if |s| == 4 && 0xF0 <= s[0] <= 0xF4 && IsTail(s[1]) && IsTail(s[2]) && IsTail(s[3]) then
      var cp := 0x4_0000 * (s[0] - 240) as int + 4096 * (s[1] - 128) as int + 64 * (s[2] - 128) as int + (s[3] - 128);
      if cp <= 0xFFFF || cp > 0x10_FFFF then None else Some(cp)
    else None
  }

  /** Every code point but the surrogates survives the round trip through UTF-8. */
  lemma {:induction false} Utf8RoundTrip(cp: nat)
    requires cp <= 0x10_FFFF && !(0xD800 <= cp < 0xE000)
    ensures FromUtf8(Utf8(cp)) == Some(cp)
  {
    if 0x7FF < cp <= 0xFFFF {
      Utf8Three(cp);
    } else if 0xFFFF < cp {
      Utf8Four(cp);
    }
  }

  lemma {:induction false} Utf8Three(cp: nat)
    requires 0x7FF < cp <= 0xFFFF && !(0xD800 <= cp < 0xE000)
    ensures FromUtf8(Utf8(cp)) == Some(cp)
  {
    ThreeDigits(cp);
  }

  lemma {:induction false} Utf8Four(cp: nat)
    requires 0xFFFF < cp <= 0x10_FFFF
    ensures FromUtf8(Utf8(cp)) == Some(cp)
  {
    ThreeDigits(cp);
    ThreeDigits(cp / 64);
    assert cp / 64 / 4096 == cp / 0x4_0000 && cp / 64 / 64 == cp / 4096;
  }

  /** The lowest two digits of a number in base 64. */
  lemma {:induction false} ThreeDigits(cp: nat)
    ensures cp == 4096 * (cp / 4096) + 64 * (cp / 64 % 64) + cp % 64
  {
    assert cp / 64 == cp / 4096 * 64 + cp / 64 % 64;
  }

  // ----- The decoder's reading of a string -----

  /** `ESCAPE_MAP`, 0 for bytes that escape nothing. */
  function EscapeMap(b: Byte): Byte {
    if b in {QUOTE, SLASH, BACKSLASH} then b
    else if b == 98 then 8
    else if b == 102 then 12
    else if b == 110 then NEWLINE
    else if b == 114 then RETURN
    else if b == 116 then TAB
    else 0
  }

  datatype Piece = Piece(out: Bytes, used: nat)

  /** One escape, from its backslash on. */
  function ReadEscape(s: Bytes, i: nat): (r: Result<Piece>)
    requires i + 12 <= |s|
    ensures r.Ok? ==> 1 <= |r.value.out| && |r.value.out| + 1 <= r.value.used <= 12
  {
    if s[i + 1] == LOWER_U then
      if GetUnicodeCodepoint(s, i).Err? then Err(InvalidUnicodeCodepoint)
      else
        var e := GetUnicodeCodepoint(s, i).value;
        if Utf8(e.codePoint) == [] then Err(InvalidUnicodeCodepoint) else Ok(Piece(Utf8(e.codePoint), e.used))
    else if EscapeMap(s[i + 1]) == 0 then Err(InvalidEscape)
    else Ok(Piece([EscapeMap(s[i + 1])], 2))
  }

  /** The text read so far and where its closing quote is. */
  datatype Text = Text(text: Bytes, close: nat)

  function Prepend(first: Bytes, r: Result<Text>): Result<Text> {
    if r.Err? then r else Ok(Text(first + r.value.text, r.value.close))
  }

  /** The text from `i` up to the quote that closes it; `n` is the length of the input without its padding. */
  function Decode(s: Bytes, i: nat, n: nat): (r: Result<Text>)
    requires n + 12 <= |s|
    ensures r.Ok? ==> i <= r.value.close < n && |r.value.text| <= r.value.close - i
    decreases n - i
  {
    if i >= n then Err(Eof)
    else if s[i] == QUOTE then Ok(Text([], i))
    else if s[i] == BACKSLASH then
      var p :- ReadEscape(s, i);
      Prepend(p.out, Decode(s, i + p.used, n))
    else Prepend([s[i]], Decode(s, i + 1, n))
  }

  // ----- Agreement with the scan -----

  /** A string is open in front of byte `i` and the byte is not escaped. */
  ghost predicate Fresh(s: Bytes, i: nat, n: nat) {
    i <= n <= |s| && ScanTo(s, i).inQuote && !ScanTo(s, i).odd && !ScanTo(s, n).inQuote
  }

  /** `c` is the first quote from `i` on that the scan does not take for an escaped one. */
  ghost predicate Closes(s: Bytes, i: nat, c: nat) {
    && i <= c < |s| && ScanTo(s, c).Quotes(s[c])
    && forall k :: i <= k < c ==> !ScanTo(s, k).Quotes(s[k])
  }

  lemma {:induction false} FreshInside(s: Bytes, i: nat, n: nat)
    requires Fresh(s, i, n)
    ensures i < n
  {
  }

  /** A byte that is neither quote nor backslash. */
  predicate Plain(s: Bytes, i: nat) { i < |s| && s[i] != QUOTE && s[i] != BACKSLASH }

  lemma {:induction false} PlainStep(s: Bytes, i: nat, n: nat)
    requires Fresh(s, i, n) && Plain(s, i)
    ensures Fresh(s, i + 1, n) && !ScanTo(s, i).Quotes(s[i])
  {
  }

  lemma {:induction false} PlainRun(s: Bytes, i: nat, j: nat, n: nat)
    requires Fresh(s, i, n) && i <= j && forall k :: i <= k < j ==> Plain(s, k)
    ensures Fresh(s, j, n) && forall k :: i <= k < j ==> !ScanTo(s, k).Quotes(s[k])
    decreases j
  {
    if i < j {
      PlainRun(s, i, j - 1, n);
      PlainStep(s, j - 1, n);
    }
  }

  /** A Unicode escape that decodes is made of hexadecimal digits, and so is its second half. */
  lemma {:induction false} UnicodeDigits(s: Bytes, i: nat)
    requires i + 12 <= |s| && s[i + 1] == LOWER_U && ReadEscape(s, i).Ok?
    ensures IsHex4(s, i + 2)
    ensures ReadEscape(s, i).value.used == 12 ==> s[i + 6] == BACKSLASH && s[i + 7] == LOWER_U && IsHex4(s, i + 8)
  {
    hide HexToU32, CodeUnit, IsHex4, Bits.BitOr;
    HexIsCodeUnit(s, i + 2);
    HexIsCodeUnit(s, i + 8);
  }

  /** An escape that decodes leaves the scan in front of an unescaped byte of the same string. */
  lemma {:induction false} EscapeStep(s: Bytes, i: nat, n: nat)
    requires Fresh(s, i, n) && n + 12 <= |s| && s[i] == BACKSLASH && ReadEscape(s, i).Ok?
    ensures var j := i + ReadEscape(s, i).value.used;
      Fresh(s, j, n) && forall k :: i <= k < j ==> !ScanTo(s, k).Quotes(s[k])
  {
    hide ScanTo, GetUnicodeCodepoint, Utf8, EscapeMap, Scan.Quotes;
    FreshInside(s, i, n);
    EscapedByte(s, i, n);
    if s[i + 1] == LOWER_U {
      UnicodeDigits(s, i);
      HexIsPlain(s, i + 2);
      PlainRun(s, i + 2, i + 6, n);
      if ReadEscape(s, i).value.used == 12 {
        HexIsPlain(s, i + 8);
        EscapedByte(s, i + 6, n);
        PlainRun(s, i + 8, i + 12, n);
      }
    }
  }

  lemma {:induction false} HexIsPlain(s: Bytes, i: nat)
    requires IsHex4(s, i)
    ensures forall k :: i <= k < i + 4 ==> Plain(s, k)
  {
  }

  lemma {:induction false} EscapedByte(s: Bytes, i: nat, n: nat)
    requires Fresh(s, i, n) && i + 2 <= |s| && s[i] == BACKSLASH
    ensures Fresh(s, i + 2, n) && !ScanTo(s, i).Quotes(s[i]) && !ScanTo(s, i + 1).Quotes(s[i + 1])
  {
    assert ScanTo(s, i + 1) == ScanTo(s, i).Step(s[i], i);
    assert ScanTo(s, i + 2) == ScanTo(s, i + 1).Step(s[i + 1], i + 1);
  }

  /**
   * The two stages agree on strings: a text that decodes ends at exactly the quote that the scan takes for the
   * closing one, and the decoder never runs past it.
   */
  lemma {:induction false} DecodeStopsAtClosingQuote(s: Bytes, i: nat, n: nat)
    requires n + 12 <= |s| && Fresh(s, i, n)
    ensures Decode(s, i, n).Ok? ==> Closes(s, i, Decode(s, i, n).value.close)
    ensures Decode(s, i, n).Err? ==> Decode(s, i, n).error in {InvalidEscape, InvalidUnicodeCodepoint}
    decreases n - i
  {
    hide ScanTo, ReadEscape, Closes;
    FreshInside(s, i, n);
    if s[i] == BACKSLASH {
      EscapeErrors(s, i);
      if ReadEscape(s, i).Ok? {
        EscapeStep(s, i, n);
        var j := i + ReadEscape(s, i).value.used;
        DecodeStopsAtClosingQuote(s, j, n);
        if Decode(s, j, n).Ok? {
          Earlier(s, i, j, Decode(s, j, n).value.close);
        }
      }
    } else if s[i] != QUOTE {
      PlainStep(s, i, n);
      DecodeStopsAtClosingQuote(s, i + 1, n);
      if Decode(s, i + 1, n).Ok? {
        Earlier(s, i, i + 1, Decode(s, i + 1, n).value.close);
      }
    } else {
      Here(s, i);
    }
  }

  lemma {:induction false} EscapeErrors(s: Bytes, i: nat)
    requires i + 12 <= |s|
    ensures ReadEscape(s, i).Err? ==> ReadEscape(s, i).error in {InvalidEscape, InvalidUnicodeCodepoint}
  {
    hide GetUnicodeCodepoint, Utf8, EscapeMap;
  }

  lemma {:induction false} Here(s: Bytes, i: nat)
    requires i < |s| && s[i] == QUOTE && !ScanTo(s, i).odd
    ensures Closes(s, i, i)
  {
  }

  lemma {:induction false} Earlier(s: Bytes, i: nat, j: nat, c: nat)
    requires i <= j <= |s| && Closes(s, j, c) && forall k :: i <= k < j ==> !ScanTo(s, k).Quotes(s[k])
    ensures Closes(s, i, c)
  {
  }

  // ----- Section 7 of RFC 8259 -----

  /** What a two-character escape stands for. */
  function SimpleEscape(b: Byte): Option<Byte> {
    match b
    case 34 => Some(0x22)
    case 92 => Some(0x5C)
    case 47 => Some(0x2F)
    case 98 => Some(0x08)
    case 102 => Some(0x0C)
    case 110 => Some(0x0A)
    case 114 => Some(0x0D)
    case 116 => Some(0x09)
    case _ => None
  }

  /** `\uXXXX` lies within the text up to `c`. */
  predicate IsUnit(s: Bytes, i: nat, c: nat) {
    i + 6 <= c <= |s| && s[i] == BACKSLASH && s[i + 1] == LOWER_U && IsHex4(s, i + 2)
  }

  predicate IsPair(s: Bytes, i: nat, c: nat) {
    && IsUnit(s, i, c) && IsHigh(CodeUnit(s, i + 2))
    && IsUnit(s, i + 6, c) && IsLow(CodeUnit(s, i + 8))
  }

  function Cons(first: Bytes, rest: Option<Bytes>): Option<Bytes> {
    if rest.None? then None else Some(first + rest.value)
  }

  /** The text `s[i..c]` unescaped from left to right; nothing behind `c` is read. */
  function Unescape(s: Bytes, i: nat, c: nat): Option<Bytes>
    requires i <= c <= |s|
    decreases c - i
  {
    if i == c then Some([])
    else if s[i] != BACKSLASH then Cons([s[i]], Unescape(s, i + 1, c))
    else if i + 1 == c then None
    else if s[i + 1] != LOWER_U then
      if SimpleEscape(s[i + 1]).None? then None
      else Cons([SimpleEscape(s[i + 1]).value], Unescape(s, i + 2, c))
    else if !IsUnit(s, i, c) then None
    else
      var unit := CodeUnit(s, i + 2);
      if IsPair(s, i, c) then
        var low := CodeUnit(s, i + 8);
        Cons(Utf8(0x1_0000 + 1024 * (unit - 0xD800) + (low - 0xDC00)), Unescape(s, i + 12, c))
      else if IsHigh(unit) || IsLow(unit) then None
      else Cons(Utf8(unit), Unescape(s, i + 6, c))
  }

  /** Every high surrogate met before the first malformed escape is followed by a low one. */
  predicate Paired(s: Bytes, i: nat, c: nat)
    requires i <= c <= |s|
    decreases c - i
  {
    if i == c then true
    else if s[i] != BACKSLASH then Paired(s, i + 1, c)
    else if i + 1 == c then true
    else if s[i + 1] != LOWER_U then SimpleEscape(s[i + 1]).None? || Paired(s, i + 2, c)
    else if !IsUnit(s, i, c) then true
    else if IsHigh(CodeUnit(s, i + 2)) then IsPair(s, i, c) && Paired(s, i + 12, c)
    else IsLow(CodeUnit(s, i + 2)) || Paired(s, i + 6, c)
  }

  lemma {:induction false} MapIsSimpleEscape(b: Byte)
    ensures SimpleEscape(b) == if EscapeMap(b) == 0 then None else Some(EscapeMap(b))
  {
  }

  /** A pair of surrogates joins to its code point. */
  lemma {:induction false} PairIsRead(s: Bytes, i: nat, c: nat)
    requires i + 12 <= |s| && IsPair(s, i, c)
    ensures GetUnicodeCodepoint(s, i)
         == Ok(Escaped(0x1_0000 + 1024 * (CodeUnit(s, i + 2) - 0xD800) + (CodeUnit(s, i + 8) - 0xDC00), 12))
  {
    hide Bits.BitOr, Bits.Power, HexToU32, CodeUnit;
    HexIsCodeUnit(s, i + 2);
    HexIsCodeUnit(s, i + 8);
    assert Bits.Power(10) == 1024 && Bits.Power(16) == 0x1_0000 by { Powers(); }
    var first, second := CodeUnit(s, i + 2), CodeUnit(s, i + 8);
    Bits.BitOrBound(first, second, 16);
    Bits.BitOrDisjoint(first - 0xD800, second - 0xDC00, 10);
  }

  lemma {:induction false} UnitIsRead(s: Bytes, i: nat, c: nat)
    requires i + 12 <= |s| && IsUnit(s, i, c) && !IsHigh(CodeUnit(s, i + 2))
    ensures GetUnicodeCodepoint(s, i)
         == if IsLow(CodeUnit(s, i + 2)) then Err(InvalidUtf8) else Ok(Escaped(CodeUnit(s, i + 2), 6))
  {
    hide HexToU32, CodeUnit;
    HexIsCodeUnit(s, i + 2);
  }

  lemma {:induction false} NoUnitIsRead(s: Bytes, i: nat, c: nat)
    requires i + 12 <= |s| && i + 2 <= c < |s| && s[i] == BACKSLASH && s[i + 1] == LOWER_U && !IsUnit(s, i, c) && s[c] == QUOTE
    ensures ReadEscape(s, i) == Err(InvalidUnicodeCodepoint)
  {
    hide HexToU32, CodeUnit, Bits.BitOr;
    HexIsCodeUnit(s, i + 2);
    if IsHex4(s, i + 2) {
      HexHasNoQuote(s, i + 2, c);
    }
  }

  lemma {:induction false} HexHasNoQuote(s: Bytes, i: nat, c: nat)
    requires IsHex4(s, i) && i <= c < |s| && s[c] == QUOTE
    ensures i + 4 <= c
  {
  }

  lemma {:induction false} Later(s: Bytes, i: nat, j: nat, c: nat)
    requires Closes(s, i, c) && i <= j <= |s| && forall k :: i <= k < j ==> !ScanTo(s, k).Quotes(s[k])
    ensures Closes(s, j, c)
  {
  }

  lemma {:induction false} CloseOrNot(s: Bytes, i: nat, c: nat, n: nat)
    requires Fresh(s, i, n) && Closes(s, i, c)
    ensures s[c] == QUOTE && (i == c <==> s[i] == QUOTE)
  {
  }

  /** One escape of a closed string, as the decoder and as section 7 read it. */
  lemma {:induction false} EscapeUnescapes(s: Bytes, i: nat, c: nat)
    requires i + 12 <= |s| && i + 2 <= c < |s| && s[i] == BACKSLASH && s[c] == QUOTE && Paired(s, i, c)
    ensures match ReadEscape(s, i)
            case Ok(p) => i + p.used <= c && Paired(s, i + p.used, c)
                          && Unescape(s, i, c) == Cons(p.out, Unescape(s, i + p.used, c))
            case Err(_) => Unescape(s, i, c).None?
  {
    hide CodeUnit, HexToU32, GetUnicodeCodepoint;
    if s[i + 1] != LOWER_U {
      MapIsSimpleEscape(s[i + 1]);
    } else if !IsUnit(s, i, c) {
      NoUnitIsRead(s, i, c);
    } else if IsHigh(CodeUnit(s, i + 2)) {
      PairIsRead(s, i, c);
    } else {
      UnitIsRead(s, i, c);
    }
  }

  /** On a closed string whose surrogates are paired the decoder answers what section 7 of RFC 8259 says. */
  lemma {:induction false} DecodeUnescapes(s: Bytes, i: nat, c: nat, n: nat)
    requires n + 12 <= |s| && c < n && Fresh(s, i, n) && Closes(s, i, c) && Paired(s, i, c)
    ensures match Unescape(s, i, c)
            case Some(t) => Decode(s, i, n) == Ok(Text(t, c))
            case None => Decode(s, i, n).Err?
    decreases c - i
  {
    hide ScanTo, ReadEscape, CodeUnit, Scan.Quotes, Fresh, Closes, Utf8;
    FreshInside(s, i, n);
    CloseOrNot(s, i, c, n);
    if i == c {
    } else if s[i] != BACKSLASH {
      PlainStep(s, i, n);
      Later(s, i, i + 1, c);
      DecodeUnescapes(s, i + 1, c, n);
    } else {
      EscapedByte(s, i, n);
      Later(s, i, i + 2, c);
      EscapeUnescapes(s, i, c);
      if ReadEscape(s, i).Ok? {
        EscapeStep(s, i, n);
        var j := i + ReadEscape(s, i).value.used;
        Later(s, i, j, c);
        DecodeUnescapes(s, j, c, n);
      }
    }
  }

  lemma {:induction false} UnpairedIsRejected(s: Bytes, i: nat, c: nat)
    requires i <= c <= |s| && !Paired(s, i, c)
    ensures Unescape(s, i, c) == None
    decreases c - i
  {
    hide CodeUnit;
    if s[i] != BACKSLASH {
      UnpairedIsRejected(s, i + 1, c);
    } else if s[i + 1] != LOWER_U {
      UnpairedIsRejected(s, i + 2, c);
    } else if IsPair(s, i, c) {
      UnpairedIsRejected(s, i + 12, c);
    } else if !IsHigh(CodeUnit(s, i + 2)) {
      UnpairedIsRejected(s, i + 6, c);
    }
  }

  /**
   * The texts that the decoder takes: every escape is well formed by itself, no low surrogate comes where an escape
   * is read, and an escaped unit behind a high surrogate is at least the first low one.
   */
  predicate Passes(s: Bytes, i: nat, c: nat)
    requires i <= c <= |s|
    decreases c - i
  {
    if i == c then true
    else if s[i] != BACKSLASH then Passes(s, i + 1, c)
    else if i + 1 == c then false
    else if s[i + 1] != LOWER_U then SimpleEscape(s[i + 1]).Some? && Passes(s, i + 2, c)
    else if !IsUnit(s, i, c) || IsLow(CodeUnit(s, i + 2)) then false
    else if IsHigh(CodeUnit(s, i + 2)) && IsUnit(s, i + 6, c) then
      CodeUnit(s, i + 8) >= 0xDC00 && Passes(s, i + 12, c)
    else Passes(s, i + 6, c)
  }

  /** A high surrogate joined with any unit from the first low surrogate on is a code point. */
  lemma {:induction false} JoinedIsCodePoint(first: nat, second: nat)
    requires IsHigh(first) && 0xDC00 <= second < 0x1_0000
    ensures Bits.BitOr(first, second) / 0x1_0000 == 0
    ensures Utf8(Bits.BitOr(1024 * (first - 0xD800), second - 0xDC00) + 0x1_0000) != []
  {
    hide Bits.BitOr, Bits.Power;
    Powers();
    Bits.BitOrBound(first, second, 16);
    Bits.BitOrBound(1024 * (first - 0xD800), second - 0xDC00, 20);
  }

  lemma {:induction false} HighIsRead(s: Bytes, i: nat, c: nat)
    requires i + 12 <= |s| && IsUnit(s, i, c) && c < |s| && s[c] == QUOTE && IsHigh(CodeUnit(s, i + 2))
    ensures match ReadEscape(s, i)
            case Err(_) => IsUnit(s, i + 6, c) && CodeUnit(s, i + 8) < 0xDC00
            case Ok(p) => if IsUnit(s, i + 6, c) then p.used == 12 && CodeUnit(s, i + 8) >= 0xDC00 else p.used == 6
  {
    hide Bits.BitOr, HexToU32, CodeUnit;
    HexIsCodeUnit(s, i + 2);
    HexIsCodeUnit(s, i + 8);
    var first := CodeUnit(s, i + 2);
    if IsUnit(s, i + 6, c) {
      var second := CodeUnit(s, i + 8);
      if second >= 0xDC00 {
        JoinedIsCodePoint(first, second);
      } else {
        assert Bits.BitOr(first, second) / 0x1_0000 == 0 by {
          Powers();
          Bits.BitOrBound(first, second, 16);
        }
      }
    } else if IsHex4(s, i + 8) && i + 8 <= c {
      HexHasNoQuote(s, i + 8, c);
    }
  }

  lemma {:induction false} EscapePasses(s: Bytes, i: nat, c: nat)
    requires i + 12 <= |s| && i + 2 <= c < |s| && s[i] == BACKSLASH && s[c] == QUOTE
    ensures match ReadEscape(s, i)
            case Ok(p) => i + p.used <= c && Passes(s, i, c) == Passes(s, i + p.used, c)
            case Err(_) => !Passes(s, i, c)
  {
    hide CodeUnit, HexToU32, GetUnicodeCodepoint;
    if s[i + 1] != LOWER_U {
      MapIsSimpleEscape(s[i + 1]);
    } else if !IsUnit(s, i, c) {
      NoUnitIsRead(s, i, c);
    } else if IsHigh(CodeUnit(s, i + 2)) {
      HighIsRead(s, i, c);
    } else {
      UnitIsRead(s, i, c);
    }
  }

  /** The decoder takes exactly these texts. */
  lemma {:induction false} DecodesIffPasses(s: Bytes, i: nat, c: nat, n: nat)
    requires n + 12 <= |s| && c < n && Fresh(s, i, n) && Closes(s, i, c)
    ensures Decode(s, i, n).Ok? <==> Passes(s, i, c)
    decreases c - i
  {
    hide ScanTo, ReadEscape, CodeUnit, Scan.Quotes, Fresh, Closes, Utf8, SimpleEscape;
    FreshInside(s, i, n);
    CloseOrNot(s, i, c, n);
    if i == c {
    } else if s[i] != BACKSLASH {
      PlainStep(s, i, n);
      Later(s, i, i + 1, c);
      DecodesIffPasses(s, i + 1, c, n);
    } else {
      EscapedByte(s, i, n);
      Later(s, i, i + 2, c);
      EscapePasses(s, i, c);
      if ReadEscape(s, i).Ok? {
        EscapeStep(s, i, n);
        var j := i + ReadEscape(s, i).value.used;
        Later(s, i, j, c);
        DecodesIffPasses(s, j, c, n);
      }
    }
  }

  predicate Agrees(r: Result<Text>, t: Option<Bytes>) {
    if r.Ok? then t == Some(r.value.text) else t == None
  }

  /**
   * The decoder and section 7 of RFC 8259 agree on a string exactly if its high surrogates are all paired, or it is
   * one that the decoder does not take either.
   */
  lemma {:induction false} DecodeAgreesIfPaired(s: Bytes, i: nat, c: nat, n: nat)
    requires n + 12 <= |s| && c < n && Fresh(s, i, n) && Closes(s, i, c)
    ensures Agrees(Decode(s, i, n), Unescape(s, i, c)) <==> Paired(s, i, c) || !Passes(s, i, c)
  {
    hide Decode, Unescape, Paired, Passes, Fresh, ScanTo;
    DecodesIffPasses(s, i, c, n);
    if Paired(s, i, c) {
      DecodeUnescapes(s, i, c, n);
    } else {
      UnpairedIsRejected(s, i, c);
    }
  }

  /** A lone high surrogate comes out as a NUL byte instead of an error. */
  lemma {:induction false} LoneSurrogateBecomesNul(s: Bytes)
    requires |s| >= 20 && s[..8] == [QUOTE, BACKSLASH, LOWER_U, 100, 56, 48, 48, QUOTE]
    ensures Decode(s, 1, 8) == Ok(Text([0], 7)) && Unescape(s, 1, 7) == None && !Paired(s, 1, 7)
  {
    hide HexToU32;
    assert s[1] == BACKSLASH && s[2] == LOWER_U && s[3] == 100 && s[4] == 56 && s[5] == 48 && s[6] == 48 && s[7] == QUOTE by {
      assert forall k :: 0 <= k < 8 ==> s[k] == s[..8][k];
    }
    HexIsCodeUnit(s, 3);
    assert CodeUnit(s, 3) == 0xD800;
    assert Decode(s, 7, 8) == Ok(Text([], 7));
    assert [0] + [] == [0];
  }
}
