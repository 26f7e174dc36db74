/**
 * Number tokens. The parser works on a token in place, accumulating 64-bit words that wrap; it is proved to accept
 * the literals of section 6 of RFC 8259 and to hand on exactly the number they stand for.
 */
module Numbers {
  import opened Common
  import opened Tape
  import opened Decimals
  import opened Swar

  const EXPONENT_LIMIT: nat := 0x1_0000_0000
  const I64_MIN_MAGNITUDE: nat := 0x8000_0000_0000_0000

  datatype Exponent = Exponent(letter: Byte, sign: Option<Byte>, digits: Bytes) {
    predicate Valid() {
      && letter in {LOWER_E, UPPER_E}
      && (sign.Some? ==> sign.value in {PLUS, HYPHEN})
      && digits != [] && AllDigits(digits)
    }

    function Spell(): Bytes {
      [letter] + (if sign.Some? then [sign.value] else []) + digits
    }

    function Value(): int
      requires Valid()
    {
      if sign == Some(HYPHEN) then -(Num(digits) as int) else Num(digits)
    }

    /** More digits follow once the exponent has passed the limit. */
    predicate TooLarge()
      requires Valid()
    {
      Num(digits[..|digits| - 1]) > EXPONENT_LIMIT
    }
  }

  /** What the parser hands on; `FromParts` and `FromText` leave the rounding to a double to code not modelled. */
  datatype Outcome =
    | Whole(value: Static)
    | FromParts(negative: bool, significand: nat, exponent: int)
    | FromText
    | NotANumber

  /** The literals of RFC 8259, section 6. */
  datatype Literal = Literal(negative: bool, whole: Bytes, frac: Option<Bytes>, exp: Option<Exponent>) {
    predicate Valid() {
      && whole != [] && AllDigits(whole) && (whole[0] == ZERO ==> |whole| == 1)
      && (frac.Some? ==> frac.value != [] && AllDigits(frac.value))
      && (exp.Some? ==> exp.value.Valid())
    }

    function Spell(): Bytes {
      Minus() + whole + Fraction() + Power()
    }

    function Minus(): Bytes { if negative then [HYPHEN] else [] }

    function Fraction(): Bytes { if frac.Some? then [DOT] + frac.value else [] }

    function Power(): Bytes { if exp.Some? then exp.value.Spell() else [] }

    function Mantissa(): (m: Bytes)
      requires Valid()
      ensures AllDigits(m)
    {
      whole + (if frac.Some? then frac.value else [])
    }

    /** Too many digits for the mantissa to be kept in one word. */
    predicate Wide()
      requires Valid()
    {
      match frac
      case None => |whole| >= 20
      case Some(f) =>
        if whole == [ZERO] then |f| >= 18 && !(1 <= |f| - Zeros(f) <= 19) else |whole| + |f| >= 19
    }

    function Scale(): int
      requires Valid()
    {
      (if exp.Some? then exp.value.Value() else 0) - (if frac.Some? then |frac.value| else 0)
    }

    /** The number that the literal stands for, where the parser can hold it. */
    function Meaning(): Outcome
      requires Valid()
    {
      if frac.None? && exp.None? then
        if negative then
          if Num(whole) <= I64_MIN_MAGNITUDE then Whole(I64(-(Num(whole) as int))) else NotANumber
        else
          if Num(whole) < WORD then Whole(U64(Num(whole))) else NotANumber
      else if exp.Some? && exp.value.TooLarge() then NotANumber
      else if Wide() then FromText
      else FromParts(negative, Num(Mantissa()), Scale())
    }
  }

  /** How many zeros a run of digits starts with. */
  function Zeros(s: Bytes): (z: nat)
    ensures z <= |s| && (z < |s| ==> s[z] != ZERO) && forall k :: 0 <= k < z ==> s[k] == ZERO
  {
    if s == [] || s[0] != ZERO then 0 else 1 + Zeros(s[1..])
  }

  // ----- Reading a literal off the buffer -----

  /** What can follow a token: the spaces trimmed off it, or the delimiter or newline that ends it. */
  predicate Ends(b: Byte) { b in {SPACE, RETURN, NEWLINE, COMMA, PIPE, TAB} }

  lemma {:induction false} EndsPlainly(b: Byte)
    requires Ends(b)
    ensures !IsDigit(b) && b !in {DOT, LOWER_E, UPPER_E, HYPHEN, PLUS}
  {
  }

  predicate IsToken(buf: Bytes, start: nat, end: nat) {
    start < end && end + 8 <= |buf| && Ends(buf[end])
  }

  function RunEnd(buf: Bytes, i: nat): (e: nat)
    requires i <= |buf|
    ensures i <= e <= |buf| && (forall k :: i <= k < e ==> IsDigit(buf[k])) && (e < |buf| ==> !IsDigit(buf[e]))
    ensures forall k :: i <= k < |buf| && !IsDigit(buf[k]) ==> e <= k
    decreases |buf| - i
  {
    if i == |buf| || !IsDigit(buf[i]) then i else RunEnd(buf, i + 1)
  }

  lemma {:induction false} RunEndIs(buf: Bytes, i: nat, e: nat)
    requires i <= e < |buf| && (forall k :: i <= k < e ==> IsDigit(buf[k])) && !IsDigit(buf[e])
    ensures RunEnd(buf, i) == e
    decreases e - i
  {
    if i < e {
      RunEndIs(buf, i + 1, e);
    }
  }

  function WholeEnd(buf: Bytes, a: nat): (w: nat)
    requires a < |buf| && IsDigit(buf[a])
    ensures a < w <= |buf| && AllDigits(buf[a..w])
    ensures forall k :: a <= k < |buf| && !IsDigit(buf[k]) ==> w <= k
  {
    if buf[a] == ZERO then a + 1 else RunEnd(buf, a)
  }

  /** The exponent from its letter on, if it ends with the token. */
  function RecognizeExponent(buf: Bytes, f: nat, end: nat): (r: Option<Exponent>)
    requires f < end < |buf| && Ends(buf[end]) && buf[f] in {LOWER_E, UPPER_E}
    ensures r.Some? ==> r.value.Valid()
  {
    var s := if buf[f + 1] in {PLUS, HYPHEN} then f + 2 else f + 1;
    if !IsDigit(buf[s]) || RunEnd(buf, s) != end then None
    else Some(Exponent(buf[f], if s == f + 2 then Some(buf[f + 1]) else None, buf[s..end]))
  }

  function Recognize(buf: Bytes, start: nat, end: nat): (r: Option<Literal>)
    requires IsToken(buf, start, end)
    ensures r.Some? ==> r.value.Valid()
  {
    var negative := buf[start] == HYPHEN;
    var a := if negative then start + 1 else start;
    if !IsDigit(buf[a]) then None
    else
      var w := WholeEnd(buf, a);
      if buf[w] == DOT && !IsDigit(buf[w + 1]) then None
      else
        var f := if buf[w] == DOT then RunEnd(buf, w + 1) else w;
        var frac := if buf[w] == DOT then Some(buf[w + 1..f]) else None;
        if buf[f] in {LOWER_E, UPPER_E} then
          var exp := RecognizeExponent(buf, f, end);
          if exp.None? then None else Some(Literal(negative, buf[a..w], frac, exp))
        else if f != end then None
        else Some(Literal(negative, buf[a..w], frac, None))
  }

  /** Where the parts of a recognized literal lie: its digits from `a`, its fraction from `w`, its exponent from `f`. */
  ghost predicate Parts(buf: Bytes, start: nat, a: nat, w: nat, f: nat, end: nat, l: Literal) {
    && start <= a < w <= f <= end < |buf| && Ends(buf[end])
    && (if l.negative then a == start + 1 && buf[start] == HYPHEN else a == start)
    && l.whole == buf[a..w]
    && (if l.frac.Some? then w < f && buf[w] == DOT && l.frac.value == buf[w + 1..f] else w == f)
    && (if l.exp.Some? then f < end && buf[f] in {LOWER_E, UPPER_E} && RecognizeExponent(buf, f, end) == l.exp else f == end)
  }

  lemma {:induction false} RecognizedParts(buf: Bytes, start: nat, end: nat)
    requires IsToken(buf, start, end) && Recognize(buf, start, end).Some?
    ensures exists a, w, f :: Parts(buf, start, a, w, f, end, Recognize(buf, start, end).value)
  {
    hide RecognizeExponent;
    EndsPlainly(buf[end]);
    var l := Recognize(buf, start, end).value;
    var a := if l.negative then start + 1 else start;
    var w := WholeEnd(buf, a);
    var f := if buf[w] == DOT then RunEnd(buf, w + 1) else w;
    assert Parts(buf, start, a, w, f, end, l);
  }

  lemma {:induction false} RecognizedIsSpelled(buf: Bytes, start: nat, end: nat)
    requires IsToken(buf, start, end) && Recognize(buf, start, end).Some?
    ensures Recognize(buf, start, end).value.Spell() == buf[start..end]
  {
    hide Recognize, RecognizeExponent, Exponent.Spell;
    RecognizedParts(buf, start, end);
    var l := Recognize(buf, start, end).value;
    var a, w, f :| Parts(buf, start, a, w, f, end, l);
    PartsSpell(buf, start, a, w, f, end, l);
  }

  lemma {:induction false} PartsSpell(buf: Bytes, start: nat, a: nat, w: nat, f: nat, end: nat, l: Literal)
    requires Parts(buf, start, a, w, f, end, l)
    ensures l.Spell() == buf[start..end]
  {
    hide RecognizeExponent, Exponent.Spell;
    assert buf[f..end] == l.Power() by {
      if l.exp.Some? {
        RecognizedExponent(buf, f, end);
      }
    }
    assert buf[w..f] == l.Fraction() by {
      if l.frac.Some? {
        Cut(buf, w, w + 1, f);
      }
    }
    assert buf[start..a] == l.Minus();
    Cut(buf, start, a, end);
    Cut(buf, a, w, end);
    Cut(buf, w, f, end);
    Regroup(l.Minus(), l.whole, l.Fraction(), l.Power());
  }

  lemma {:induction false} Cut(buf: Bytes, i: nat, j: nat, k: nat)
    requires i <= j <= k <= |buf|
    ensures buf[i..k] == buf[i..j] + buf[j..k]
  {
  }

  lemma {:induction false} Regroup(a: Bytes, b: Bytes, c: Bytes, d: Bytes)
    ensures a + (b + (c + d)) == a + b + c + d
  {
  }

  lemma {:induction false} RecognizedExponent(buf: Bytes, f: nat, end: nat)
    requires f < end < |buf| && Ends(buf[end]) && buf[f] in {LOWER_E, UPPER_E}
    requires RecognizeExponent(buf, f, end).Some?
    ensures RecognizeExponent(buf, f, end).value.Spell() == buf[f..end]
  {
    var s := if buf[f + 1] in {PLUS, HYPHEN} then f + 2 else f + 1;
    Cut(buf, f, s, end);
    assert buf[f..s] == if s == f + 2 then [buf[f], buf[f + 1]] else [buf[f]];
  }

  lemma {:induction false} ExponentBytes(buf: Bytes, f: nat, end: nat, e: Exponent)
    requires f < end < |buf| && e.Valid() && e.Spell() == buf[f..end]
    ensures var s := if e.sign.Some? then f + 2 else f + 1;
      s < end && buf[f] == e.letter && buf[s..end] == e.digits && (e.sign.Some? ==> buf[f + 1] == e.sign.value)
  {
    var t := buf[f..end];
    assert t[0] == buf[f];
    if e.sign.Some? {
      assert t == [e.letter, e.sign.value] + e.digits;
      assert t[1] == buf[f + 1] && t[2..] == buf[f + 2..end];
    } else {
      assert t == [e.letter] + e.digits;
      assert t[1..] == buf[f + 1..end];
    }
  }

  lemma {:induction false} SpelledExponent(buf: Bytes, f: nat, end: nat, e: Exponent)
    requires f < end < |buf| && Ends(buf[end]) && e.Valid() && e.Spell() == buf[f..end]
    ensures buf[f] in {LOWER_E, UPPER_E} && RecognizeExponent(buf, f, end) == Some(e)
  {
    hide Exponent.Spell, RunEnd;
    var s := if e.sign.Some? then f + 2 else f + 1;
    ExponentBytes(buf, f, end, e);
    forall k | s <= k < end
      ensures IsDigit(buf[k])
    {
      assert buf[k] == buf[s..end][k - s];
    }
    assert buf[s] == buf[s..end][0];
    RunEndIs(buf, s, end);
  }

  lemma {:induction false} SpelledIsRecognized(buf: Bytes, start: nat, end: nat, l: Literal)
    requires IsToken(buf, start, end) && l.Valid() && l.Spell() == buf[start..end]
    ensures Recognize(buf, start, end) == Some(l)
  {
    hide Exponent.Spell, Recognize, RecognizeExponent, Exponent.Valid, WholeEnd, Ends;
    var a := start + |l.Minus()|;
    var w := a + |l.whole|;
    var f := w + |l.Fraction()|;
    Pieces(buf, start, end, l.Minus(), l.whole, l.Fraction(), l.Power());
    if l.exp.Some? {
      ExponentSpells(l.exp.value);
      SpelledExponent(buf, f, end, l.exp.value);
    }
    assert l.frac.Some? ==> buf[w] == buf[w..f][0] && buf[w + 1..f] == buf[w..f][1..];
    assert l.negative ==> buf[start] == buf[start..a][0];
    assert Parts(buf, start, a, w, f, end, l);
    PartsAreRecognized(buf, start, a, w, f, end, l);
  }

  lemma {:induction false} PartsAreRecognized(buf: Bytes, start: nat, a: nat, w: nat, f: nat, end: nat, l: Literal)
    requires IsToken(buf, start, end) && Parts(buf, start, a, w, f, end, l) && l.Valid()
    ensures Recognize(buf, start, end) == Some(l)
  {
    hide RecognizeExponent, Exponent.Valid, WholeEnd, Ends;
    EndsPlainly(buf[end]);
    assert !IsDigit(buf[f]) && buf[f] != DOT;
    SpelledRuns(buf, a, w, f, l);
  }

  lemma {:induction false} Pieces(buf: Bytes, start: nat, end: nat, a: Bytes, b: Bytes, c: Bytes, d: Bytes)
    requires start <= end <= |buf| && buf[start..end] == a + b + c + d
    ensures var i, j, k := start + |a|, start + |a| + |b|, start + |a| + |b| + |c|;
      k + |d| == end && buf[start..i] == a && buf[i..j] == b && buf[j..k] == c && buf[k..end] == d
  {
    var t := a + b + c + d;
    assert t[..|a|] == a;
    assert t[|a|..|a| + |b|] == b;
    assert t[|a| + |b|..|a| + |b| + |c|] == c;
    assert t[|a| + |b| + |c|..] == d;
    Slice(buf, start, end, 0, |a|);
    Slice(buf, start, end, |a|, |a| + |b|);
    Slice(buf, start, end, |a| + |b|, |a| + |b| + |c|);
    Slice(buf, start, end, |a| + |b| + |c|, |t|);
  }

  lemma {:induction false} Slice(buf: Bytes, start: nat, end: nat, i: nat, j: nat)
    requires start + i <= start + j <= end <= |buf|
    ensures buf[start..end][i..j] == buf[start + i..start + j]
  {
    var l, r := buf[start..end][i..j], buf[start + i..start + j];
    assert |l| == |r| && forall k :: 0 <= k < |l| ==> l[k] == buf[start + i + k] == r[k];
  }

  lemma {:induction false} ExponentSpells(e: Exponent)
    requires e.Valid()
    ensures e.Spell() != []
  {
  }

  lemma {:induction false} SpelledRuns(buf: Bytes, a: nat, w: nat, f: nat, l: Literal)
    requires a < w <= f < |buf| && l.Valid() && buf[a..w] == l.whole && !IsDigit(buf[f]) && buf[f] != DOT
    requires if l.frac.Some? then w + 1 < f && buf[w] == DOT && buf[w + 1..f] == l.frac.value else w == f
    ensures IsDigit(buf[a]) && WholeEnd(buf, a) == w
    ensures l.frac.Some? <==> buf[w] == DOT
    ensures l.frac.Some? ==> IsDigit(buf[w + 1]) && RunEnd(buf, w + 1) == f
  {
    forall k | a <= k < w
      ensures IsDigit(buf[k])
    {
      assert buf[k] == l.whole[k - a];
    }
    assert buf[a] == l.whole[0];
    if buf[a] != ZERO {
      RunEndIs(buf, a, w);
    }
    if l.frac.Some? {
      forall k | w + 1 <= k < f
        ensures IsDigit(buf[k])
      {
        assert buf[k] == l.frac.value[k - w - 1];
      }
      RunEndIs(buf, w + 1, f);
    }
  }
}
