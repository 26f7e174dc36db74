/** `try_parse_number` step by step, on 64-bit words that wrap. */
module NumberParser {
  import opened Common
  import opened Tape
  import opened Decimals
  import opened Swar
  import opened Numbers

  const I64_MAX: nat := 0x7FFF_FFFF_FFFF_FFFF

  function WrappingAppend(num: nat, b: Byte): (r: nat)
    requires IsDigit(b)
    ensures r < WORD
  {
    (10 * num % WORD + (b - ZERO)) % WORD
  }

  lemma {:induction false} WrappedAppend(num: nat, s: Bytes, b: Byte)
    requires AllDigits(s) && IsDigit(b) && num == Num(s) % WORD
    ensures AllDigits(s + [b]) && WrappingAppend(num, b) == Num(s + [b]) % WORD
  {
    hide Num;
    NumAppend(s, b);
    WrapTen(num, Num(s), b - ZERO, Num(s + [b]));
  }

  lemma {:induction false} WrapTen(num: nat, n: nat, e: nat, m: nat)
    requires num == n % WORD && m == 10 * n + e
    ensures (10 * num % WORD + e) % WORD == m % WORD
  {
    var q, s, r := n / WORD, 10 * num / WORD, 10 * num % WORD;
    assert m == WORD * (10 * q + s) + (r + e);
    Unwrap(10 * q + s, r + e);
  }

  /** Whole multiples of the word size wrap away. */
  lemma {:induction false} Unwrap(k: nat, x: nat)
    ensures (WORD * k + x) % WORD == x % WORD
  {
  }

  lemma {:induction false} OneMore(before: Bytes, buf: Bytes, start: nat, idx: nat)
    requires start <= idx < |buf|
    ensures before + buf[start..idx] + [buf[idx]] == before + buf[start..idx + 1]
  {
    assert buf[start..idx] + [buf[idx]] == buf[start..idx + 1];
  }

  /** The loop that takes digits up to the first other byte. */
  method AppendDigits(buf: Bytes, start: nat, num0: nat, end: nat, ghost before: Bytes) returns (num: nat, idx: nat)
    requires start <= end < |buf| && !IsDigit(buf[end])
    requires AllDigits(before) && num0 == Num(before) % WORD
    ensures idx == RunEnd(buf, start) && start <= idx <= end && AllDigits(before + buf[start..idx])
    ensures num == Num(before + buf[start..idx]) % WORD
  {
    num, idx := num0, start;
    assert before + buf[start..start] == before;
    while IsDigit(buf[idx])
      invariant start <= idx <= end && RunEnd(buf, idx) == RunEnd(buf, start)
      invariant AllDigits(before + buf[start..idx]) && num == Num(before + buf[start..idx]) % WORD
      decreases end - idx
    {
      WrappedAppend(num, before + buf[start..idx], buf[idx]);
      OneMore(before, buf, start, idx);
      num := WrappingAppend(num, buf[idx]);
      idx := idx + 1;
    }
  }

  lemma {:induction false} WrappedEight(num: nat, s: Bytes, t: Bytes)
    requires AllDigits(s) && AllDigits(t) && |t| == 8 && num == Num(s) % WORD
    ensures AllDigits(s + t) && (100000000 * num % WORD + Num(t)) % WORD == Num(s + t) % WORD
  {
    NumConcat(s, t);
    assert Pow10(8) == 100000000 by {
      assert Pow10(4) == 10000;
    }
    var n, e, m := Num(s), Num(t), Num(s + t);
    assert m == n * 100000000 + e;
    WrapEight(num, n, e, m);
  }

  lemma {:induction false} WrapEight(num: nat, n: nat, e: nat, m: nat)
    requires num == n % WORD && m == 100000000 * n + e
    ensures (100000000 * num % WORD + e) % WORD == m % WORD
  {
    var q, s, r := n / WORD, 100000000 * num / WORD, 100000000 * num % WORD;
    assert m == WORD * (100000000 * q + s) + (r + e);
    Unwrap(100000000 * q + s, r + e);
  }

  /** Eight digits at once, where there are eight. */
  method TakeEight(buf: Bytes, start: nat, num0: nat, end: nat, ghost before: Bytes) returns (num: nat, idx: nat)
    requires start <= end && end + 8 <= |buf| && !IsDigit(buf[end])
    requires AllDigits(before) && num0 == Num(before) % WORD
    ensures start <= idx <= end && RunEnd(buf, idx) == RunEnd(buf, start) && AllDigits(before + buf[start..idx])
    ensures num == Num(before + buf[start..idx]) % WORD
  {
    hide Num, IsMadeOfEightDigitsFast, ParseEightDigitsSwar;
    num, idx := num0, start;
    assert before + buf[start..start] == before;
    var chars := buf[start..start + 8];
    EightDigitsAreFound(chars);
    if IsMadeOfEightDigitsFast(chars) {
      EightDigitsAreParsed(chars);
      WrappedEight(num, before, chars);
      EightInside(buf, start, end, RunEnd(buf, start + 8));
      num := (100000000 * num % WORD + ParseEightDigitsSwar(chars)) % WORD;
      idx := start + 8;
    }
  }

  lemma {:induction false} EightInside(buf: Bytes, i: nat, end: nat, stop: nat)
    requires i <= end && end + 8 <= |buf| && !IsDigit(buf[end]) && AllDigits(buf[i..i + 8])
    requires stop == RunEnd(buf, i + 8)
    ensures i + 8 <= end && RunEnd(buf, i) == stop
  {
    assert forall k :: i <= k < i + 8 ==> buf[k] == buf[i..i + 8][k - i];
    RunEndIs(buf, i, stop);
  }

  /** The fraction behind a `.`: one digit, eight at once where there are eight, then one by one. */
  method ReadFraction(buf: Bytes, start: nat, num0: nat, end: nat, ghost before: Bytes) returns (num: nat, idx: nat)
    requires start < end && end + 8 <= |buf| && !IsDigit(buf[end]) && IsDigit(buf[start])
    requires AllDigits(before) && num0 == Num(before) % WORD
    ensures idx == RunEnd(buf, start) && start <= idx <= end && AllDigits(before + buf[start..idx])
    ensures num == Num(before + buf[start..idx]) % WORD
  {
    hide Num;
    WrappedAppend(num0, before, buf[start]);
    num := WrappingAppend(num0, buf[start]);
    idx := start + 1;
    ghost var first := before + [buf[start]];
    num, idx := TakeEight(buf, idx, num, end, first);
    ghost var second := first + buf[start + 1..idx];
    ghost var middle := idx;
    num, idx := AppendDigits(buf, idx, num, end, second);
    assert second + buf[middle..idx] == before + buf[start..idx];
  }

  /** The digits of an exponent; the number is given up when it goes on past the limit. */
  method ReadExponent(buf: Bytes, start: nat, end: nat) returns (r: Option<nat>, idx: nat)
    requires start < end < |buf| && !IsDigit(buf[end]) && IsDigit(buf[start])
    ensures r.Some? ==> idx == RunEnd(buf, start) && AllDigits(buf[start..idx]) && r.value == Num(buf[start..idx])
    ensures var all := buf[start..RunEnd(buf, start)];
      && AllDigits(all) && (r.None? <==> Num(all[..|all| - 1]) > EXPONENT_LIMIT)
  {
    hide Num;
    ghost var stop := RunEnd(buf, start);
    ghost var all := buf[start..stop];
    Digits(buf, start, 0, stop);
    var number: nat := buf[start] - ZERO;
    idx := start + 1;
    if IsDigit(buf[idx]) {
      Digits(buf, start, 1, stop);
      number := 10 * number + (buf[idx] - ZERO);
      idx := idx + 1;
    }
    if IsDigit(buf[idx]) {
      Digits(buf, start, idx - start, stop);
      number := 10 * number + (buf[idx] - ZERO);
      idx := idx + 1;
    }
    while IsDigit(buf[idx])
      invariant start < idx <= stop && number == Num(all[..idx - start])
      invariant number <= 999 || Num(all[..idx - start - 1]) <= EXPONENT_LIMIT
      decreases stop - idx
    {
      FrontIsLarger(all, idx - start);
      if number > EXPONENT_LIMIT {
        return None, idx;
      }
      Digits(buf, start, idx - start, stop);
      number := 10 * number + (buf[idx] - ZERO);
      idx := idx + 1;
    }
    assert all[..idx - start] == all;
    NumOfPrefix(all, |all| - 1);
    return Some(number), idx;
  }

  lemma {:induction false} FrontIsLarger(all: Bytes, n: nat)
    requires AllDigits(all) && n < |all|
    ensures Num(all[..n]) <= Num(all[..|all| - 1])
  {
    NumOfPrefix(all[..|all| - 1], n);
    assert all[..|all| - 1][..n] == all[..n];
  }

  lemma {:induction false} Digits(buf: Bytes, start: nat, n: nat, stop: nat)
    requires start + n < stop < |buf| && stop == RunEnd(buf, start)
    ensures var all := buf[start..stop];
      AllDigits(all) && Num(all[..0]) == 0 && Num(all[..n + 1]) == 10 * Num(all[..n]) + (buf[start + n] - ZERO)
  {
    NumPrefix(buf[start..stop], n);
  }

  // ----- Does the mantissa fit? -----

  /** Where the parts of a literal lie: its digits from `a`, its `.` at `w` if it has one, and what follows at `f`. */
  predicate Lies(buf: Bytes, a: nat, w: nat, f: nat, l: Literal) {
    && l.Valid() && a < w <= f < |buf| && buf[a..w] == l.whole && !IsDigit(buf[f]) && buf[f] != DOT
    && if l.frac.Some? then w + 1 < f && buf[w] == DOT && buf[w + 1..f] == l.frac.value else w == f
  }

  /** The digit count, from which leading zeros and the `.` among them are taken off when it is large. */
  method ExceedsWord(buf: Bytes, a: nat, f: nat, ghost w: nat, ghost l: Literal) returns (wide: bool)
    requires Lies(buf, a, w, f, l) && f - a <= WORD
    ensures wide == l.Wide()
  {
    var digitCount := f - a - 1;
    ghost var skip := Skipped(l);
    SkippedBytes(buf, a, w, f, l);
    wide := false;
    if digitCount >= 19 {
      var mantissaStart := a;
      while buf[mantissaStart] == ZERO || buf[mantissaStart] == DOT
        invariant a <= mantissaStart <= a + skip
        decreases f - mantissaStart
      {
        mantissaStart := mantissaStart + 1;
      }
      assert mantissaStart == a + skip;
      digitCount := (digitCount - (mantissaStart - a)) % WORD;
      wide := digitCount >= 19;
    }
  }

  /** How many bytes of the mantissa are leading zeros or the `.` behind one. */
  function Skipped(l: Literal): nat
    requires l.Valid()
  {
    if l.whole[0] != ZERO then 0 else if l.frac.None? then 1 else 2 + Zeros(l.frac.value)
  }

  lemma {:induction false} SkippedBytes(buf: Bytes, a: nat, w: nat, f: nat, l: Literal)
    requires Lies(buf, a, w, f, l)
    ensures var end := a + Skipped(l);
      && end <= f && buf[end] != ZERO && buf[end] != DOT
      && forall k :: a <= k < end ==> buf[k] == ZERO || buf[k] == DOT
    ensures f - a == |l.whole| + (if l.frac.Some? then 1 + |l.frac.value| else 0)
    ensures l.whole[0] == ZERO <==> l.whole == [ZERO]
  {
    assert buf[a] == l.whole[0];
    if l.whole[0] == ZERO && l.frac.Some? {
      var z := Zeros(l.frac.value);
      assert forall k :: w + 1 <= k < f ==> buf[k] == l.frac.value[k - w - 1];
      if z < |l.frac.value| {
        assert buf[w + 1 + z] == l.frac.value[z];
      }
    }
  }

  /** A mantissa that passes the gate is below 10^19, so that nothing of it was lost to wrapping. */
  lemma {:induction false} NarrowIsExact(l: Literal)
    requires l.Valid() && (l.frac.Some? || l.exp.Some?) && !l.Wide()
    ensures Num(l.Mantissa()) < 10000000000000000000 < WORD
  {
    var m := l.Mantissa();
    assert Pow10(19) == 10000000000000000000 by {
      assert Pow10(9) == 1000000000;
      assert Pow10(14) == 100000000000000;
    }
    if l.whole == [ZERO] && l.frac.Some? {
      var z := Zeros(l.frac.value);
      NumZeros(m, 1 + z);
      assert m[1 + z..] == l.frac.value[z..];
      NumBound(m[1 + z..]);
      Pow10Monotone(|m| - 1 - z, 19);
    } else {
      NumBound(m);
      Pow10Monotone(|m|, 19);
    }
  }

  // ----- Integers -----

  function WrappingNeg(num: nat): (r: nat)
    requires num < WORD
  {
    (WORD - num) % WORD
  }

  /** A 64-bit word read as a signed one. */
  function AsI64(num: nat): int
    requires num < WORD
  {
    if num <= I64_MAX then num else num - WORD
  }

  lemma {:induction false} IntegerLies(buf: Bytes, start: nat, end: nat)
    requires IsToken(buf, start, end) && Recognize(buf, start, end).Some?
    requires var l := Recognize(buf, start, end).value; l.frac.None? && l.exp.None?
    ensures var l := Recognize(buf, start, end).value;
      var a := if buf[start] == HYPHEN then start + 1 else start;
      && l.negative == (buf[start] == HYPHEN) && a < end && l.whole == buf[a..end] && !IsDigit(buf[end])
      && (forall k :: a <= k < end ==> IsDigit(buf[k]))
      && (buf[a] == ZERO ==> end == a + 1)
  {
    var a := if buf[start] == HYPHEN then start + 1 else start;
    assert forall k :: a <= k < end ==> buf[k] == buf[a..end][k - a];
  }

  lemma {:induction false} NumEmpty()
    ensures Num([]) == 0
  {
  }

  /** The same digits again, giving up at the first overflow of a word. */
  method ParseLargeInteger(buf: Bytes, start: nat, negative: bool, ghost end: nat) returns (r: Outcome)
    requires IsToken(buf, start, end) && Recognize(buf, start, end).Some? && negative == (buf[start] == HYPHEN)
    requires var l := Recognize(buf, start, end).value; l.frac.None? && l.exp.None?
    ensures r == Recognize(buf, start, end).value.Meaning()
  {
    hide Num, Recognize, RunEnd, Ends;
    ghost var l := Recognize(buf, start, end).value;
    IntegerLies(buf, start, end);
    var idx := start;
    if negative {
      idx := idx + 1;
    }
    ghost var a := idx;
    var num: nat := 0;
    NumPrefix(l.whole, 0);
    NumOfPrefix(l.whole, 1);
    assert Num(l.whole[..0]) == 0 by { NumEmpty(); }
    if buf[idx] == ZERO {
      idx := idx + 1;
    } else {
      num := buf[idx] - ZERO;
      idx := idx + 1;
      while IsDigit(buf[idx])
        invariant a < idx <= end && num == Num(l.whole[..idx - a]) < WORD
        decreases end - idx
      {
        var digit := buf[idx] - ZERO;
        NumPrefix(l.whole, idx - a);
        NumOfPrefix(l.whole, idx + 1 - a);
        if 10 * num >= WORD {
          return NotANumber;
        }
        num := 10 * num;
        if num + digit >= WORD {
          return NotANumber;
        }
        num := num + digit;
        idx := idx + 1;
      }
    }
    assert idx == end && l.whole[..idx - a] == l.whole;
    if negative {
      if num == I64_MIN_MAGNITUDE {
        return Whole(I64(-0x8000_0000_0000_0000));
      } else if num > I64_MIN_MAGNITUDE {
        return NotANumber;
      } else {
        return Whole(I64(-(num as int)));
      }
    } else {
      return Whole(U64(num));
    }
  }

  // ----- Numbers -----

  /** The exponent from its letter on. */
  method ReadPower(buf: Bytes, f: nat, end: nat) returns (r: Option<int>, idx: nat)
    requires f < end < |buf| && Ends(buf[end]) && buf[f] in {LOWER_E, UPPER_E}
    ensures match RecognizeExponent(buf, f, end)
            case None => r.None? || idx != end
            case Some(e) => if e.TooLarge() then r.None? else idx == end && r == Some(e.Value())
  {
    hide Num;
    EndsPlainly(buf[end]);
    idx := f + 1;
    var negative := false;
    if buf[idx] == HYPHEN {
      negative := true;
      idx := idx + 1;
    } else if buf[idx] == PLUS {
      idx := idx + 1;
    }
    if !IsDigit(buf[idx]) {
      return None, idx;
    }
    var number;
    number, idx := ReadExponent(buf, idx, end);
    if number.None? {
      return None, idx;
    }
    return Some(if negative then -(number.value as int) else number.value), idx;
  }

  /** The integer part: a single zero, or digits up to the first other byte. */
  method ReadWhole(buf: Bytes, a: nat, end: nat) returns (num: nat, w: nat)
    requires a < end < |buf| && !IsDigit(buf[end]) && IsDigit(buf[a])
    ensures w == WholeEnd(buf, a) && w <= end && num == Num(buf[a..w]) % WORD
  {
    hide Num, RunEnd;
    if buf[a] == ZERO {
      NumOne(buf[a]);
      assert buf[a..a + 1] == [buf[a]];
      return 0, a + 1;
    }
    num, w := buf[a] - ZERO, a + 1;
    NumOne(buf[a]);
    num, w := AppendDigits(buf, w, num, end, [buf[a]]);
    assert [buf[a]] + buf[a + 1..w] == buf[a..w];
    RunEndIs(buf, a, w);
  }

  lemma {:induction false} NumOne(b: Byte)
    requires IsDigit(b)
    ensures AllDigits([b]) && Num([b]) == b - ZERO
  {
    assert [b][..0] == [];
  }

  /** The fraction, if there is one: the digits that follow the `.` count against the exponent. */
  method ReadPoint(buf: Bytes, a: nat, w: nat, num0: nat, end: nat) returns (ok: bool, num: nat, exponent: int, f: nat)
    requires a < w <= end && end + 8 <= |buf| && Ends(buf[end]) && AllDigits(buf[a..w]) && num0 == Num(buf[a..w]) % WORD
    ensures ok <==> (buf[w] == DOT ==> IsDigit(buf[w + 1]))
    ensures ok ==> f <= end && f == if buf[w] == DOT then RunEnd(buf, w + 1) else w
    ensures ok ==> exponent == if buf[w] == DOT then -((f - w - 1) as int) else 0
    ensures ok ==> var digits := buf[a..w] + (if buf[w] == DOT then buf[w + 1..f] else []);
      AllDigits(digits) && num == Num(digits) % WORD
  {
    hide Num, RunEnd;
    EndsPlainly(buf[end]);
    ok, num, exponent, f := true, num0, 0, w;
    if buf[f] == DOT {
      f := f + 1;
      if !IsDigit(buf[f]) {
        ok := false;
      } else {
        num, f := ReadFraction(buf, f, num0, end, buf[a..w]);
        exponent := w + 1 - f;
      }
    } else {
      assert buf[a..w] + [] == buf[a..w];
    }
  }

  /** `try_parse_number` on a token that starts with a digit or a hyphen. */
  method TryParseNumber(buf: Bytes, start: nat, end: nat, negative: bool) returns (r: Outcome)
    requires IsToken(buf, start, end) && end - start < WORD && negative == (buf[start] == HYPHEN)
    ensures r == Parsed(buf, start, end)
  {
    hide Num, RecognizeExponent, RunEnd, WholeEnd, Ends;
    EndsPlainly(buf[end]);
    var idx := start;
    if negative {
      idx := idx + 1;
    }
    if !IsDigit(buf[idx]) {
      return NotANumber;
    }
    var a := idx;
    var num, w := ReadWhole(buf, a, end);
    var ok, exponent, f;
    ok, num, exponent, f := ReadPoint(buf, a, w, num, end);
    if !ok {
      return NotANumber;
    }
    var isFloat := buf[w] == DOT;
    idx := f;
    if buf[f] == LOWER_E || buf[f] == UPPER_E {
      isFloat := true;
      var power;
      power, idx := ReadPower(buf, f, end);
      if power.None? {
        return NotANumber;
      }
      exponent := exponent + power.value;
    }
    if idx != end {
      return NotANumber;
    }
    ghost var l := Recognize(buf, start, end).value;
    RecognizedLies(buf, start, end, a, w, f);
    if isFloat {
      r := ParseFloat(buf, a, f, negative, num, exponent, w, l);
    } else {
      assert l.Mantissa() == l.whole;
      r := ParseInteger(buf, start, end, negative, num, l);
    }
  }

  /** Significand and exponent, where the digits fit into a word. */
  method ParseFloat(buf: Bytes, a: nat, f: nat, negative: bool, num: nat, exponent: int, ghost w: nat, ghost l: Literal)
    returns (r: Outcome)
    requires Lies(buf, a, w, f, l) && f - a <= WORD && negative == l.negative
    requires (l.frac.Some? || l.exp.Some?) && !(l.exp.Some? && l.exp.value.TooLarge())
    requires num == Num(l.Mantissa()) % WORD && exponent == l.Scale()
    ensures r == l.Meaning()
  {
    hide Num, RunEnd, Literal.Wide;
    var wide := ExceedsWord(buf, a, f, w, l);
    if wide {
      return FromText;
    }
    NarrowIsExact(l);
    return FromParts(negative, num, exponent);
  }

  /** The integer that was read is taken as it is where 18 digits or less cannot have wrapped. */
  method ParseInteger(buf: Bytes, start: nat, end: nat, negative: bool, num: nat, ghost l: Literal) returns (r: Outcome)
    requires IsToken(buf, start, end) && Recognize(buf, start, end) == Some(l) && negative == (buf[start] == HYPHEN)
    requires l.frac.None? && l.exp.None? && num == Num(l.whole) % WORD
    ensures r == l.Meaning()
  {
    hide Num, Recognize, RunEnd, Ends;
    IntegerLies(buf, start, end);
    var digitCount := end - start - 1 - (if negative then 1 else 0);
    if digitCount >= 18 {
      r := ParseLargeInteger(buf, start, negative, end);
    } else {
      ShortIsExact(l.whole);
      r := Whole(if negative then I64(AsI64(WrappingNeg(num))) else U64(num));
    }
  }

  lemma {:induction false} ShortIsExact(s: Bytes)
    requires AllDigits(s) && |s| <= 18
    ensures Num(s) < 1000000000000000000
  {
    NumBound(s);
    Pow10Monotone(|s|, 18);
    assert Pow10(18) == 1000000000000000000 by {
      assert Pow10(9) == 1000000000;
      assert Pow10(14) == 100000000000000;
    }
  }

  lemma {:induction false} RecognizedLies(buf: Bytes, start: nat, end: nat, a: nat, w: nat, f: nat)
    requires IsToken(buf, start, end) && Recognize(buf, start, end).Some?
    requires a == (if buf[start] == HYPHEN then start + 1 else start) && IsDigit(buf[a]) && w == WholeEnd(buf, a)
    requires f == if buf[w] == DOT then RunEnd(buf, w + 1) else w
    ensures Lies(buf, a, w, f, Recognize(buf, start, end).value)
  {
    EndsPlainly(buf[end]);
  }

  // ----- What the parser accepts and what it answers -----

  /** The outcome for a token, as `TryParseNumber` is proved to return it. */
  function Parsed(buf: Bytes, start: nat, end: nat): Outcome
    requires IsToken(buf, start, end)
  {
    match Recognize(buf, start, end)
    case None => NotANumber
    case Some(l) => l.Meaning()
  }

  /** Only literals of the grammar are numbers, and each of them means what it says. */
  lemma {:induction false} OnlyLiteralsAreNumbers(buf: Bytes, start: nat, end: nat)
    requires IsToken(buf, start, end)
    ensures forall l: Literal :: l.Valid() && l.Spell() == buf[start..end] ==> Parsed(buf, start, end) == l.Meaning()
    ensures Parsed(buf, start, end) != NotANumber ==>
      exists l: Literal :: l.Valid() && l.Spell() == buf[start..end] && Parsed(buf, start, end) == l.Meaning()
  {
    forall l: Literal | l.Valid() && l.Spell() == buf[start..end]
      ensures Parsed(buf, start, end) == l.Meaning()
    {
      SpelledIsRecognized(buf, start, end, l);
    }
    if Recognize(buf, start, end).Some? {
      RecognizedIsSpelled(buf, start, end);
      assert Recognize(buf, start, end).value.Valid();
    }
  }

  /** A token without `.` and exponent. */
  predicate IsIntegerText(text: Bytes) {
    forall k :: 0 <= k < |text| ==> text[k] !in {DOT, LOWER_E, UPPER_E}
  }

  predicate Canonical(digits: Bytes) {
    digits != [] && AllDigits(digits) && (digits[0] == ZERO ==> |digits| == 1)
  }

  /**
   * Integers of any length: a token without `.` and exponent is the unsigned number of its digits exactly if they
   * are canonical and below 2^64, the negative one exactly if they are at most 2^63, and no number otherwise.
   */
  lemma {:induction false} IntegersAreExact(buf: Bytes, start: nat, end: nat)
    requires IsToken(buf, start, end) && IsIntegerText(buf[start..end])
    ensures var negative := buf[start] == HYPHEN;
      var digits := if negative then buf[start + 1..end] else buf[start..end];
      Parsed(buf, start, end) ==
        if !Canonical(digits) then NotANumber
        else if negative then if Num(digits) <= I64_MIN_MAGNITUDE then Whole(I64(-(Num(digits) as int))) else NotANumber
        else if Num(digits) < WORD then Whole(U64(Num(digits))) else NotANumber
  {
    var negative := buf[start] == HYPHEN;
    var digits := if negative then buf[start + 1..end] else buf[start..end];
    var l := Literal(negative, digits, None, None);
    assert l.Spell() == buf[start..end];
    if Canonical(digits) {
      SpelledIsRecognized(buf, start, end, l);
    } else if Recognize(buf, start, end).Some? {
      NoDotNoPower(buf, start, end);
      assert false;
    }
  }

  lemma {:induction false} NoDotNoPower(buf: Bytes, start: nat, end: nat)
    requires IsToken(buf, start, end) && IsIntegerText(buf[start..end]) && Recognize(buf, start, end).Some?
    ensures Canonical(if buf[start] == HYPHEN then buf[start + 1..end] else buf[start..end])
  {
    var l := Recognize(buf, start, end).value;
    var a := if buf[start] == HYPHEN then start + 1 else start;
    EndsPlainly(buf[end]);
    assert forall k :: start <= k < end ==> buf[k] == buf[start..end][k - start];
    var w := WholeEnd(buf, a);
    assert w <= end;
    assert l.whole == buf[a..end];
  }

  /** A literal that the parser does not hold: the integer does not fit, or the exponent goes on past the limit. */
  predicate Rejected(l: Literal)
    requires l.Valid()
  {
    if l.frac.None? && l.exp.None? then
      if l.negative then Num(l.whole) > I64_MIN_MAGNITUDE else Num(l.whole) >= WORD
    else
      l.exp.Some? && l.exp.value.TooLarge()
  }

  /** A token is left to be a string exactly if it is no literal or one that is not held. */
  lemma {:induction false} NotANumberIffRejected(buf: Bytes, start: nat, end: nat)
    requires IsToken(buf, start, end)
    ensures Parsed(buf, start, end) == NotANumber
       <==> forall l: Literal :: l.Valid() && l.Spell() == buf[start..end] ==> Rejected(l)
  {
    hide Num, Literal.Spell, Recognize;
    forall l: Literal | l.Valid() && l.Spell() == buf[start..end]
      ensures Recognize(buf, start, end) == Some(l)
    {
      SpelledIsRecognized(buf, start, end, l);
    }
    if Recognize(buf, start, end).Some? {
      RecognizedIsSpelled(buf, start, end);
      var l := Recognize(buf, start, end).value;
      assert l.Valid() && l.Spell() == buf[start..end];
    }
  }

  /** Twenty digits, the first of them a two, and no number: the literal is above 2^64. */
  lemma {:induction false} LongIntegerIsNoNumber(buf: Bytes, start: nat, end: nat)
    requires IsToken(buf, start, end) && end == start + 20 && buf[start] == 50
    requires forall k :: start < k < end ==> buf[k] == ZERO
    ensures Literal(false, buf[start..end], None, None).Valid()
    ensures Parsed(buf, start, end) == NotANumber
  {
    var digits := buf[start..end];
    assert digits == [50] + digits[1..] && AllDigits(digits);
    NumConcat([50], digits[1..]);
    NumOne(50);
    assert Pow10(19) == 10000000000000000000 by {
      assert Pow10(9) == 1000000000;
      assert Pow10(14) == 100000000000000;
    }
    var l := Literal(false, digits, None, None);
    assert l.Spell() == digits;
    SpelledIsRecognized(buf, start, end, l);
  }

  /** `1e99999999999` is a literal whose exponent goes on past the limit, and no number. */
  lemma {:induction false} LongExponentIsNoNumber(buf: Bytes, start: nat, end: nat)
    requires IsToken(buf, start, end) && end == start + 13 && buf[start] == 49 && buf[start + 1] == LOWER_E
    requires forall k :: start + 2 <= k < end ==> buf[k] == NINE
    ensures Literal(false, [49], None, Some(Exponent(LOWER_E, None, buf[start + 2..end]))).Valid()
    ensures Parsed(buf, start, end) == NotANumber
  {
    hide Recognize, Num;
    var digits := buf[start + 2..end];
    NinesAreTooLarge(digits);
    var e := Exponent(LOWER_E, None, digits);
    var l := Literal(false, [49], None, Some(e));
    assert buf[start..end] == [49] + ([LOWER_E] + digits);
    assert l.Spell() == buf[start..end];
    SpelledIsRecognized(buf, start, end, l);
  }

  lemma {:induction false} NinesAreTooLarge(digits: Bytes)
    requires |digits| == 11 && forall k :: 0 <= k < 11 ==> digits[k] == NINE
    ensures AllDigits(digits) && Num(digits[..10]) > EXPONENT_LIMIT
  {
    hide Num;
    var front := digits[..10];
    assert front == [NINE] + front[1..];
    NumConcat([NINE], front[1..]);
    NumOne(NINE);
    assert Pow10(9) == 1000000000;
  }

  // ----- The number itself -----

  function Ten(e: int): (r: real)
    ensures r > 0.0
    decreases if e < 0 then -e else e
  {
    if e == 0 then 1.0 else if e > 0 then 10.0 * Ten(e - 1) else Ten(e + 1) / 10.0
  }

  lemma {:induction false} TenUp(e: int)
    ensures Ten(e + 1) == 10.0 * Ten(e)
  {
  }

  lemma {:induction false} TenAdds(d: int, e: int)
    ensures Ten(d + e) == Ten(d) * Ten(e)
    decreases if d < 0 then -d else d
  {
    hide Ten;
    if d == 0 {
      TenZero();
      assert d + e == e;
    } else if d > 0 {
      TenAdds(d - 1, e);
      TenAddsUp(d - 1, e);
    } else {
      TenAdds(d + 1, e);
      TenAddsUp(d, e);
    }
  }

  lemma {:induction false} TenAddsUp(d: int, e: int)
    ensures Ten(d + e) == Ten(d) * Ten(e) <==> Ten(d + 1 + e) == Ten(d + 1) * Ten(e)
  {
    hide Ten;
    TenUp(d);
    TenUp(d + e);
    assert d + e + 1 == d + 1 + e;
    TenTimes(Ten(d), Ten(e), Ten(d + e));
  }

  lemma {:induction false} TenTimes(a: real, b: real, p: real)
    ensures p == a * b <==> 10.0 * p == (10.0 * a) * b
  {
    assert (10.0 * a) * b == 10.0 * (a * b);
  }

  lemma {:induction false} TenZero()
    ensures Ten(0) == 1.0
  {
  }

  lemma {:induction false} TenOfNat(n: nat)
    ensures Ten(n) == Pow10(n) as real
  {
    if n > 0 {
      TenOfNat(n - 1);
    }
  }

  /** The number a literal denotes: its integer part and its fraction, scaled by its exponent. */
  function Denotes(l: Literal): real
    requires l.Valid()
  {
    var fraction := if l.frac.Some? then Num(l.frac.value) as real * Ten(-|l.frac.value|) else 0.0;
    var power := if l.exp.Some? then Ten(l.exp.value.Value()) else 1.0;
    var magnitude := (Num(l.whole) as real + fraction) * power;
    if l.negative then -magnitude else magnitude
  }

  function Magnitude(significand: nat, exponent: int): real { significand as real * Ten(exponent) }

  /** The pair handed on to the rounding is exactly the number that the token denotes. */
  lemma {:induction false} PartsDenote(l: Literal)
    requires l.Valid() && l.Meaning().FromParts?
    ensures var o := l.Meaning();
      && o.negative == l.negative && o.significand < 10000000000000000000
      && Denotes(l) == if o.negative then -Magnitude(o.significand, o.exponent) else Magnitude(o.significand, o.exponent)
  {
    hide Ten, Num, Literal.Wide, Exponent.TooLarge, Pow10;
    NarrowIsExact(l);
    var n := if l.frac.Some? then |l.frac.value| else 0;
    var power := if l.exp.Some? then l.exp.value.Value() else 0;
    var whole, all := Num(l.whole) as real, Num(l.Mantissa()) as real;
    var tail := if l.frac.Some? then Num(l.frac.value) as real else 0.0;
    MantissaSplits(l);
    TenZero();
    TenAdds(n, -n);
    TenAdds(-n, power);
    Rescale(whole, tail, all, Ten(n), Ten(-n), Ten(power), Ten(power - n));
  }

  lemma {:induction false} MantissaSplits(l: Literal)
    requires l.Valid()
    ensures var n := if l.frac.Some? then |l.frac.value| else 0;
      var tail := if l.frac.Some? then Num(l.frac.value) as real else 0.0;
      Num(l.Mantissa()) as real == Num(l.whole) as real * Ten(n) + tail
  {
    hide Num, Ten;
    if l.frac.Some? {
      TenOfNat(|l.frac.value|);
      NumConcat(l.whole, l.frac.value);
    } else {
      TenZero();
      assert l.Mantissa() == l.whole;
    }
  }

  lemma {:induction false} Rescale(whole: real, tail: real, all: real, up: real, down: real, power: real, both: real)
    requires all == whole * up + tail && up * down == 1.0 && both == down * power
    ensures (whole + tail * down) * power == all * both
  {
    calc {
      all * both;
      (whole * up + tail) * (down * power);
      ((whole * up + tail) * down) * power;
      (whole * (up * down) + tail * down) * power;
    }
  }
}
