/**
 * Eight digits at once in one 64-bit word. A word is a number below 2^64 whose lanes are its bytes, lowest first;
 * masks act on each lane, while additions, multiplications and shifts act on the whole word.
 */
module Swar {
  import opened Common
  import opened Decimals
  import Bits

  const WORD: nat := 0x1_0000_0000_0000_0000

  /** The word whose lanes are `lanes`. */
  function Pack(lanes: Bytes): nat {
    if lanes == [] then 0 else lanes[0] + 256 * Pack(lanes[1..])
  }

  /** The lowest `n` lanes of a word. */
  function Lanes(v: nat, n: nat): (lanes: Bytes)
    ensures |lanes| == n
  {
    if n == 0 then [] else [v % 256] + Lanes(v / 256, n - 1)
  }

  lemma {:induction false} LanesOfPack(lanes: Bytes)
    ensures Lanes(Pack(lanes), |lanes|) == lanes
  {
    if lanes != [] {
      LanesOfPack(lanes[1..]);
      LowLane(lanes[0], Pack(lanes[1..]));
      assert lanes == [lanes[0]] + lanes[1..];
    }
  }

  lemma {:induction false} LowLane(b: Byte, above: nat)
    ensures (b + 256 * above) % 256 == b && (b + 256 * above) / 256 == above
  {
  }

  /** `b & m` for the masks in use. */
  function Keep(b: Byte, m: Byte): Byte
    requires m in {0x00, 0x0F, 0xF0, 0xFF}
  {
    if m == 0x00 then 0 else if m == 0x0F then b % 16 else if m == 0xF0 then b - b % 16 else b
  }

  predicate IsMask(mask: Bytes) {
    |mask| == 8 && forall k :: 0 <= k < 8 ==> mask[k] in {0x00, 0x0F, 0xF0, 0xFF}
  }

  function Masked(lanes: Bytes, mask: Bytes): (r: Bytes)
    requires IsMask(mask) && |lanes| == 8
    ensures |r| == 8 && forall k {:trigger r[k]} :: 0 <= k < 8 ==> r[k] == Keep(lanes[k], mask[k])
  {
    seq(8, k requires 0 <= k < 8 => Keep(lanes[k], mask[k]))
  }

  function And(v: nat, mask: Bytes): nat
    requires IsMask(mask)
  {
    Pack(Masked(Lanes(v, 8), mask))
  }

  function Repeat(b: Byte): (mask: Bytes)
    ensures |mask| == 8 && forall k {:trigger mask[k]} :: 0 <= k < 8 ==> mask[k] == b
  {
    [b, b, b, b, b, b, b, b]
  }

  /** Eight lanes by weight. */
  function Weighed(a: int, b: int, c: int, d: int, e: int, f: int, g: int, h: int): int {
    a + 0x100 * b + 0x1_0000 * c + 0x100_0000 * d + 0x1_0000_0000 * e
      + 0x100_0000_0000 * f + 0x1_0000_0000_0000 * g + 0x100_0000_0000_0000 * h
  }

  lemma {:induction false} PackEight(s: Bytes)
    requires |s| == 8
    ensures Pack(s) == Weighed(s[0], s[1], s[2], s[3], s[4], s[5], s[6], s[7])
  {
    assert Pack(s[8..]) == 0;
    PackStep(s, 7);
    PackStep(s, 6);
    PackStep(s, 5);
    PackStep(s, 4);
    PackStep(s, 3);
    PackStep(s, 2);
    PackStep(s, 1);
    PackStep(s, 0);
    assert s[0..] == s;
  }

  lemma {:induction false} PackStep(s: Bytes, k: nat)
    requires k < |s|
    ensures Pack(s[k..]) == s[k] + 256 * Pack(s[k + 1..])
  {
    assert s[k..][1..] == s[k + 1..];
  }

  // ----- The value of eight digits -----

  /** `parse_eight_digits_swar`: three multiplications that join neighbours, then pairs, then fours. */
  function ParseEightDigitsSwar(chars: Bytes): nat
    requires |chars| == 8
  {
    var digits := And(Pack(chars), Repeat(0x0F));
    var pairs := digits * 2561 % WORD / 0x100;
    var fours := And(pairs, [0xFF, 0, 0xFF, 0, 0xFF, 0, 0xFF, 0]) * 6553601 % WORD / 0x1_0000;
    And(fours, [0xFF, 0xFF, 0, 0, 0xFF, 0xFF, 0, 0]) * 42949672960001 % WORD / 0x1_0000_0000
  }

  /** The overflow is dropped at the top and one lane, pair or half is shifted out at the bottom. */
  lemma {:induction false} DropAndShift(x: nat, over: nat, kept: nat, low: nat, unit: nat)
    requires unit in {0x100, 0x1_0000, 0x1_0000_0000} && low < unit
    requires x == WORD * over + unit * kept + low && unit * kept + low < WORD
    ensures x % WORD / unit == kept
  {
    assert x % WORD == unit * kept + low;
    if unit == 0x100 {
      assert (0x100 * kept + low) / 0x100 == kept;
    } else if unit == 0x1_0000 {
      assert (0x1_0000 * kept + low) / 0x1_0000 == kept;
    } else {
      assert (0x1_0000_0000 * kept + low) / 0x1_0000_0000 == kept;
    }
  }

  lemma {:induction false} JoinPairs(d: Bytes)
    requires |d| == 8 && forall k :: 0 <= k < 8 ==> d[k] <= 9
    ensures Pack(d) * 2561 % WORD / 0x100 == Pack(Pairs(d))
  {
    hide Pack;
    PackEight(d);
    PackEight(Pairs(d));
    assert Pack(d) * 2561 == WORD * (10 * d[7] as int) + 0x100 * Pack(Pairs(d)) + d[0];
    DropAndShift(Pack(d) * 2561, 10 * d[7] as int, Pack(Pairs(d)), d[0], 0x100);
  }

  function Pairs(d: Bytes): (e: Bytes)
    requires |d| == 8 && forall k :: 0 <= k < 8 ==> d[k] <= 9
    ensures |e| == 8
  {
    [10 * d[0] + d[1], 10 * d[1] + d[2], 10 * d[2] + d[3], 10 * d[3] + d[4],
     10 * d[4] + d[5], 10 * d[5] + d[6], 10 * d[6] + d[7], 0]
  }

  lemma {:induction false} JoinFours(p: Byte, q: Byte, r: Byte, s: Byte)
    requires p <= 99 && q <= 99 && r <= 99 && s <= 99
    ensures Pack([p, 0, q, 0, r, 0, s, 0]) * 6553601 % WORD / 0x1_0000 == Pack(Fours(p, q, r, s))
  {
    hide Pack;
    var d := [p, 0, q, 0, r, 0, s, 0];
    var f, g, h := 100 * p as int + q, 100 * q as int + r, 100 * r as int + s;
    PackEight(d);
    PackEight(Fours(p, q, r, s));
    assert Pack(Fours(p, q, r, s)) == f + 0x1_0000 * g + 0x1_0000_0000 * h;
    DropAndShift(Pack(d) * 6553601, 100 * s as int, Pack(Fours(p, q, r, s)), p, 0x1_0000);
  }

  function Low(n: nat): Byte { n % 256 }

  function High(n: nat): Byte
    requires n < 0x1_0000
  {
    n / 256
  }

  function Fours(p: Byte, q: Byte, r: Byte, s: Byte): (e: Bytes)
    requires p <= 99 && q <= 99 && r <= 99 && s <= 99
    ensures |e| == 8
  {
    var f, g, h := 100 * p as int + q, 100 * q as int + r, 100 * r as int + s;
    [Low(f), High(f), Low(g), High(g), Low(h), High(h), 0, 0]
  }

  lemma {:induction false} JoinEight(f: nat, g: nat)
    requires f <= 9999 && g <= 9999
    ensures Pack([Low(f), High(f), 0, 0, Low(g), High(g), 0, 0]) * 42949672960001 % WORD / 0x1_0000_0000
         == 10000 * f + g
  {
    hide Pack;
    var d := [Low(f), High(f), 0, 0, Low(g), High(g), 0, 0];
    PackEight(d);
    assert Pack(d) == f + 0x1_0000_0000 * g;
    DropAndShift(Pack(d) * 42949672960001, 10000 * g, 10000 * f + g, f, 0x1_0000_0000);
  }

  /** On digits the reduction is the number they stand for. */
  lemma {:induction false} EightDigitsAreParsed(chars: Bytes)
    requires |chars| == 8 && AllDigits(chars)
    ensures ParseEightDigitsSwar(chars) == Num(chars)
  {
    hide Pack, Lanes, Num, Keep;
    LanesOfPack(chars);
    var d := Masked(chars, Repeat(0x0F));
    forall k | 0 <= k < 8
      ensures d[k] == chars[k] - ZERO <= 9
    {
      KeepDigit(chars[k]);
    }
    JoinPairs(d);
    var e := Pairs(d);
    LanesOfPack(e);
    KeepEnds(e[0]);
    KeepEnds(e[2]);
    KeepEnds(e[4]);
    KeepEnds(e[6]);
    KeepNone(e);
    assert Masked(e, [0xFF, 0, 0xFF, 0, 0xFF, 0, 0xFF, 0]) == [e[0], 0, e[2], 0, e[4], 0, e[6], 0];
    JoinFours(e[0], e[2], e[4], e[6]);
    PairsOfFours(e[0], e[2], e[4], e[6]);
    NumEight(chars);
  }

  lemma {:induction false} KeepDigit(b: Byte)
    requires IsDigit(b)
    ensures Keep(b, 0x0F) == b - ZERO
  {
  }

  lemma {:induction false} KeepEnds(b: Byte)
    ensures Keep(b, 0xFF) == b
  {
  }

  lemma {:induction false} KeepNone(e: Bytes)
    ensures forall k :: 0 <= k < |e| ==> Keep(e[k], 0) == 0
  {
  }

  lemma {:induction false} PairsOfFours(p: Byte, q: Byte, r: Byte, s: Byte)
    requires p <= 99 && q <= 99 && r <= 99 && s <= 99
    ensures And(Pack(Fours(p, q, r, s)), [0xFF, 0xFF, 0, 0, 0xFF, 0xFF, 0, 0]) * 42949672960001 % WORD / 0x1_0000_0000
         == 1000000 * p as int + 10000 * q as int + 100 * r as int + s
  {
    hide Pack, Lanes;
    var w := Fours(p, q, r, s);
    var f, h := 100 * p as int + q, 100 * r as int + s;
    LanesOfPack(w);
    assert Masked(w, [0xFF, 0xFF, 0, 0, 0xFF, 0xFF, 0, 0]) == [Low(f), High(f), 0, 0, Low(h), High(h), 0, 0];
    JoinEight(f, h);
  }

  // ----- Are all eight digits? -----

  /** `is_made_of_eight_digits_fast`: both the byte and the byte plus six must have the high nibble 3. */
  predicate IsMadeOfEightDigitsFast(chars: Bytes)
    requires |chars| == 8
  {
    var val := Pack(chars);
    Bits.BitOr(And(val, Repeat(0xF0)), And((val + 0x0606_0606_0606_0606) % WORD, Repeat(0xF0)) / 16)
      == 0x3333_3333_3333_3333
  }

  function Nibbles(lanes: Bytes): (r: Bytes)
    requires |lanes| == 8
    ensures |r| == 8 && forall k {:trigger r[k]} :: 0 <= k < 8 ==> r[k] == lanes[k] / 16
  {
    seq(8, k requires 0 <= k < 8 => lanes[k] / 16)
  }

  lemma {:induction false} HighNibbles(v: nat)
    ensures And(v, Repeat(0xF0)) == 16 * Pack(Nibbles(Lanes(v, 8)))
  {
    hide Pack, Lanes;
    var lanes := Lanes(v, 8);
    var m, n := Masked(lanes, Repeat(0xF0)), Nibbles(lanes);
    PackEight(m);
    PackEight(n);
    assert forall k :: 0 <= k < 8 ==> m[k] == 16 * n[k];
  }

  /** Nibbles of two words joined lane by lane. */
  lemma {:induction false} JoinNibbles(high: Bytes, low: Bytes)
    requires |high| == |low| && (forall k :: 0 <= k < |high| ==> high[k] < 16 && low[k] < 16)
    ensures Bits.BitOr(16 * Pack(high), Pack(low)) == 16 * Pack(high) + Pack(low)
  {
    hide Bits.BitOr, Bits.Power;
    NibblePowers();
    if high != [] {
      JoinNibbles(high[1..], low[1..]);
      Bits.BitOrSplit(16 * Pack(high[1..]), 16 * high[0], Pack(low[1..]), low[0], 8);
      Bits.BitOrDisjoint(high[0], low[0], 4);
    } else {
      NoBits();
    }
  }

  lemma {:induction false} NibblePowers()
    ensures Bits.Power(4) == 16 && Bits.Power(8) == 256
  {
    assert Bits.Power(8) == 256 by { assert Bits.Power(4) == 16; }
  }

  lemma {:induction false} NoBits()
    ensures Bits.BitOr(0, 0) == 0
  {
  }

  lemma {:induction false} PackInjective(a: Bytes, b: Bytes)
    requires |a| == |b| && Pack(a) == Pack(b)
    ensures a == b
  {
    LanesOfPack(a);
    LanesOfPack(b);
  }

  predicate Small(chars: Bytes) { |chars| == 8 && forall k :: 0 <= k < 8 ==> chars[k] < 0x40 }

  function PlusSixes(chars: Bytes): (r: Bytes)
    requires Small(chars)
    ensures |r| == 8 && forall k {:trigger r[k]} :: 0 <= k < 8 ==> r[k] == chars[k] + 6
  {
    seq(8, k requires 0 <= k < 8 => chars[k] + 6)
  }

  lemma {:induction false} PlusSixesSum(chars: Bytes)
    requires Small(chars)
    ensures Pack(PlusSixes(chars)) == Pack(chars) + 0x0606_0606_0606_0606 < WORD
  {
    hide Pack, PlusSixes;
    var six := PlusSixes(chars);
    PackEight(chars);
    PackEight(six);
    assert six[0] == chars[0] + 6 && six[1] == chars[1] + 6 && six[2] == chars[2] + 6 && six[3] == chars[3] + 6;
    assert six[4] == chars[4] + 6 && six[5] == chars[5] + 6 && six[6] == chars[6] + 6 && six[7] == chars[7] + 6;
  }

  /** Without a carry between lanes, adding six to each lane is adding the word of sixes. */
  lemma {:induction false} PlusSix(chars: Bytes)
    requires Small(chars)
    ensures Lanes((Pack(chars) + 0x0606_0606_0606_0606) % WORD, 8) == PlusSixes(chars)
  {
    hide Pack, Lanes, PlusSixes;
    PlusSixesSum(chars);
    LanesOfPack(PlusSixes(chars));
  }

  predicate Threes(n: Bytes) { |n| == 8 && forall k :: 0 <= k < 8 ==> n[k] == 3 }

  lemma {:induction false} JoinedThrees(h: Bytes, t: Bytes)
    requires |h| == |t| == 8 && forall k :: 0 <= k < 8 ==> h[k] < 16 && t[k] < 16
    ensures Bits.BitOr(16 * Pack(h), Pack(t)) == 0x3333_3333_3333_3333 <==> Threes(h) && Threes(t)
  {
    hide Pack;
    JoinNibbles(h, t);
    var both: Bytes := seq(8, k requires 0 <= k < 8 => 16 * h[k] + t[k]);
    assert both == Repeat(0x33) <==> Threes(h) && Threes(t) by {
      assert forall k :: 0 <= k < 8 ==> (both[k] == 0x33 <==> h[k] == 3 && t[k] == 3);
    }
    assert Pack(both) == 16 * Pack(h) + Pack(t) by {
      PackEight(h);
      PackEight(t);
      PackEight(both);
    }
    assert Pack(Repeat(0x33)) == 0x3333_3333_3333_3333 by {
      PackEight(Repeat(0x33));
    }
    if Pack(both) == Pack(Repeat(0x33)) {
      PackInjective(both, Repeat(0x33));
    }
  }

  lemma {:induction false} EightDigitsAreFound(chars: Bytes)
    requires |chars| == 8
    ensures IsMadeOfEightDigitsFast(chars) <==> AllDigits(chars)
  {
    hide Pack, Lanes, And;
    var val := Pack(chars);
    var sum := (val + 0x0606_0606_0606_0606) % WORD;
    LanesOfPack(chars);
    HighNibbles(val);
    HighNibbles(sum);
    var lanes := Lanes(sum, 8);
    JoinedThrees(Nibbles(chars), Nibbles(lanes));
    assert And(sum, Repeat(0xF0)) / 16 == Pack(Nibbles(lanes));
    assert forall k :: 0 <= k < 8 ==> Nibbles(chars)[k] == chars[k] / 16;
    if Threes(Nibbles(chars)) {
      PlusSix(chars);
      assert forall k :: 0 <= k < 8 ==> Nibbles(lanes)[k] == (chars[k] + 6) / 16;
      assert Threes(Nibbles(lanes)) <==> AllDigits(chars);
    }
  }
}
