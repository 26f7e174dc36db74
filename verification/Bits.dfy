/**
 * Machine words as sequences of bits, lowest first, of any width. Addition is written as the ripple of its carry
 * and proved to be addition modulo the width, with the carry out of the top bit as its overflow.
 */
module Bits {

  type Word = seq<bool>

  function Zero(width: nat): (w: Word)
    ensures |w| == width && forall i {:trigger w[i]} :: 0 <= i < width ==> !w[i]
  {
    seq(width, _ => false)
  }

  /** A word with one bit repeated, as a sign extension makes it. */
  function Spread(b: bool, width: nat): (w: Word)
    ensures |w| == width && forall i {:trigger w[i]} :: 0 <= i < width ==> w[i] == b
  {
    seq(width, _ => b)
  }

  /** A carry of 0 or 1 as a word. */
  function Low(b: bool, width: nat): (w: Word)
    requires width > 0
    ensures |w| == width && w[0] == b && forall i {:trigger w[i]} :: 1 <= i < width ==> !w[i]
  {
    [b] + Zero(width - 1)
  }

  function Not(a: Word): (w: Word)
    ensures |w| == |a| && forall i {:trigger w[i]} :: 0 <= i < |a| ==> w[i] == !a[i]
  {
    seq(|a|, i requires 0 <= i < |a| => !a[i])
  }

  function And(a: Word, b: Word): (w: Word)
    requires |a| == |b|
    ensures |w| == |a| && forall i {:trigger w[i]} :: 0 <= i < |a| ==> w[i] == (a[i] && b[i])
  {
    seq(|a|, i requires 0 <= i < |a| => a[i] && b[i])
  }

  function Or(a: Word, b: Word): (w: Word)
    requires |a| == |b|
    ensures |w| == |a| && forall i {:trigger w[i]} :: 0 <= i < |a| ==> w[i] == (a[i] || b[i])
  {
    seq(|a|, i requires 0 <= i < |a| => a[i] || b[i])
  }

  function Xor(a: Word, b: Word): (w: Word)
    requires |a| == |b|
    ensures |w| == |a| && forall i {:trigger w[i]} :: 0 <= i < |a| ==> w[i] == (a[i] != b[i])
  {
    seq(|a|, i requires 0 <= i < |a| => a[i] != b[i])
  }

  function ShiftLeft(a: Word, k: nat): (w: Word)
    ensures |w| == |a| && forall i {:trigger w[i]} :: 0 <= i < |a| ==> w[i] == (i >= k && a[i - k])
  {
    seq(|a|, i requires 0 <= i < |a| => i >= k && a[i - k])
  }

  function ShiftRight(a: Word, k: nat): (w: Word)
    ensures |w| == |a| && forall i {:trigger w[i]} :: 0 <= i < |a| ==> w[i] == (i + k < |a| && a[i + k])
  {
    seq(|a|, i requires 0 <= i < |a| => i + k < |a| && a[i + k])
  }

  /** The bits at even positions. */
  function EvenBits(width: nat): (w: Word)
    ensures |w| == width && forall i {:trigger w[i]} :: 0 <= i < width ==> w[i] == (i % 2 == 0)
  {
    seq(width, i => i % 2 == 0)
  }

  /** The carry into bit `i` of `a + b`. */
  function Carry(a: Word, b: Word, i: nat): bool
    requires |a| == |b| && i <= |a|
  {
    if i == 0 then false
    else if Carry(a, b, i - 1) then a[i - 1] || b[i - 1]
    else a[i - 1] && b[i - 1]
  }

  function Add(a: Word, b: Word): (w: Word)
    requires |a| == |b|
    ensures |w| == |a| && forall i {:trigger w[i]} :: 0 <= i < |a| ==> w[i] == ((a[i] != b[i]) != Carry(a, b, i))
  {
    seq(|a|, i requires 0 <= i < |a| => (a[i] != b[i]) != Carry(a, b, i))
  }

  function Overflows(a: Word, b: Word): bool
    requires |a| == |b|
  {
    Carry(a, b, |a|)
  }

  /** `a - 1`, wrapping: the borrow runs through the zeros up to the lowest set bit. */
  function MinusOne(a: Word): (w: Word)
    ensures |w| == |a| && forall i {:trigger w[i]} :: 0 <= i < |a| ==> w[i] == (if i <= TrailingZeros(a) then !a[i] else a[i])
  {
    seq(|a|, i requires 0 <= i < |a| => if i <= TrailingZeros(a) then !a[i] else a[i])
  }

  function TrailingZeros(a: Word): (n: nat)
    ensures n <= |a| && (n < |a| ==> a[n]) && forall i :: 0 <= i < n ==> !a[i]
  {
    if a == [] || a[0] then 0 else 1 + TrailingZeros(a[1..])
  }

  function IsZero(a: Word): (z: bool)
    ensures z <==> forall i :: 0 <= i < |a| ==> !a[i]
    ensures z <==> TrailingZeros(a) == |a|
  {
    TrailingZeros(a) == |a|
  }

  /** `(1 << k) - 1`: the bits below `k`. */
  function Below(k: nat, width: nat): (w: Word)
    ensures |w| == width && forall i {:trigger w[i]} :: 0 <= i < width ==> w[i] == (i < k)
  {
    seq(width, i => i < k)
  }

  /** `1 << k`. */
  function Single(k: nat, width: nat): (w: Word)
    ensures |w| == width && forall i {:trigger w[i]} :: 0 <= i < width ==> w[i] == (i == k)
  {
    seq(width, i => i == k)
  }

  function LeadingZeros(a: Word): (n: nat)
    ensures n <= |a| && (n < |a| ==> a[|a| - 1 - n]) && forall i :: |a| - n <= i < |a| ==> !a[i]
  {
    if a == [] || a[|a| - 1] then 0 else 1 + LeadingZeros(a[..|a| - 1])
  }

  // ----- Numbers -----

  function Power(n: nat): (p: nat)
    ensures p > 0
  {
    if n == 0 then 1 else 2 * Power(n - 1)
  }

  /** What a bit is worth at position `n`. */
  function Worth(b: bool, n: nat): nat { if b then Power(n) else 0 }

  /** The number that the lowest `n` bits stand for. */
  function Value(a: Word, n: nat): nat
    requires n <= |a|
  {
    if n == 0 then 0 else Value(a, n - 1) + Worth(a[n - 1], n - 1)
  }

  lemma {:induction false} ZeroValue(a: Word, n: nat)
    requires n <= |a| && forall i :: 0 <= i < n ==> !a[i]
    ensures Value(a, n) == 0
  {
    if n > 0 {
      ZeroValue(a, n - 1);
    }
  }

  lemma {:induction false} AddPrefix(a: Word, b: Word, n: nat)
    requires |a| == |b| && n <= |a|
    ensures Value(Add(a, b), n) + Worth(Carry(a, b, n), n) == Value(a, n) + Value(b, n)
  {
    if n > 0 {
      AddPrefix(a, b, n - 1);
      assert Add(a, b)[n - 1] == ((a[n - 1] != b[n - 1]) != Carry(a, b, n - 1));
    }
  }

  /** Ripple-carry addition is addition: the sum wraps at the width and the overflow says so. */
  lemma AddIsAddition(a: Word, b: Word)
    requires |a| == |b|
    ensures Value(Add(a, b), |a|) + Worth(Overflows(a, b), |a|) == Value(a, |a|) + Value(b, |b|)
  {
    AddPrefix(a, b, |a|);
  }

  lemma {:induction false} MinusOnePrefix(a: Word, n: nat)
    requires n <= |a|
    ensures Value(MinusOne(a), n) + 1 == Value(a, n) + Worth(n <= TrailingZeros(a), n)
  {
    if n > 0 {
      MinusOnePrefix(a, n - 1);
      if n <= TrailingZeros(a) {
        ZeroValue(a, n);
      }
    }
  }

  /** The borrow computes the predecessor, wrapping from zero to the all-ones word. */
  lemma MinusOneIsPredecessor(a: Word)
    ensures Value(MinusOne(a), |a|) + 1 == Value(a, |a|) + Worth(IsZero(a), |a|)
  {
    MinusOnePrefix(a, |a|);
  }

  /** `a & (a - 1)` clears the lowest set bit and nothing else. */
  lemma ClearLowest(a: Word)
    requires !IsZero(a)
    ensures And(a, MinusOne(a)) == a[TrailingZeros(a) := false]
  {
  }

  // ----- Set bits -----

  /** The positions of the set bits from bit `i` on, lowest first, `offset` added to each. */
  function Positions(a: Word, i: nat, offset: int): (s: seq<int>)
    requires i <= |a|
    ensures |s| <= |a| - i
    ensures forall k :: 0 <= k < |s| ==> offset + i <= s[k] < offset + |a|
    decreases |a| - i
  {
    if i == |a| then []
    else (if a[i] then [offset + i] else []) + Positions(a, i + 1, offset)
  }

  lemma {:induction false} PositionsSkip(a: Word, i: nat, j: nat, offset: int)
    requires i <= j <= |a| && forall k :: i <= k < j ==> !a[k]
    ensures Positions(a, i, offset) == Positions(a, j, offset)
    decreases j - i
  {
    if i < j {
      PositionsSkip(a, i + 1, j, offset);
    }
  }

  lemma {:induction false} PositionsSame(a: Word, b: Word, i: nat, offset: int)
    requires |a| == |b| && i <= |a| && forall k :: i <= k < |a| ==> a[k] == b[k]
    ensures Positions(a, i, offset) == Positions(b, i, offset)
    decreases |a| - i
  {
    if i < |a| {
      PositionsSame(a, b, i + 1, offset);
    }
  }

  /** The lowest set bit is the first position; clearing it leaves the others. */
  lemma PositionsFirst(a: Word, offset: int)
    requires !IsZero(a)
    ensures var t := TrailingZeros(a);
      Positions(a, 0, offset) == [offset + t] + Positions(a[t := false], 0, offset)
  {
    var t := TrailingZeros(a);
    PositionsSkip(a, 0, t, offset);
    PositionsSkip(a[t := false], 0, t + 1, offset);
    PositionsSame(a, a[t := false], t + 1, offset);
  }

  lemma PositionsNone(a: Word, offset: int)
    requires IsZero(a)
    ensures Positions(a, 0, offset) == []
  {
    PositionsSkip(a, 0, |a|, offset);
  }

  // ----- Bitwise or of numbers -----

  function BitOr(x: nat, y: nat): (z: nat)
    ensures x <= z && y <= z
    decreases x + y
  {
    if x == 0 && y == 0 then 0
    else (if x % 2 == 1 || y % 2 == 1 then 1 else 0) + 2 * BitOr(x / 2, y / 2)
  }

  lemma {:induction false} BitOrZero(y: nat)
    ensures BitOr(0, y) == y
  {
    if y > 0 {
      BitOrZero(y / 2);
    }
  }

  /** Numbers without a common bit add up. */
  lemma {:induction false} BitOrDisjoint(x: nat, y: nat, k: nat)
    requires y < Power(k)
    ensures BitOr(Power(k) * x, y) == Power(k) * x + y
    decreases k
  {
    if k == 0 {
      BitOrZero(x);
      BitOrCommutes(x, 0);
    } else {
      Halves(x, Power(k - 1));
      BitOrDisjoint(x, y / 2, k - 1);
    }
  }

  lemma {:induction false} Halves(x: nat, p: nat)
    ensures 2 * p * x / 2 == p * x && 2 * p * x % 2 == 0
  {
    assert 2 * p * x == 2 * (p * x);
  }

  lemma {:induction false} BitOrCommutes(x: nat, y: nat)
    ensures BitOr(x, y) == BitOr(y, x)
    decreases x + y
  {
    if x != 0 || y != 0 {
      BitOrCommutes(x / 2, y / 2);
    }
  }

  lemma {:induction false} BitOrBound(x: nat, y: nat, k: nat)
    requires x < Power(k) && y < Power(k)
    ensures BitOr(x, y) < Power(k)
    decreases k
  {
    if k > 0 {
      BitOrBound(x / 2, y / 2, k - 1);
    }
  }

  /** The low bits of two numbers and their remaining bits are joined apart. */
  lemma {:induction false} BitOrSplit(a: nat, x: nat, b: nat, y: nat, k: nat)
    requires x < Power(k) && y < Power(k)
    ensures BitOr(Power(k) * a + x, Power(k) * b + y) == Power(k) * BitOr(a, b) + BitOr(x, y)
    decreases k
  {
    if k > 0 {
      Halves(a, Power(k - 1));
      Halves(b, Power(k - 1));
      BitOrSplit(a, x / 2, b, y / 2, k - 1);
      Halves(BitOr(a, b), Power(k - 1));
      assert Power(k) * a == 2 * (Power(k - 1) * a) && Power(k) * b == 2 * (Power(k - 1) * b);
      assert (Power(k) * a + x) / 2 == Power(k - 1) * a + x / 2 && (Power(k) * a + x) % 2 == x % 2;
      assert (Power(k) * b + y) / 2 == Power(k - 1) * b + y / 2 && (Power(k) * b + y) % 2 == y % 2;
    }
  }
}
