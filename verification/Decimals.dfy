/** Decimal digits: the number a run of them stands for, and what its length and leading zeros say about it. */
module Decimals {
  import opened Common

  predicate AllDigits(s: Bytes) {
    forall k :: 0 <= k < |s| ==> IsDigit(s[k])
  }

  function Num(s: Bytes): nat
    requires AllDigits(s)
  {
    if s == [] then 0 else 10 * Num(s[..|s| - 1]) + (s[|s| - 1] - ZERO)
  }

  function Pow10(n: nat): (p: nat)
    ensures p > 0
  {
    if n == 0 then 1 else 10 * Pow10(n - 1)
  }

  lemma {:induction false} NumAppend(s: Bytes, b: Byte)
    requires AllDigits(s) && IsDigit(b)
    ensures AllDigits(s + [b]) && Num(s + [b]) == 10 * Num(s) + (b - ZERO)
  {
    assert (s + [b])[..|s|] == s;
  }

  lemma {:induction false} NumConcat(s: Bytes, t: Bytes)
    requires AllDigits(s) && AllDigits(t)
    ensures AllDigits(s + t) && Num(s + t) == Num(s) * Pow10(|t|) + Num(t)
  {
    if t == [] {
      assert s + t == s;
    } else {
      var front, last := t[..|t| - 1], t[|t| - 1];
      NumConcat(s, front);
      NumAppend(s + front, last);
      assert s + t == s + front + [last];
      TenTimes(Num(s), Pow10(|front|));
    }
  }

  lemma {:induction false} TenTimes(a: nat, b: nat)
    ensures 10 * (a * b) == a * (10 * b)
  {
  }

  lemma {:induction false} NumBound(s: Bytes)
    requires AllDigits(s)
    ensures Num(s) < Pow10(|s|)
  {
    if s != [] {
      NumBound(s[..|s| - 1]);
    }
  }

  lemma {:induction false} Pow10Monotone(m: nat, n: nat)
    requires m <= n
    ensures Pow10(m) <= Pow10(n)
  {
    if m < n {
      Pow10Monotone(m, n - 1);
    }
  }

  lemma {:induction false} NumOfPrefix(s: Bytes, n: nat)
    requires AllDigits(s) && n <= |s|
    ensures Num(s[..n]) <= Num(s)
  {
    if n == |s| {
      assert s[..n] == s;
    } else {
      NumOfPrefix(s[..|s| - 1], n);
      assert s[..|s| - 1][..n] == s[..n];
    }
  }

  /** Leading zeros add nothing. */
  lemma {:induction false} NumZeros(s: Bytes, z: nat)
    requires AllDigits(s) && z <= |s| && forall k :: 0 <= k < z ==> s[k] == ZERO
    ensures Num(s) == Num(s[z..])
    decreases |s|
  {
    if z == |s| {
      if z > 0 {
        NumZeros(s[..z - 1], z - 1);
      }
    } else {
      NumZeros(s[..|s| - 1], z);
      assert s[z..][..|s| - 1 - z] == s[..|s| - 1][z..];
    }
  }

  lemma {:induction false} NumEight(t: Bytes)
    requires AllDigits(t) && |t| == 8
    ensures Num(t) == 10000000 * (t[0] - ZERO) + 1000000 * (t[1] - ZERO) + 100000 * (t[2] - ZERO)
                      + 10000 * (t[3] - ZERO) + 1000 * (t[4] - ZERO) + 100 * (t[5] - ZERO)
                      + 10 * (t[6] - ZERO) + (t[7] - ZERO)
  {
    NumPrefix(t, 0);
    NumPrefix(t, 1);
    NumPrefix(t, 2);
    NumPrefix(t, 3);
    NumPrefix(t, 4);
    NumPrefix(t, 5);
    NumPrefix(t, 6);
    NumPrefix(t, 7);
    assert t[..0] == [] && t[..8] == t;
  }

  lemma {:induction false} NumPrefix(t: Bytes, n: nat)
    requires AllDigits(t) && n < |t|
    ensures Num(t[..n + 1]) == 10 * Num(t[..n]) + (t[n] - ZERO)
  {
    assert t[..n + 1][..n] == t[..n];
  }
}
