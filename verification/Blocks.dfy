/**
 * Stage 1 on one block of bytes at a time: words with a bit for each byte, and the carries that take the state of
 * the scan from one block to the next. Blocks may have any even width.
 */
module Blocks {
  import opened Common
  import opened Bits
  import opened Scanner

  /** The words that classify a block, one bit for each byte. */
  function Mask(bytes: Bytes, b: Byte): (w: Word)
    ensures |w| == |bytes| && forall i {:trigger w[i]} :: 0 <= i < |bytes| ==> w[i] == (bytes[i] == b)
  {
    seq(|bytes|, i requires 0 <= i < |bytes| => bytes[i] == b)
  }

  function AtMost(bytes: Bytes, b: Byte): (w: Word)
    ensures |w| == |bytes| && forall i {:trigger w[i]} :: 0 <= i < |bytes| ==> w[i] == (bytes[i] <= b)
  {
    seq(|bytes|, i requires 0 <= i < |bytes| => bytes[i] <= b)
  }

  function Structurals(bytes: Bytes): (w: Word)
    ensures |w| == |bytes| && forall i {:trigger w[i]} :: 0 <= i < |bytes| ==> w[i] == IsStructural(bytes[i])
  {
    seq(|bytes|, i requires 0 <= i < |bytes| => IsStructural(bytes[i]))
  }

  // ----- Backslashes -----

  /** Whether an odd run of backslashes ends in front of bit `i`, `carried` into the block. */
  function Odd(bs: Word, carried: bool, i: nat): bool
    requires i <= |bs|
  {
    if i == 0 then carried else bs[i - 1] && !Odd(bs, carried, i - 1)
  }

  function StartEdges(bs: Word): (w: Word)
    ensures |w| == |bs| && forall i {:trigger w[i]} :: 0 <= i < |bs| ==> w[i] == (bs[i] && (i == 0 || !bs[i - 1]))
  {
    And(bs, Not(ShiftLeft(bs, 1)))
  }

  function EvenStartMask(width: nat, carried: bool): (w: Word)
    requires width > 0
    ensures |w| == width
    ensures forall i {:trigger w[i]} :: 0 <= i < width ==> w[i] == (if i == 0 then !carried else i % 2 == 0)
  {
    Xor(EvenBits(width), Low(carried, width))
  }

  /** The carries of the two additions: one runs through each run of backslashes, told by where the run starts. */
  lemma {:induction false} CarriesRun(bs: Word, carried: bool, i: nat)
    requires 0 < |bs| && i <= |bs|
    ensures var mask := EvenStartMask(|bs|, carried);
      var even := Carry(bs, And(StartEdges(bs), mask), i);
      var odd := Carry(bs, And(StartEdges(bs), Not(mask)), i);
      && (i == 0 ==> !even && !odd)
      && (i > 0 ==> !(even && odd) && ((even || odd) <==> bs[i - 1]))
      && (i > 0 ==> (Odd(bs, carried, i) <==> if i % 2 == 0 then odd else even))
  {
    if i > 0 {
      CarriesRun(bs, carried, i - 1);
    }
  }

  // ----- Quotes -----

  /** Whether a quote is open in front of bit `i`. */
  function Inside(quotes: Word, carried: bool, i: nat): bool
    requires i <= |quotes|
  {
    if i == 0 then carried else Inside(quotes, carried, i - 1) != quotes[i - 1]
  }

  /** The parity of the set bits in a window. */
  function Parity(a: Word, lo: nat, hi: nat): bool
    requires lo <= hi <= |a|
  {
    if lo == hi then false else Parity(a, lo, hi - 1) != a[hi - 1]
  }

  lemma {:induction false} ParitySplit(a: Word, lo: nat, mid: nat, hi: nat)
    requires lo <= mid <= hi <= |a|
    ensures Parity(a, lo, hi) == (Parity(a, lo, mid) != Parity(a, mid, hi))
    decreases hi
  {
    if mid < hi {
      ParitySplit(a, lo, mid, hi - 1);
    }
  }

  lemma {:induction false} InsideIsParity(quotes: Word, carried: bool, i: nat)
    requires i <= |quotes|
    ensures Inside(quotes, carried, i) == (Parity(quotes, 0, i) != carried)
  {
    if i > 0 {
      InsideIsParity(quotes, carried, i - 1);
    }
  }

  /** The parity of the `width` bits that end with bit `i`. */
  function Window(a: Word, i: nat, width: nat): bool
    requires i < |a|
  {
    Parity(a, if i + 1 <= width then 0 else i + 1 - width, i + 1)
  }

  /** One rung of the ladder doubles the width of every window. */
  lemma WindowDoubles(a: Word, m: Word, shift: nat)
    requires |m| == |a| && shift > 0 && forall i :: 0 <= i < |a| ==> m[i] == Window(a, i, shift)
    ensures forall i :: 0 <= i < |a| ==> Xor(m, ShiftLeft(m, shift))[i] == Window(a, i, 2 * shift)
  {
    forall i | 0 <= i < |a|
      ensures Xor(m, ShiftLeft(m, shift))[i] == Window(a, i, 2 * shift)
    {
      if i >= shift {
        assert m[i - shift] == Window(a, i - shift, shift);
        ParitySplit(a, if i + 1 <= 2 * shift then 0 else i + 1 - 2 * shift, i + 1 - shift, i + 1);
      }
    }
  }

  /** The doubling shift-xor ladder computes the prefix parity of a word of any width. */
  method ComputeQuoteMask(quoteBits: Word) returns (mask: Word)
    ensures |mask| == |quoteBits|
    ensures forall i :: 0 <= i < |mask| ==> mask[i] == Parity(quoteBits, 0, i + 1)
  {
    mask := quoteBits;
    var shift := 1;
    forall i | 0 <= i < |mask|
      ensures mask[i] == Window(quoteBits, i, shift)
    {
      assert Parity(quoteBits, i, i) == false;
    }
    while shift < |mask|
      invariant shift > 0 && |mask| == |quoteBits|
      invariant forall i :: 0 <= i < |mask| ==> mask[i] == Window(quoteBits, i, shift)
      decreases |mask| - shift
    {
      WindowDoubles(quoteBits, mask, shift);
      mask := Xor(mask, ShiftLeft(mask, shift));
      shift := 2 * shift;
    }
  }

  // ----- One block -----

  /** The state that one block hands to the next. */
  class Carries {
    var endsOddBackslash: bool
    var insideQuote: bool
    var endsPseudoPred: bool
    var error: bool

    constructor ()
      ensures !endsOddBackslash && !insideQuote && endsPseudoPred && !error
    {
      endsOddBackslash, insideQuote, endsPseudoPred, error := false, false, true, false;
    }

    /** The bytes that follow an odd run of backslashes and are not backslashes themselves. */
    method FindOddBackslashSequences(bsBits: Word) returns (oddEnds: Word)
      requires |bsBits| > 0 && |bsBits| % 2 == 0
      modifies `endsOddBackslash
      ensures |oddEnds| == |bsBits|
      ensures forall i :: 0 <= i < |bsBits| ==> oddEnds[i] == (!bsBits[i] && Odd(bsBits, old(endsOddBackslash), i))
      ensures endsOddBackslash == Odd(bsBits, old(endsOddBackslash), |bsBits|)
    {
      var width := |bsBits|;
      var startEdges := StartEdges(bsBits);
      var evenStartMask := EvenStartMask(width, endsOddBackslash);
      var evenStarts := And(startEdges, evenStartMask);
      var oddStarts := And(startEdges, Not(evenStartMask));
      var evenCarries := Add(bsBits, evenStarts);
      var oddCarries := Or(Add(bsBits, oddStarts), Low(endsOddBackslash, width));
      forall i | 0 <= i <= width {
        CarriesRun(bsBits, endsOddBackslash, i);
      }
      endsOddBackslash := Overflows(bsBits, oddStarts);
      var evenCarryEnds := And(evenCarries, Not(bsBits));
      var oddCarryEnds := And(oddCarries, Not(bsBits));
      var evenStartOddEnd := And(evenCarryEnds, Not(EvenBits(width)));
      var oddStartEvenEnd := And(oddCarryEnds, EvenBits(width));
      oddEnds := Or(evenStartOddEnd, oddStartEvenEnd);
    }

    /** The quotes that count, and the mask of the bytes inside them, opening quotes included. */
    method FindQuoteMaskAndBits(quoteBytes: Word, control: Word, oddEnds: Word) returns (quoteMask: Word, quoteBits: Word)
      requires 0 < |quoteBytes| == |control| == |oddEnds|
      modifies `insideQuote, `error
      ensures |quoteMask| == |quoteBits| == |oddEnds|
      ensures forall i :: 0 <= i < |oddEnds| ==> quoteBits[i] == (quoteBytes[i] && !oddEnds[i])
      ensures forall i :: 0 <= i < |oddEnds| ==> quoteMask[i] == Inside(quoteBits, old(insideQuote), i + 1)
      ensures insideQuote == Inside(quoteBits, old(insideQuote), |oddEnds|)
      ensures error <==> old(error) || exists i :: 0 <= i < |oddEnds| && quoteMask[i] && control[i]
    {
      quoteBits := And(quoteBytes, Not(oddEnds));
      quoteMask := ComputeQuoteMask(quoteBits);
      forall i | 0 <= i <= |oddEnds| {
        InsideIsParity(quoteBits, insideQuote, i);
      }
      quoteMask := Xor(quoteMask, Spread(insideQuote, |oddEnds|));
      var unescaped := And(quoteMask, control);
      error := error || !IsZero(unescaped);
      assert forall i :: 0 <= i < |oddEnds| ==> unescaped[i] == (quoteMask[i] && control[i]);
      insideQuote := quoteMask[|quoteMask| - 1];
    }

    /** The bytes to emit: separators outside quotes, opening quotes, and the first byte of each token. */
    method FinalizeStructurals(found: Word, whitespace: Word, quoteMask: Word, quoteBits: Word) returns (structurals: Word)
      requires 0 < |found| == |whitespace| == |quoteMask| == |quoteBits|
      modifies `endsPseudoPred
      ensures |structurals| == |found|
      ensures forall i :: 0 <= i < |found| ==>
        structurals[i] == ((Separator(found, quoteMask, quoteBits, i)
                            || (PseudoPred(found, whitespace, quoteMask, quoteBits, old(endsPseudoPred), i) && !whitespace[i] && !quoteMask[i]))
                           && !(quoteBits[i] && !quoteMask[i]))
      ensures endsPseudoPred == PseudoPred(found, whitespace, quoteMask, quoteBits, old(endsPseudoPred), |found|)
    {
      structurals := And(found, Not(quoteMask));
      structurals := Or(structurals, quoteBits);
      var pseudoPred := Or(structurals, whitespace);
      var shifted := Or(ShiftLeft(pseudoPred, 1), Low(endsPseudoPred, |found|));
      endsPseudoPred := pseudoPred[|found| - 1];
      var pseudoStructurals := And(And(shifted, Not(whitespace)), Not(quoteMask));
      structurals := Or(structurals, pseudoStructurals);
      structurals := And(structurals, Not(And(quoteBits, Not(quoteMask))));
    }
  }

  predicate Separator(found: Word, quoteMask: Word, quoteBits: Word, i: nat)
    requires i < |found| == |quoteMask| == |quoteBits|
  {
    (found[i] && !quoteMask[i]) || quoteBits[i]
  }

  /** Whether the byte before bit `i` separates tokens. */
  predicate PseudoPred(found: Word, whitespace: Word, quoteMask: Word, quoteBits: Word, carried: bool, i: nat)
    requires i <= |found| == |quoteMask| == |quoteBits| == |whitespace|
  {
    if i == 0 then carried else Separator(found, quoteMask, quoteBits, i - 1) || whitespace[i - 1]
  }
}
