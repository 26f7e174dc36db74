/** Where the cuts between blocks fall matters to the stripping of comments, and when it does. */
module Cuts {
  import opened Common
  import opened Comments

  /** Every comment blanked together with the newline that starts its line, as if the input were one block. */
  function Uncut(bytes: Bytes): (s: Bytes)
    ensures |s| == |bytes|
  {
    seq(|bytes|, k requires 0 <= k < |bytes| =>
      if InComment(bytes, k) || (exists o :: k < o < |bytes| && Precedes(bytes, k, o)) then SPACE else bytes[k])
  }

  /** The newline and the comment it precedes lie in one block, or side by side. */
  predicate Together(k: nat, o: nat, width: nat)
    requires width > 0
  {
    k / width == o / width || o == k + 1
  }

  /** No cut comes between the newline at `k` and a comment it precedes. */
  predicate KeptTogether(bytes: Bytes, k: nat, width: nat)
    requires k < |bytes| && width > 0
  {
    forall o :: k < o < |bytes| && Precedes(bytes, k, o) ==> Together(k, o, width)
  }

  lemma {:induction false} OneOpener(bytes: Bytes, k: nat, o: nat, p: nat)
    requires k < o < |bytes| && k < p < |bytes| && Precedes(bytes, k, o) && Precedes(bytes, k, p)
    ensures o == p
  {
  }

  lemma {:induction false} NewlinesAreNotComment(bytes: Bytes, k: nat)
    requires k < |bytes| && bytes[k] == NEWLINE
    ensures !InComment(bytes, k)
  {
  }

  lemma {:induction false} SameAt(bytes: Bytes, width: nat, k: nat)
    requires k < |bytes| && width > 0
    ensures Stripped(bytes, width)[k] == Uncut(bytes)[k] <==> KeptTogether(bytes, k, width)
  {
    hide InComment, Precedes;
    if o :| k < o < |bytes| && Precedes(bytes, k, o) {
      StartsLine(bytes, k, o);
      NewlinesAreNotComment(bytes, k);
      forall p | k < p < |bytes| && Precedes(bytes, k, p)
        ensures p == o
      {
        OneOpener(bytes, k, o, p);
      }
      assert Swallowed(bytes, k, width) <==> Together(k, o, width);
    }
  }

  lemma {:induction false} StartsLine(bytes: Bytes, k: nat, o: nat)
    requires k < o < |bytes| && Precedes(bytes, k, o)
    ensures bytes[k] == NEWLINE
  {
  }

  /**
   * Stripping block by block gives what stripping the whole would, exactly if no cut comes between a newline and the
   * indented comment it precedes.
   */
  lemma {:induction false} CutsMatterBetweenNewlineAndComment(bytes: Bytes, width: nat)
    requires width > 0
    ensures Stripped(bytes, width) == Uncut(bytes)
       <==> forall k :: 0 <= k < |bytes| ==> KeptTogether(bytes, k, width)
  {
    hide Stripped, Uncut, KeptTogether;
    forall k | 0 <= k < |bytes|
      ensures Stripped(bytes, width)[k] == Uncut(bytes)[k] <==> KeptTogether(bytes, k, width)
    {
      SameAt(bytes, width, k);
    }
  }

  /** A newline at the end of a block stays when an indented comment opens the next one. */
  lemma {:induction false} CutKeepsNewline(bytes: Bytes, width: nat)
    requires 0 < width && |bytes| == width + 2
    requires bytes[width - 1] == NEWLINE && bytes[width] == SPACE && bytes[width + 1] == HASH
    ensures Stripped(bytes, width)[width - 1] == NEWLINE && Uncut(bytes)[width - 1] == SPACE
  {
    hide Stripped, Uncut;
    assert LineAt(bytes, width).Indent? && LineAt(bytes, width + 1).Indent?;
    var k, o := width - 1, width + 1;
    assert Precedes(bytes, k, o);
    assert o / width != k / width by {
      assert k / width == 0;
    }
    SameAt(bytes, width, k);
    KeptOrSpace(bytes, width, k, o);
  }

  lemma {:induction false} KeptOrSpace(bytes: Bytes, width: nat, k: nat, o: nat)
    requires k < o < |bytes| && width > 0 && Precedes(bytes, k, o)
    ensures Uncut(bytes)[k] == SPACE && Stripped(bytes, width)[k] in {SPACE, NEWLINE}
  {
  }
}
