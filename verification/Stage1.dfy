/**
 * `_find_structural_bits`: the loop over 64-byte blocks that strips comments, classifies bytes and flattens the
 * structural bits of the block before. It is proved to answer what the scan of the stripped bytes, one at a
 * time, answers.
 */
module Stage1 {
  import opened Common
  import opened Bits
  import opened Scanner
  import opened Blocks
  import opened Comments

  const SIMDINPUT_LENGTH: nat := 64

  function Spaces(n: nat): (s: Bytes)
    ensures |s| == n && forall k {:trigger s[k]} :: 0 <= k < n ==> s[k] == SPACE
  {
    seq(n, _ => SPACE)
  }

  /** The input as the blocks see it, with spaces behind its end. */
  function Padded(bytes: Bytes): (s: Bytes)
    ensures |s| == |bytes| + SIMDINPUT_LENGTH
    ensures forall k {:trigger s[k]} :: 0 <= k < |s| ==> s[k] == if k < |bytes| then bytes[k] else SPACE
  {
    bytes + Spaces(SIMDINPUT_LENGTH)
  }

  // ----- Flattening -----

  function CountOnes(a: Word): (n: nat)
    ensures n == |Positions(a, 0, 0)|
  {
    |Positions(a, 0, 0)|
  }

  lemma {:induction false} CountAnywhere(a: Word, i: nat, offset: int)
    requires i <= |a|
    ensures |Positions(a, i, offset)| == |Positions(a, i, 0)|
    decreases |a| - i
  {
    if i < |a| {
      CountAnywhere(a, i + 1, offset);
    }
  }

  /** One step of the unrolled loop: the next position, or a value that is cut off later. */
  lemma FlattenStep(todo: Word, offset: int)
    ensures var rest := And(todo, MinusOne(todo));
      if IsZero(todo) then IsZero(rest)
      else Positions(todo, 0, offset) == [offset + TrailingZeros(todo)] + Positions(rest, 0, offset)
  {
    if !IsZero(todo) {
      ClearLowest(todo);
      PositionsFirst(todo, offset);
    }
  }

  /** Eight positions at a time, written past the end and cut back to the count. */
  method FlattenBits(base: seq<nat>, idx: nat, bits: Word) returns (out: seq<nat>)
    requires idx >= |bits| || IsZero(bits)
    ensures out == base + Positions(bits, 0, idx - |bits|)
  {
    var cnt := CountOnes(bits);
    var offset: int := idx - |bits|;
    CountAnywhere(bits, 0, offset);
    ghost var all := Positions(bits, 0, offset);
    var todo := bits;
    var written: seq<int> := [];
    while !IsZero(todo)
      invariant |todo| == |bits|
      invariant Flattened(all, written, Positions(todo, 0, offset))
      decreases |Positions(todo, 0, offset)|
    {
      written, todo := FlattenEight(all, written, offset, todo);
    }
    PositionsNone(todo, offset);
    if IsZero(bits) {
      PositionsNone(bits, offset);
    }
    assert written[..cnt] == all;
    assert forall k :: 0 <= k < cnt ==> all[k] >= 0;
    out := base + written[..cnt];
  }

  method FlattenEight(ghost all: seq<int>, before: seq<int>, offset: int, bits: Word) returns (written: seq<int>, todo: Word)
    requires Flattened(all, before, Positions(bits, 0, offset)) && !IsZero(bits)
    ensures |todo| == |bits| && Flattened(all, written, Positions(todo, 0, offset))
    ensures |Positions(todo, 0, offset)| < |Positions(bits, 0, offset)|
  {
    written, todo := before, bits;
    var k := 0;
    while k < 8
      invariant 0 <= k <= 8 && |todo| == |bits| && (k == 0 ==> todo == bits)
      invariant Flattened(all, written, Positions(todo, 0, offset))
      invariant k > 0 ==> |Positions(todo, 0, offset)| < |Positions(bits, 0, offset)|
    {
      FlattenStep(todo, offset);
      WriteStep(all, written, todo, offset);
      written := written + [offset + TrailingZeros(todo)];
      todo := And(todo, MinusOne(todo));
      k := k + 1;
    }
  }

  /** What is written next is the next position, or waste once none is left. */
  lemma WriteStep(all: seq<int>, written: seq<int>, todo: Word, offset: int)
    requires Flattened(all, written, Positions(todo, 0, offset))
    ensures var rest := Positions(And(todo, MinusOne(todo)), 0, offset);
      && Flattened(all, written + [offset + TrailingZeros(todo)], rest)
      && |rest| <= |Positions(todo, 0, offset)| && (!IsZero(todo) ==> |rest| < |Positions(todo, 0, offset)|)
  {
    FlattenStep(todo, offset);
    var left, rest := Positions(todo, 0, offset), Positions(And(todo, MinusOne(todo)), 0, offset);
    var more := written + [offset + TrailingZeros(todo)];
    if IsZero(todo) {
      PositionsNone(todo, offset);
      PositionsNone(And(todo, MinusOne(todo)), offset);
      assert more[..|all|] == written[..|all|];
    } else {
      assert more[..|all| - |rest|] == written[..|all| - |left|] + [left[0]];
      assert rest == left[1..];
    }
  }

  /** Of all positions the first ones have been written and the others are left; what is written on top is waste. */
  ghost predicate Flattened(all: seq<int>, written: seq<int>, left: seq<int>) {
    |left| <= |all| && |written| >= |all| - |left|
    && written[..|all| - |left|] + left == all
    && (left != [] ==> |written| == |all| - |left|)
  }

  // ----- Scanning a block -----

  ghost predicate Represents(c: Carries, s: Scan)
    reads c
  {
    c.endsOddBackslash == s.odd && c.insideQuote == s.inQuote && c.endsPseudoPred == s.separated && c.error == s.error
  }

  /** The words of one block that starts at `idx`, as the carries of the scan before it make them. */
  ghost predicate BlockWords(bytes: Bytes, idx: nat, oddEnds: Word, quoteMask: Word, quoteBits: Word, structurals: Word) {
    && idx + |oddEnds| <= |bytes| && |oddEnds| == |quoteMask| == |quoteBits| == |structurals|
    && var s := ScanTo(bytes, idx);
       var block := bytes[idx..idx + |oddEnds|];
       && (forall i :: 0 <= i < |oddEnds| ==> oddEnds[i] == (block[i] != BACKSLASH && Odd(Mask(block, BACKSLASH), s.odd, i)))
       && (forall i :: 0 <= i < |oddEnds| ==> quoteBits[i] == (block[i] == QUOTE && !oddEnds[i]))
       && (forall i :: 0 <= i < |oddEnds| ==> quoteMask[i] == Inside(quoteBits, s.inQuote, i + 1))
       && (forall i :: 0 <= i < |oddEnds| ==>
             structurals[i] ==
               ((Separator(Structurals(block), quoteMask, quoteBits, i)
                 || (PseudoPred(Structurals(block), Mask(block, SPACE), quoteMask, quoteBits, s.separated, i)
                     && !(block[i] == SPACE) && !quoteMask[i]))
                && !(quoteBits[i] && !quoteMask[i])))
  }

  /** The scan's state in front of bit `i`. */
  ghost predicate StateAt(bytes: Bytes, idx: nat, oddEnds: Word, quoteMask: Word, quoteBits: Word, structurals: Word, i: nat)
    requires BlockWords(bytes, idx, oddEnds, quoteMask, quoteBits, structurals) && i <= |oddEnds|
  {
    var s, t, block := ScanTo(bytes, idx), ScanTo(bytes, idx + i), bytes[idx..idx + |oddEnds|];
    && t.odd == Odd(Mask(block, BACKSLASH), s.odd, i)
    && t.inQuote == Inside(quoteBits, s.inQuote, i)
    && t.separated == PseudoPred(Structurals(block), Mask(block, SPACE), quoteMask, quoteBits, s.separated, i)
  }

  /** One bit of each word says what the scan does with its byte. */
  lemma BitStep(bytes: Bytes, idx: nat, oddEnds: Word, quoteMask: Word, quoteBits: Word, structurals: Word, i: nat)
    requires BlockWords(bytes, idx, oddEnds, quoteMask, quoteBits, structurals) && i < |oddEnds|
    requires StateAt(bytes, idx, oddEnds, quoteMask, quoteBits, structurals, i)
    ensures var t, b := ScanTo(bytes, idx + i), bytes[idx + i];
      && t.Quotes(b) == quoteBits[i] && t.InsideAfter(b) == quoteMask[i]
      && t.Separates(b) == Separator(Structurals(bytes[idx..idx + |oddEnds|]), quoteMask, quoteBits, i)
      && t.Emits(b) == structurals[i]
      && ScanTo(bytes, idx + i + 1) == t.Step(b, idx + i)
  {
    hide Odd, ScanTo;
    var block := bytes[idx..idx + |oddEnds|];
    assert bytes[idx + i] == block[i];
    OneStep(bytes, idx + i);
  }

  lemma OneStep(bytes: Bytes, k: nat)
    requires k < |bytes|
    ensures ScanTo(bytes, k + 1) == ScanTo(bytes, k).Step(bytes[k], k)
  {
  }

  lemma {:induction false} BlockState(bytes: Bytes, idx: nat, oddEnds: Word, quoteMask: Word, quoteBits: Word, structurals: Word, i: nat)
    requires BlockWords(bytes, idx, oddEnds, quoteMask, quoteBits, structurals) && i <= |oddEnds|
    ensures StateAt(bytes, idx, oddEnds, quoteMask, quoteBits, structurals, i)
  {
    hide ScanTo, Separator, Odd, Inside, PseudoPred, BlockWords;
    BlockSizes(bytes, idx, oddEnds, quoteMask, quoteBits, structurals);
    var s, block := ScanTo(bytes, idx), bytes[idx..idx + |oddEnds|];
    if i == 0 {
      FirstState(block, s, quoteMask, quoteBits);
    } else {
      BlockState(bytes, idx, oddEnds, quoteMask, quoteBits, structurals, i - 1);
      BitStep(bytes, idx, oddEnds, quoteMask, quoteBits, structurals, i - 1);
      assert bytes[idx + i - 1] == block[i - 1];
      NextState(block, s, ScanTo(bytes, idx + i - 1), idx + i - 1, quoteMask, quoteBits, i - 1);
    }
  }

  lemma {:induction false} BlockSizes(bytes: Bytes, idx: nat, oddEnds: Word, quoteMask: Word, quoteBits: Word, structurals: Word)
    requires BlockWords(bytes, idx, oddEnds, quoteMask, quoteBits, structurals)
    ensures idx + |oddEnds| <= |bytes| && |oddEnds| == |quoteMask| == |quoteBits| == |structurals|
  {
  }

  lemma {:induction false} FirstState(block: Bytes, s: Scan, quoteMask: Word, quoteBits: Word)
    requires |block| == |quoteMask| == |quoteBits|
    ensures Odd(Mask(block, BACKSLASH), s.odd, 0) == s.odd && Inside(quoteBits, s.inQuote, 0) == s.inQuote
    ensures PseudoPred(Structurals(block), Mask(block, SPACE), quoteMask, quoteBits, s.separated, 0) == s.separated
  {
  }

  /** One step of the scan is one step of each of the three carries. */
  lemma {:induction false} NextState(block: Bytes, s: Scan, t: Scan, k: nat, quoteMask: Word, quoteBits: Word, i: nat)
    requires |block| == |quoteMask| == |quoteBits| && i < |block|
    requires t.odd == Odd(Mask(block, BACKSLASH), s.odd, i) && t.inQuote == Inside(quoteBits, s.inQuote, i)
    requires t.Quotes(block[i]) == quoteBits[i]
    requires t.Separates(block[i]) == Separator(Structurals(block), quoteMask, quoteBits, i)
    ensures var u := t.Step(block[i], k);
      && u.odd == Odd(Mask(block, BACKSLASH), s.odd, i + 1) && u.inQuote == Inside(quoteBits, s.inQuote, i + 1)
      && u.separated == PseudoPred(Structurals(block), Mask(block, SPACE), quoteMask, quoteBits, s.separated, i + 1)
  {
    hide Separator, Scan.Separates, Scan.Emits;
    assert Mask(block, BACKSLASH)[i] == (block[i] == BACKSLASH) && Mask(block, SPACE)[i] == (block[i] == SPACE);
  }

  /** Bit by bit the words follow the scan of the bytes. */
  lemma {:induction false} BlockScans(bytes: Bytes, idx: nat, oddEnds: Word, quoteMask: Word, quoteBits: Word, structurals: Word, i: nat)
    requires BlockWords(bytes, idx, oddEnds, quoteMask, quoteBits, structurals) && i <= |oddEnds|
    ensures var s, t, block := ScanTo(bytes, idx), ScanTo(bytes, idx + i), bytes[idx..idx + |oddEnds|];
      && (t.error <==> s.error || exists k :: 0 <= k < i && quoteMask[k] && block[k] <= 0x1F)
      && t.emitted + Positions(structurals, i, idx) == s.emitted + Positions(structurals, 0, idx)
  {
    hide ScanTo, Odd, Inside, Separator, PseudoPred, StateAt, Scan.Emits, Scan.Separates, Scan.Quotes, Scan.InsideAfter;
    if i > 0 {
      BlockScans(bytes, idx, oddEnds, quoteMask, quoteBits, structurals, i - 1);
      BlockState(bytes, idx, oddEnds, quoteMask, quoteBits, structurals, i - 1);
      BitStep(bytes, idx, oddEnds, quoteMask, quoteBits, structurals, i - 1);
      assert bytes[idx + i - 1] == bytes[idx..idx + |oddEnds|][i - 1];
    }
  }

  // ----- The loop -----

  /** One block of stripped bytes: its structural bits, and the carries behind it. */
  method ScanBlock(ghost bytes: Bytes, ghost idx: nat, block: Bytes, found: Word, whitespace: Word, carries: Carries)
    returns (structurals: Word)
    requires 0 < |block| && |block| % 2 == 0 && idx + |block| <= |bytes| && block == bytes[idx..idx + |block|]
    requires found == Structurals(block) && whitespace == Mask(block, SPACE)
    requires Represents(carries, ScanTo(bytes, idx))
    modifies carries
    ensures |structurals| == |block| && forall i :: 0 <= i < |block| && block[i] == SPACE ==> !structurals[i]
    ensures Represents(carries, ScanTo(bytes, idx + |block|))
    ensures ScanTo(bytes, idx + |block|).emitted == ScanTo(bytes, idx).emitted + Positions(structurals, 0, idx)
  {
    hide ScanTo, Odd, Inside, PseudoPred, Positions;
    var oddEnds := carries.FindOddBackslashSequences(Mask(block, BACKSLASH));
    var quoteMask, quoteBits := carries.FindQuoteMaskAndBits(Mask(block, QUOTE), AtMost(block, 0x1F), oddEnds);
    structurals := carries.FinalizeStructurals(found, whitespace, quoteMask, quoteBits);
    BlockState(bytes, idx, oddEnds, quoteMask, quoteBits, structurals, |block|);
    BlockScans(bytes, idx, oddEnds, quoteMask, quoteBits, structurals, |block|);
    assert ScanTo(bytes, idx + |block|).emitted + [] == ScanTo(bytes, idx + |block|).emitted;
  }

  predicate SameBlockOrNext(k: nat, o: nat) {
    k / SIMDINPUT_LENGTH == o / SIMDINPUT_LENGTH || o == k + 1
  }

  /** The newline at `k` is swallowed by a comment that opens below `end`. */
  ghost predicate SwallowedUpTo(bytes: Bytes, k: nat, end: nat)
    requires k < end <= |bytes|
  {
    exists o :: k < o < end && Precedes(bytes, k, o) && SameBlockOrNext(k, o)
  }

  ghost function StrippedUpTo(bytes: Bytes, k: nat, end: nat): Byte
    requires k < end <= |bytes|
  {
    if InComment(bytes, k) || SwallowedUpTo(bytes, k, end) then SPACE else bytes[k]
  }

  /** What the block at `idx` adds to what is swallowed: its own newlines, and the byte just before it. */
  lemma SwallowedByBlock(bytes: Bytes, idx: nat, k: nat)
    requires idx % SIMDINPUT_LENGTH == 0 && k < idx + SIMDINPUT_LENGTH <= |bytes|
    ensures k >= idx ==>
      (SwallowedUpTo(bytes, k, idx + SIMDINPUT_LENGTH) <==> SwallowedBefore(bytes, k, idx + SIMDINPUT_LENGTH))
    ensures k + 1 < idx ==> (SwallowedUpTo(bytes, k, idx + SIMDINPUT_LENGTH) <==> SwallowedUpTo(bytes, k, idx))
    ensures k + 1 == idx ==>
      !SwallowedUpTo(bytes, k, idx)
      && (SwallowedUpTo(bytes, k, idx + SIMDINPUT_LENGTH) <==> bytes[k] == NEWLINE && Opens(bytes, idx))
  {
    var end := idx + SIMDINPUT_LENGTH;
    if k >= idx && SwallowedBefore(bytes, k, end) {
      var o :| k < o < end && Precedes(bytes, k, o);
      assert SameBlockOrNext(k, o);
    }
    if k + 1 == idx && bytes[k] == NEWLINE && Opens(bytes, idx) {
      assert Precedes(bytes, k, idx) && SameBlockOrNext(k, idx);
    }
    if k < idx && SwallowedUpTo(bytes, k, end) {
      var o :| k < o < end && Precedes(bytes, k, o) && SameBlockOrNext(k, o);
      assert o < idx || o == k + 1;
    }
  }

  /** Overwriting an emitted newline at the end takes its position back and changes nothing else. */
  lemma TakeBack(before: Bytes, after: Bytes, idx: nat)
    requires 0 < idx <= |before| == |after|
    requires forall k :: 0 <= k < idx - 1 ==> after[k] == before[k]
    requires before[idx - 1] == NEWLINE && after[idx - 1] == SPACE
    requires idx - 1 in ScanTo(before, idx).emitted
    ensures var s := ScanTo(before, idx);
      s.emitted != [] && s.emitted[|s.emitted| - 1] == idx - 1
      && ScanTo(after, idx) == s.(emitted := s.emitted[..|s.emitted| - 1])
  {
    ScanSame(before, after, idx - 1);
    EmittedIff(before, idx, idx - 1);
  }

  /** A newline outside quotes is emitted, and inside quotes it is an error. */
  lemma NewlineEmitted(bytes: Bytes, idx: nat)
    requires 0 < idx <= |bytes| && bytes[idx - 1] == NEWLINE && !ScanTo(bytes, idx).error
    ensures var e := ScanTo(bytes, idx).emitted; e != [] && e[|e| - 1] == idx - 1
  {
  }

  lemma {:induction false} ErrorStays(bytes: Bytes, m: nat, n: nat)
    requires m <= n <= |bytes| && ScanTo(bytes, m).error
    ensures ScanTo(bytes, n).error
  {
    if m < n {
      ErrorStays(bytes, m, n - 1);
    }
  }

  /** What `base` holds after a block has been stripped, and what is left of the emitted positions. */
  ghost predicate Strips(orig: Bytes, before: Bytes, after: Bytes, idx: nat, pops: bool) {
    && idx + SIMDINPUT_LENGTH <= |orig| == |before| == |after|
    && forall k :: 0 <= k < |orig| ==>
         after[k] == if (idx <= k < idx + SIMDINPUT_LENGTH && Blanked(orig, idx, SIMDINPUT_LENGTH, k - idx)) || (pops && k == idx - 1)
                     then SPACE else before[k]
  }

  /** Every byte is as it was or a space, and up to `idx` comments are blanked unless the scan has met an error. */
  ghost predicate Cleans(orig: Bytes, now: Bytes, idx: nat) {
    && idx <= |orig| == |now|
    && (forall k :: 0 <= k < |orig| ==> now[k] == orig[k] || now[k] == SPACE)
    && (forall k :: idx <= k < |orig| ==> now[k] == orig[k])
    && (ScanTo(now, idx).error || forall k :: 0 <= k < idx ==> now[k] == StrippedUpTo(orig, k, idx))
  }

  /** A position is taken back only from a newline that is still there. */
  lemma PopsNewline(orig: Bytes, before: Bytes, idx: nat)
    requires 0 < idx < |orig| == |before| && (before[idx - 1] == orig[idx - 1] || before[idx - 1] == SPACE)
    requires idx - 1 in ScanTo(before, idx).emitted && Opens(orig, idx)
    ensures orig[idx - 1] == NEWLINE && before[idx - 1] == NEWLINE
  {
    hide ScanTo;
    EmittedIff(before, idx, idx - 1);
  }

  /** Without errors the newline in front of an opening comment is there to be taken back. */
  lemma PopsAll(orig: Bytes, before: Bytes, idx: nat)
    requires 0 < idx < |orig| == |before| && Cleans(orig, before, idx)
    requires idx % SIMDINPUT_LENGTH == 0 && idx + SIMDINPUT_LENGTH <= |orig|
    requires !ScanTo(before, idx).error && orig[idx - 1] == NEWLINE
    ensures TakesBack(idx, ScanTo(before, idx).emitted)
  {
    hide ScanTo;
    SwallowedByBlock(orig, idx, idx - 1);
    NotInComment(orig, idx - 1);
    NewlineEmitted(before, idx);
  }

  /** The scan up to the block is the same but for the position taken back. */
  lemma PopScans(orig: Bytes, before: Bytes, after: Bytes, idx: nat)
    requires Cleans(orig, before, idx) && idx < |orig|
    requires Strips(orig, before, after, idx, Opens(orig, idx) && TakesBack(idx, ScanTo(before, idx).emitted))
    ensures var s := ScanTo(before, idx);
      ScanTo(after, idx) == s.(emitted :=
        if Opens(orig, idx) && TakesBack(idx, s.emitted) then s.emitted[..|s.emitted| - 1] else s.emitted)
  {
    hide ScanTo, Opens;
    var s := ScanTo(before, idx);
    if Opens(orig, idx) && TakesBack(idx, s.emitted) {
      PopsNewline(orig, before, idx);
      TakeBack(before, after, idx);
    } else {
      ScanSame(before, after, idx);
    }
  }

  lemma NotInComment(bytes: Bytes, k: nat)
    requires k < |bytes| && bytes[k] == NEWLINE
    ensures !InComment(bytes, k)
  {
  }

  lemma CleansBlock(orig: Bytes, before: Bytes, after: Bytes, idx: nat)
    requires Cleans(orig, before, idx) && idx % SIMDINPUT_LENGTH == 0 && idx + SIMDINPUT_LENGTH <= |orig|
    requires Strips(orig, before, after, idx, Opens(orig, idx) && TakesBack(idx, ScanTo(before, idx).emitted))
    ensures Cleans(orig, after, idx + SIMDINPUT_LENGTH)
  {
    hide ScanTo, InComment, Opens;
    var end := idx + SIMDINPUT_LENGTH;
    PopScans(orig, before, after, idx);
    if !ScanTo(after, end).error {
      if ScanTo(after, idx).error {
        ErrorStays(after, idx, end);
      }
      forall k | 0 <= k < end
        ensures after[k] == StrippedUpTo(orig, k, end)
      {
        SwallowedByBlock(orig, idx, k);
        if k + 1 == idx && orig[k] == NEWLINE {
          PopsAll(orig, before, idx);
        }
        if k + 1 == idx && Opens(orig, idx) && TakesBack(idx, ScanTo(before, idx).emitted) {
          PopsNewline(orig, before, idx);
        }
      }
    }
  }

  /** The state of the loop in front of the block at `idx`; the last block's bits are flattened one block late. */
  ghost predicate Holds(orig: Bytes, input: array<Byte>, idx: nat, comments: CommentStripper, carries: Carries, indexes: seq<nat>, structurals: Word)
    reads input, comments, carries
  {
    && |orig| == input.Length + SIMDINPUT_LENGTH && idx <= |orig| && idx % SIMDINPUT_LENGTH == 0
    && comments.base == input && comments.At(orig, idx)
    && Cleans(orig, Padded(input[..]), idx)
    && Represents(carries, ScanTo(Padded(input[..]), idx))
    && |structurals| == SIMDINPUT_LENGTH && (idx > 0 || IsZero(structurals))
    && indexes + Positions(structurals, 0, idx - SIMDINPUT_LENGTH) == ScanTo(Padded(input[..]), idx).emitted
  }

  /** Loads a block; behind the end of the input it is filled with spaces. */
  method LoadBlock(input: array<Byte>, idx: nat) returns (block: Bytes)
    requires idx <= input.Length
    ensures block == Padded(input[..])[idx..idx + SIMDINPUT_LENGTH]
  {
    block := Padded(input[..])[idx..idx + SIMDINPUT_LENGTH];
  }

  /** Blanked bytes are spaces, so they carry no structure. */
  lemma BlankedWords(block: Bytes, stripped: Bytes, blank: Word)
    requires |block| == |stripped| == |blank|
    requires forall i :: 0 <= i < |block| ==> stripped[i] == if blank[i] then SPACE else block[i]
    ensures And(Structurals(block), Not(blank)) == Structurals(stripped)
    ensures Or(Mask(block, SPACE), blank) == Mask(stripped, SPACE)
  {
  }

  lemma NotReadYet(orig: Bytes, now: Bytes, idx: nat)
    requires Cleans(orig, now, idx) && idx + SIMDINPUT_LENGTH <= |orig|
    ensures orig[idx..idx + SIMDINPUT_LENGTH] == now[idx..idx + SIMDINPUT_LENGTH]
  {
  }

  /** Strips the comments of one block. */
  method Strip(ghost orig: Bytes, input: array<Byte>, idx: nat, block: Bytes, comments: CommentStripper, indexes: seq<nat>)
    returns (blank: Word, rest: seq<nat>)
    requires idx < input.Length && |orig| == input.Length + SIMDINPUT_LENGTH && idx + SIMDINPUT_LENGTH <= |orig|
    requires block == orig[idx..idx + SIMDINPUT_LENGTH] == Padded(input[..])[idx..idx + SIMDINPUT_LENGTH]
    requires comments.base == input && comments.At(orig, idx)
    requires forall k :: 0 <= k < |indexes| ==> indexes[k] < idx
    modifies input, comments
    ensures comments.At(orig, idx + SIMDINPUT_LENGTH)
    ensures |blank| == SIMDINPUT_LENGTH
    ensures var after := Padded(input[..]);
      && Strips(orig, old(Padded(input[..])), after, idx, Opens(orig, idx) && TakesBack(idx, indexes))
      && forall i :: 0 <= i < SIMDINPUT_LENGTH ==> after[idx..idx + SIMDINPUT_LENGTH][i] == if blank[i] then SPACE else block[i]
    ensures rest == if Opens(orig, idx) && TakesBack(idx, indexes) then indexes[..|indexes| - 1] else indexes
  {
    hide InComment, Opens;
    var newlines, spaces, hashes := Mask(block, NEWLINE), Mask(block, SPACE), Mask(block, HASH);
    assert forall i :: 0 <= i < SIMDINPUT_LENGTH ==> block[i] == orig[idx + i];
    ghost var before := input[..];
    blank, rest := comments.StripBlock(orig, idx, newlines, spaces, hashes, indexes);
    ghost var pops := Opens(orig, idx) && TakesBack(idx, indexes);
    forall k | 0 <= k < |orig|
      ensures Padded(input[..])[k] ==
        if (idx <= k < idx + SIMDINPUT_LENGTH && Blanked(orig, idx, SIMDINPUT_LENGTH, k - idx)) || (pops && k == idx - 1)
        then SPACE else Padded(before)[k]
    {
      assert idx <= k < idx + SIMDINPUT_LENGTH ==> blank[k - idx] == Blanked(orig, idx, SIMDINPUT_LENGTH, k - idx);
    }
    forall i | 0 <= i < SIMDINPUT_LENGTH
      ensures Padded(input[..])[idx..idx + SIMDINPUT_LENGTH][i] == if blank[i] then SPACE else block[i]
    {
      assert Padded(before)[idx..idx + SIMDINPUT_LENGTH][i] == Padded(before)[idx + i];
    }
  }

  /** Scans a block whose comments have been stripped, from the words of the bytes as they were before. */
  method ScanStripped(ghost after: Bytes, ghost idx: nat, block: Bytes, stripped: Bytes, blank: Word, carries: Carries)
    returns (structurals: Word)
    requires |block| == |stripped| == |blank| == SIMDINPUT_LENGTH
    requires idx + SIMDINPUT_LENGTH <= |after| && stripped == after[idx..idx + SIMDINPUT_LENGTH]
    requires forall i :: 0 <= i < SIMDINPUT_LENGTH ==> stripped[i] == if blank[i] then SPACE else block[i]
    requires Represents(carries, ScanTo(after, idx))
    modifies carries
    ensures |structurals| == SIMDINPUT_LENGTH
    ensures Represents(carries, ScanTo(after, idx + SIMDINPUT_LENGTH))
    ensures ScanTo(after, idx + SIMDINPUT_LENGTH).emitted == ScanTo(after, idx).emitted + Positions(structurals, 0, idx)
  {
    hide ScanTo, Positions;
    BlankedWords(block, stripped, blank);
    var found := And(Structurals(block), Not(blank));
    structurals := ScanBlock(after, idx, stripped, found, Or(Mask(block, SPACE), blank), carries);
    // Putting the quote bits back does not put back any inside a comment.
    ghost var kept := structurals;
    structurals := And(structurals, Not(blank));
    assert structurals == kept;
  }

  /** The first half of a turn: the last block's bits are flattened and this block's comments stripped. */
  method Clean(ghost orig: Bytes, input: array<Byte>, idx: nat, comments: CommentStripper, ghost carries: Carries, indexes: seq<nat>, structurals: Word)
    returns (block: Bytes, blank: Word, rest: seq<nat>)
    requires Holds(orig, input, idx, comments, carries, indexes, structurals) && idx < input.Length
    modifies input, comments
    ensures comments.At(orig, idx + SIMDINPUT_LENGTH)
    ensures |block| == |blank| == SIMDINPUT_LENGTH
    ensures var after := Padded(input[..]);
      && Cleans(orig, after, idx + SIMDINPUT_LENGTH)
      && Represents(carries, ScanTo(after, idx)) && rest == ScanTo(after, idx).emitted
      && forall i :: 0 <= i < SIMDINPUT_LENGTH ==> after[idx..idx + SIMDINPUT_LENGTH][i] == if blank[i] then SPACE else block[i]
  {
    hide ScanTo, Cleans, InComment, Opens, Strips, Positions, IsZero, Padded;
    ghost var before := Padded(input[..]);
    block := LoadBlock(input, idx);
    var flat := FlattenBits(indexes, idx, structurals);
    EmittedIncreasing(before, idx);
    NotReadYet(orig, before, idx);
    blank, rest := Strip(orig, input, idx, block, comments, flat);
    ghost var after := Padded(input[..]);
    PopScans(orig, before, after, idx);
    CleansBlock(orig, before, after, idx);
  }

  /** One turn of the loop, the padded last one included. */
  method DoBlock(ghost orig: Bytes, input: array<Byte>, idx: nat, comments: CommentStripper, carries: Carries, indexes: seq<nat>, structurals: Word)
    returns (rest: seq<nat>, next: Word)
    requires Holds(orig, input, idx, comments, carries, indexes, structurals) && idx < input.Length
    modifies input, comments, carries
    ensures Holds(orig, input, idx + SIMDINPUT_LENGTH, comments, carries, rest, next)
  {
    hide ScanTo, Cleans, Positions, IsZero, Padded;
    var block, blank;
    block, blank, rest := Clean(orig, input, idx, comments, carries, indexes, structurals);
    var stripped := LoadBlock(input, idx);
    next := ScanStripped(Padded(input[..]), idx, block, stripped, blank, carries);
  }

  /**
   * The structural positions of the input, which is left with its comments blanked. Where the 64-byte cuts fall
   * makes no difference to the scan of the bytes as they stand afterwards; `utf8` says whether the input is valid.
   */
  method FindStructuralBits(input: array<Byte>, utf8: bool) returns (r: Result<seq<nat>>)
    modifies input
    ensures r == Verdict(ScanTo(input[..], input.Length), utf8)
    ensures r.Ok? ==> input[..] == Stripped(old(input[..]), SIMDINPUT_LENGTH)
  {
    hide ScanTo, Cleans, InComment, Positions, LineAt;
    ghost var bytes := input[..];
    ghost var orig := Padded(bytes);
    var carries := new Carries();
    var comments := new CommentStripper(input);
    var indexes: seq<nat> := [];
    var structurals := Zero(SIMDINPUT_LENGTH);
    var idx := 0;
    LoopStarts(orig, structurals);
    var lenMinus64 := if input.Length < SIMDINPUT_LENGTH then 0 else input.Length - SIMDINPUT_LENGTH;
    while idx < lenMinus64
      invariant Holds(orig, input, idx, comments, carries, indexes, structurals)
      invariant idx < lenMinus64 + SIMDINPUT_LENGTH && fresh(comments) && fresh(carries)
    {
      indexes, structurals := DoBlock(orig, input, idx, comments, carries, indexes, structurals);
      idx := idx + SIMDINPUT_LENGTH;
    }
    if idx < input.Length {
      indexes, structurals := DoBlock(orig, input, idx, comments, carries, indexes, structurals);
      idx := idx + SIMDINPUT_LENGTH;
    }
    LoopEnds(bytes, input[..], idx);
    if carries.insideQuote {
      return Err(Syntax);
    }
    indexes := FlattenBits(indexes, idx, structurals);
    if indexes == [] {
      return Err(Eof);
    }
    if carries.error {
      return Err(Syntax);
    }
    return if utf8 then Ok(indexes) else Err(InvalidUtf8);
  }

  lemma LoopStarts(orig: Bytes, structurals: Word)
    requires structurals == Zero(SIMDINPUT_LENGTH)
    ensures Cleans(orig, orig, 0) && ScanTo(orig, 0) == Initial() && LineAt(orig, 0) == Indent
    ensures IsZero(structurals) && Positions(structurals, 0, -(SIMDINPUT_LENGTH as int)) == []
  {
    PositionsNone(structurals, -(SIMDINPUT_LENGTH as int));
  }

  /** Behind the last block nothing but padding has been read that is not input. */
  lemma LoopEnds(bytes: Bytes, now: Bytes, idx: nat)
    requires |now| == |bytes| <= idx <= |bytes| + SIMDINPUT_LENGTH && Cleans(Padded(bytes), Padded(now), idx)
    ensures var s, t := ScanTo(now, |now|), ScanTo(Padded(now), idx);
      s.emitted == t.emitted && s.inQuote == t.inQuote && s.error == t.error
    ensures !ScanTo(now, |now|).error ==> now == Stripped(bytes, SIMDINPUT_LENGTH)
  {
    hide ScanTo, InComment, Opens;
    assert Padded(now)[..|now|] == now[..|now|];
    ScanSame(now, Padded(now), |now|);
    ScanSpaces(Padded(now), |now|, idx);
    if !ScanTo(now, |now|).error {
      forall k | 0 <= k < |now|
        ensures now[k] == Stripped(bytes, SIMDINPUT_LENGTH)[k]
      {
        PaddingOpensNothing(bytes, k, idx);
        assert Padded(now)[k] == now[k];
      }
    }
  }

  lemma PaddingOpensNothing(bytes: Bytes, k: nat, end: nat)
    requires k < |bytes| <= end <= |bytes| + SIMDINPUT_LENGTH
    ensures InComment(Padded(bytes), k) <==> InComment(bytes, k)
    ensures SwallowedUpTo(Padded(bytes), k, end) <==> Swallowed(bytes, k, SIMDINPUT_LENGTH)
  {
    var orig := Padded(bytes);
    LineSame(orig, bytes, k + 1);
    if SwallowedUpTo(orig, k, end) {
      var o :| k < o < end && Precedes(orig, k, o) && SameBlockOrNext(k, o);
      LineSame(orig, bytes, o);
      assert orig[o] == HASH;
      assert Precedes(bytes, k, o);
    }
    if Swallowed(bytes, k, SIMDINPUT_LENGTH) {
      var o :| k < o < |bytes| && Precedes(bytes, k, o) && (k / SIMDINPUT_LENGTH == o / SIMDINPUT_LENGTH || o == k + 1);
      LineSame(orig, bytes, o);
      assert Precedes(orig, k, o) && SameBlockOrNext(k, o);
    }
  }
}
