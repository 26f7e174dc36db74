/** Full-line `#` comments are overwritten with spaces, one block at a time, together with the newline before them. */
module Comments {
  import opened Common
  import opened Bits
  import opened Blocks

  // ----- One byte at a time -----

  /** Where a byte stands in its line: in the leading spaces, in a comment, or behind anything else. */
  datatype LineState = Indent | Comment | Text {
    function Next(b: Byte): LineState {
      if b == NEWLINE then Indent
      else if Indent? then (if b == SPACE then Indent else if b == HASH then Comment else Text)
      else this
    }
  }

  function LineAt(bytes: Bytes, n: nat): LineState
    requires n <= |bytes|
  {
    if n == 0 then Indent else LineAt(bytes, n - 1).Next(bytes[n - 1])
  }

  predicate InComment(bytes: Bytes, k: nat)
    requires k < |bytes|
  {
    LineAt(bytes, k + 1).Comment?
  }

  /** The `#` that opens a comment line. */
  predicate Opens(bytes: Bytes, k: nat)
    requires k < |bytes|
  {
    LineAt(bytes, k).Indent? && bytes[k] == HASH
  }

  /** The newline at `k` starts the line that the `#` at `o` makes a comment. */
  predicate Precedes(bytes: Bytes, k: nat, o: nat)
    requires k < o < |bytes|
  {
    bytes[k] == NEWLINE && Opens(bytes, o) && forall m :: k < m < o ==> bytes[m] == SPACE
  }

  /** A newline is swallowed by a comment that opens in the same block or on the next byte. */
  predicate Swallowed(bytes: Bytes, k: nat, width: nat)
    requires k < |bytes| && width > 0
  {
    exists o :: k < o < |bytes| && Precedes(bytes, k, o) && (k / width == o / width || o == k + 1)
  }

  /** The input with every comment blanked. */
  function Stripped(bytes: Bytes, width: nat): (s: Bytes)
    requires width > 0
    ensures |s| == |bytes|
  {
    seq(|bytes|, k requires 0 <= k < |bytes| =>
      if InComment(bytes, k) || Swallowed(bytes, k, width) then SPACE else bytes[k])
  }

  lemma {:induction false} LineSame(a: Bytes, b: Bytes, n: nat)
    requires n <= |a| && n <= |b| && forall k :: 0 <= k < n ==> a[k] == b[k]
    ensures LineAt(a, n) == LineAt(b, n)
  {
    if n > 0 {
      LineSame(a, b, n - 1);
    }
  }

  // ----- One block at a time -----

  /** The masks of a block of `bytes` that starts at `idx`. */
  ghost predicate Masks(bytes: Bytes, idx: nat, newlines: Word, spaces: Word, hashes: Word) {
    && 0 < |newlines| == |spaces| == |hashes| && idx + |newlines| <= |bytes|
    && (forall i :: 0 <= i < |newlines| ==> newlines[i] == (bytes[idx + i] == NEWLINE))
    && (forall i :: 0 <= i < |newlines| ==> spaces[i] == (bytes[idx + i] == SPACE))
    && (forall i :: 0 <= i < |newlines| ==> hashes[i] == (bytes[idx + i] == HASH))
  }

  /** The first addition carries each line start through the spaces behind it. */
  lemma {:induction false} IndentCarries(bytes: Bytes, idx: nat, newlines: Word, spaces: Word, hashes: Word, lineStarts: Word, i: nat)
    requires Masks(bytes, idx, newlines, spaces, hashes) && |lineStarts| == |newlines| && i <= |newlines|
    requires forall k :: 0 <= k < |lineStarts| ==> lineStarts[k] == (if k == 0 then LineAt(bytes, idx).Indent? else newlines[k - 1])
    ensures var carry := Carry(spaces, lineStarts, i);
      && (i == 0 ==> !carry)
      && (i > 0 ==> (carry ==> !newlines[i - 1]) && (LineAt(bytes, idx + i).Indent? <==> carry || newlines[i - 1]))
  {
    if i > 0 {
      IndentCarries(bytes, idx, newlines, spaces, hashes, lineStarts, i - 1);
    }
  }

  /** The second addition carries each comment from its start up to the next newline. */
  lemma {:induction false} BodyCarries(bytes: Bytes, idx: nat, newlines: Word, spaces: Word, hashes: Word, starts: Word, i: nat)
    requires Masks(bytes, idx, newlines, spaces, hashes) && |starts| == |newlines| && i <= |newlines|
    requires forall k :: 0 <= k < |starts| ==>
      starts[k] == (Opens(bytes, idx + k) || (k == 0 && LineAt(bytes, idx).Comment?))
    ensures var carry := Carry(Not(newlines), starts, i);
      && (i == 0 ==> !carry)
      && (i > 0 ==> (carry <==> LineAt(bytes, idx + i).Comment?))
  {
    if i > 0 {
      BodyCarries(bytes, idx, newlines, spaces, hashes, starts, i - 1);
    }
  }

  /** An opener's line starts at the last newline before it, and everything in between is spaces. */
  lemma {:induction false} OpenerLine(bytes: Bytes, k: nat, o: nat)
    requires k <= o < |bytes| && LineAt(bytes, o).Indent? && forall m :: k <= m < o ==> bytes[m] != NEWLINE
    ensures forall m :: k <= m < o ==> bytes[m] == SPACE
    ensures LineAt(bytes, k).Indent?
    decreases o - k
  {
    if k < o {
      OpenerLine(bytes, k, o - 1);
    }
  }

  /** The newline at bit `i` is the last one before an opener below `limit`. */
  ghost predicate SwallowedBelow(newlines: Word, openers: Word, i: nat, limit: nat)
    requires i < |newlines| == |openers| && limit <= |openers|
  {
    newlines[i] && exists o :: i < o < limit && openers[o] && forall m :: i < m < o ==> !newlines[m]
  }

  class CommentStripper {
    const base: array<Byte>
    var insideIndent: bool
    var insideComment: bool

    constructor (base: array<Byte>)
      ensures this.base == base && insideIndent && !insideComment
    {
      this.base := base;
      insideIndent, insideComment := true, false;
    }

    /** The carried flags are the state of the line at `idx`; so they are never both set. */
    ghost predicate At(bytes: Bytes, idx: nat)
      reads this
      requires idx <= |bytes|
    {
      (insideIndent <==> LineAt(bytes, idx).Indent?) && (insideComment <==> LineAt(bytes, idx).Comment?)
    }

    /** The `#`s of a block that are the first byte of their line behind spaces. */
    method FindOpeners(ghost bytes: Bytes, ghost idx: nat, newlines: Word, spaces: Word, hashes: Word) returns (openers: Word)
      requires Masks(bytes, idx, newlines, spaces, hashes) && At(bytes, idx)
      modifies `insideIndent
      ensures insideIndent <==> LineAt(bytes, idx + |newlines|).Indent?
      ensures |openers| == |newlines| && forall i :: 0 <= i < |openers| ==> openers[i] == Opens(bytes, idx + i)
    {
      var width := |newlines|;
      var lineStarts := Or(ShiftLeft(newlines, 1), Low(insideIndent, width));
      var indentSum, indentSpills := Add(spaces, lineStarts), Overflows(spaces, lineStarts);
      forall i | 0 <= i <= width {
        IndentCarries(bytes, idx, newlines, spaces, hashes, lineStarts, i);
      }
      insideIndent := indentSpills || newlines[width - 1];
      openers := And(And(indentSum, Not(spaces)), hashes);
    }

    /** The comment bytes of a block, from its openers and the comment it begins in. */
    method FindBody(ghost bytes: Bytes, ghost idx: nat, newlines: Word, openers: Word, ghost spaces: Word, ghost hashes: Word) returns (body: Word)
      requires Masks(bytes, idx, newlines, spaces, hashes) && (insideComment <==> LineAt(bytes, idx).Comment?)
      requires |openers| == |newlines| && forall i :: 0 <= i < |openers| ==> openers[i] == Opens(bytes, idx + i)
      modifies `insideComment
      ensures insideComment <==> LineAt(bytes, idx + |newlines|).Comment?
      ensures |body| == |newlines| && forall i :: 0 <= i < |body| ==> body[i] == InComment(bytes, idx + i)
    {
      var width := |newlines|;
      var starts := Or(openers, Low(insideComment, width));
      if IsZero(starts) {
        forall k | idx <= k < idx + width
          ensures !Opens(bytes, k)
        {
          assert !starts[k - idx];
        }
        NoComment(bytes, idx, width);
        return Zero(width);
      }
      forall i | 0 <= i <= width {
        BodyCarries(bytes, idx, newlines, spaces, hashes, starts, i);
      }
      var notNewlines := Not(newlines);
      var bodySum, bodySpills := Add(notNewlines, starts), Overflows(notNewlines, starts);
      insideComment := bodySpills;
      body := And(Xor(notNewlines, bodySum), notNewlines);
    }

    lemma {:induction false} NoComment(bytes: Bytes, idx: nat, n: nat)
      requires idx + n <= |bytes| && !LineAt(bytes, idx).Comment?
      requires forall k :: idx <= k < idx + n ==> !Opens(bytes, k)
      ensures forall k :: idx <= k <= idx + n ==> !LineAt(bytes, k).Comment?
    {
      if n > 0 {
        NoComment(bytes, idx, n - 1);
        assert !Opens(bytes, idx + n - 1);
      }
    }

    /**
     * The newline before an opener: a bit of the block if it lies there. A newline that ended the block before
     * is taken back from the structural indexes and overwritten at once.
     */
    method SwallowPrecedingNewline(idx: nat, opener: nat, newlines: Word, indexes: seq<nat>) returns (blank: Word, rest: seq<nat>)
      requires opener < |newlines|
      requires forall k :: 0 <= k < |indexes| ==> indexes[k] < base.Length
      modifies base
      ensures |blank| == |newlines|
      ensures forall i :: 0 <= i < |newlines| ==>
        blank[i] == (newlines[i] && i < opener && forall m :: i < m < opener ==> !newlines[m])
      ensures var pops := TakesBack(idx + opener, indexes) && forall i :: 0 <= i < opener ==> !newlines[i];
        && rest == (if pops then indexes[..|indexes| - 1] else indexes)
        && (forall k :: 0 <= k < base.Length ==> base[k] == if pops && k == idx + opener - 1 then SPACE else old(base[k]))
    {
      var width := |newlines|;
      rest := indexes;
      var prevNewlines := And(newlines, Below(opener, width));
      if !IsZero(prevNewlines) {
        var bit := width - 1 - LeadingZeros(prevNewlines);
        assert prevNewlines[bit];
        forall m | bit < m < opener
          ensures !newlines[m]
        {
          assert !prevNewlines[m];
        }
        return Single(bit, width), rest;
      }
      assert forall i :: 0 <= i < opener ==> newlines[i] == prevNewlines[i];
      var p := idx + opener;
      if p > 0 && indexes != [] && indexes[|indexes| - 1] == p - 1 {
        rest := indexes[..|indexes| - 1];
        base[p - 1] := SPACE;
      }
      blank := Zero(width);
    }

    /** Overwrites the blanked bytes, one run of set bits at a time, but never beyond the input. */
    method BlankBytes(idx: nat, blank: Word)
      modifies base
      ensures forall k :: 0 <= k < base.Length ==>
        base[k] == if idx <= k < idx + |blank| && blank[k - idx] then SPACE else old(base[k])
    {
      var width := |blank|;
      var todo := blank;
      ghost var done := 0;
      while !IsZero(todo)
        invariant 0 <= done <= width && |todo| == width
        invariant forall i :: 0 <= i < width ==> todo[i] == (blank[i] && i >= done)
        invariant BlankedTo(old(base[..]), base[..], idx, blank, done)
        decreases width - done
      {
        var start := TrailingZeros(todo);
        var run := TrailingZeros(Not(ShiftRight(todo, start)));
        RunBits(todo, start);
        var end := if start + run < width then start + run else width;
        assert forall i :: done <= i < start ==> !todo[i];
        assert forall i :: start <= i < end ==> todo[i];
        ghost var before := base[..];
        WriteSpaces(idx + start, idx + end);
        BlankRun(old(base[..]), before, base[..], idx, blank, done, start, end);
        todo := if end == width then Zero(width) else ShiftLeft(ShiftRight(todo, end), end);
        done := end;
      }
    }

    /** The bytes of the set bits below `done` are spaces, and all others as they were. */
    static ghost predicate BlankedTo(orig: Bytes, now: Bytes, idx: nat, blank: Word, done: nat)
      requires done <= |blank|
    {
      |now| == |orig|
      && forall k :: 0 <= k < |now| ==> now[k] == if idx <= k < idx + done && blank[k - idx] then SPACE else orig[k]
    }

    static lemma {:induction false} BlankRun(orig: Bytes, before: Bytes, now: Bytes, idx: nat, blank: Word, done: nat, start: nat, end: nat)
      requires done <= start <= end <= |blank| && BlankedTo(orig, before, idx, blank, done)
      requires forall i :: done <= i < start ==> !blank[i]
      requires forall i :: start <= i < end ==> blank[i]
      requires |now| == |before|
      requires forall k :: 0 <= k < |now| ==> now[k] == if idx + start <= k < idx + end then SPACE else before[k]
      ensures BlankedTo(orig, now, idx, blank, end)
    {
    }

    /** A run of set bits starts at the lowest one. */
    static lemma {:induction false} RunBits(todo: Word, start: nat)
      requires start < |todo| && start == TrailingZeros(todo)
      ensures var run := TrailingZeros(Not(ShiftRight(todo, start)));
        && 0 < run <= |todo| - start
        && forall i :: start <= i < start + run ==> todo[i]
    {
      hide Not, ShiftRight, TrailingZeros;
      var shifted := Not(ShiftRight(todo, start));
      var run := TrailingZeros(shifted);
      assert !shifted[0];
      if start > 0 {
        assert shifted[|todo| - start];
      }
      forall i | start <= i < start + run
        ensures todo[i]
      {
        assert !shifted[i - start];
      }
    }

    method WriteSpaces(from: nat, to: nat)
      modifies base
      ensures forall k :: 0 <= k < base.Length ==> base[k] == if from <= k < to then SPACE else old(base[k])
    {
      var k := from;
      while k < to && k < base.Length
        invariant from <= k
        invariant forall m :: 0 <= m < base.Length ==> base[m] == if from <= m < k && m < to then SPACE else old(base[m])
      {
        base[k] := SPACE;
        k := k + 1;
      }
    }

    /** Blanks every comment byte of one block and returns their mask and the structural indexes that are left. */
    method StripBlock(ghost bytes: Bytes, idx: nat, newlines: Word, spaces: Word, hashes: Word, indexes: seq<nat>)
      returns (blank: Word, rest: seq<nat>)
      requires Masks(bytes, idx, newlines, spaces, hashes) && At(bytes, idx)
      requires forall k :: 0 <= k < |indexes| ==> indexes[k] < idx && indexes[k] < base.Length
      modifies `insideIndent, `insideComment, base
      ensures At(bytes, idx + |newlines|)
      ensures |blank| == |newlines|
      ensures forall i :: 0 <= i < |blank| ==> blank[i] == Blanked(bytes, idx, |blank|, i)
      ensures var pops := Opens(bytes, idx) && TakesBack(idx, indexes);
        && rest == (if pops then indexes[..|indexes| - 1] else indexes)
        && (forall k :: 0 <= k < base.Length ==>
              base[k] == if (idx <= k < idx + |blank| && blank[k - idx]) || (pops && k == idx - 1) then SPACE else old(base[k]))
    {
      var openers := FindOpeners(bytes, idx, newlines, spaces, hashes);
      var body := FindBody(bytes, idx, newlines, openers, spaces, hashes);
      blank, rest := SwallowNewlines(bytes, idx, newlines, openers, body, indexes);
      BlankBytes(idx, blank);
    }

    /** One opener, the first from `limit` on: only at the start of the block can it take an index back. */
    method SwallowOne(idx: nat, opener: nat, newlines: Word, ghost openers: Word, ghost limit: nat, indexes: seq<nat>)
      returns (bits: Word, rest: seq<nat>)
      requires |newlines| == |openers| && limit <= opener < |openers| && openers[opener]
      requires forall i :: limit <= i < opener ==> !openers[i]
      requires forall k :: 0 <= k < |indexes| ==> indexes[k] < idx && indexes[k] < base.Length
      modifies base
      ensures |bits| == |newlines|
      ensures forall i :: 0 <= i < |newlines| ==>
        SwallowedBelow(newlines, openers, i, opener + 1) == (SwallowedBelow(newlines, openers, i, limit) || bits[i])
      ensures Popped(old(base[..]), base[..], indexes, rest, idx, opener == 0 && TakesBack(idx, indexes))
    {
      hide SwallowedBelow;
      TakesBackFirst(idx, opener, indexes);
      bits, rest := SwallowPrecedingNewline(idx, opener, newlines, indexes);
      SwallowStep(newlines, openers, limit, opener, bits);
    }

    /** The newlines before all openers of a block, lowest first. */
    method SwallowNewlines(ghost bytes: Bytes, idx: nat, newlines: Word, openers: Word, body: Word, indexes: seq<nat>)
      returns (blank: Word, rest: seq<nat>)
      requires |newlines| == |openers| == |body| && idx + |newlines| <= |bytes| && newlines != []
      requires forall i :: 0 <= i < |newlines| ==> newlines[i] == (bytes[idx + i] == NEWLINE)
      requires forall i :: 0 <= i < |openers| ==> openers[i] == Opens(bytes, idx + i) && body[i] == InComment(bytes, idx + i)
      requires forall k :: 0 <= k < |indexes| ==> indexes[k] < idx && indexes[k] < base.Length
      modifies base
      ensures |blank| == |newlines|
      ensures forall i :: 0 <= i < |blank| ==> blank[i] == Blanked(bytes, idx, |blank|, i)
      ensures var pops := Opens(bytes, idx) && TakesBack(idx, indexes);
        && rest == (if pops then indexes[..|indexes| - 1] else indexes)
        && (forall k :: 0 <= k < base.Length ==> base[k] == if pops && k == idx - 1 then SPACE else old(base[k]))
    {
      hide Opens, InComment, Blanked, SwallowedBelow, TakesBack, TrailingZeros, IsZero, And, Or, MinusOne;
      NothingSwallowed(newlines, openers);
      var width := |newlines|;
      var todo := openers;
      blank, rest := body, indexes;
      ghost var limit := 0;
      while !IsZero(todo)
        invariant 0 <= limit <= width && |todo| == |blank| == width
        invariant forall i :: 0 <= i < width ==> todo[i] == (openers[i] && i >= limit)
        invariant forall i :: 0 <= i < width ==> blank[i] == (body[i] || SwallowedBelow(newlines, openers, i, limit))
        invariant Popped(old(base[..]), base[..], indexes, rest, idx, limit > 0 && openers[0] && TakesBack(idx, indexes))
        decreases width - limit
      {
        var opener := TrailingZeros(todo);
        ClearLowest(todo);
        todo := And(todo, MinusOne(todo));
        PoppedBelow(old(base[..]), base[..], indexes, rest, idx, limit > 0 && openers[0] && TakesBack(idx, indexes));
        var bits;
        bits, rest := SwallowOne(idx, opener, newlines, openers, limit, rest);
        blank := Or(blank, bits);
        limit := opener + 1;
      }
      assert limit == 0 ==> !openers[0];
      forall i | 0 <= i < width
        ensures blank[i] == Blanked(bytes, idx, width, i)
      {
        SwallowedIsBlanked(bytes, idx, newlines, openers, i, limit);
        BlankedIs(bytes, idx, width, i);
      }
    }
  }

  lemma {:induction false} NothingSwallowed(newlines: Word, openers: Word)
    requires |newlines| == |openers|
    ensures forall i :: 0 <= i < |newlines| ==> !SwallowedBelow(newlines, openers, i, 0)
  {
  }

  /** The index emitted last has been taken back and its byte blanked, or nothing has. */
  ghost predicate Popped(orig: Bytes, now: Bytes, indexes: seq<nat>, rest: seq<nat>, idx: nat, pops: bool) {
    && (pops ==> indexes != []) && rest == (if pops then indexes[..|indexes| - 1] else indexes)
    && |now| == |orig| && forall k :: 0 <= k < |orig| ==> now[k] == if pops && k == idx - 1 then SPACE else orig[k]
  }

  lemma {:induction false} PoppedBelow(orig: Bytes, now: Bytes, indexes: seq<nat>, rest: seq<nat>, idx: nat, pops: bool)
    requires Popped(orig, now, indexes, rest, idx, pops)
    requires forall k :: 0 <= k < |indexes| ==> indexes[k] < idx && indexes[k] < |orig|
    ensures forall k :: 0 <= k < |rest| ==> rest[k] < idx && rest[k] < |orig|
    ensures !pops ==> rest == indexes && now == orig
  {
  }

  lemma {:induction false} BlankedIs(bytes: Bytes, idx: nat, width: nat, i: nat)
    requires i < width && idx + width <= |bytes|
    ensures Blanked(bytes, idx, width, i) <==> InComment(bytes, idx + i) || SwallowedBefore(bytes, idx + i, idx + width)
  {
  }

  /** Only the newline in front of the block can have been emitted before it. */
  lemma {:induction false} TakesBackFirst(idx: nat, opener: nat, indexes: seq<nat>)
    requires forall k :: 0 <= k < |indexes| ==> indexes[k] < idx
    ensures opener > 0 ==> !TakesBack(idx + opener, indexes)
    ensures TakesBack(idx, indexes) ==> indexes != []
  {
  }

  /** The byte before `p` is the structural emitted last. */
  predicate TakesBack(p: nat, indexes: seq<nat>) {
    p > 0 && indexes != [] && indexes[|indexes| - 1] == p - 1
  }

  /** A comment that opens below `end` is the next line behind the newline at `k`. */
  ghost predicate SwallowedBefore(bytes: Bytes, k: nat, end: nat)
    requires k < end <= |bytes|
  {
    exists o :: k < o < end && Precedes(bytes, k, o)
  }

  /** The bytes of a block that are blanked: comments, and newlines before comments that open in the block. */
  ghost predicate Blanked(bytes: Bytes, idx: nat, width: nat, i: nat)
    requires i < width && idx + width <= |bytes|
  {
    InComment(bytes, idx + i) || SwallowedBefore(bytes, idx + i, idx + width)
  }

  lemma SwallowStep(newlines: Word, openers: Word, limit: nat, opener: nat, bits: Word)
    requires |newlines| == |openers| == |bits| && limit <= opener < |openers| && openers[opener]
    requires forall i :: limit <= i < opener ==> !openers[i]
    requires forall i :: 0 <= i < |newlines| ==>
      bits[i] == (newlines[i] && i < opener && forall m :: i < m < opener ==> !newlines[m])
    ensures forall i :: 0 <= i < |newlines| ==>
      SwallowedBelow(newlines, openers, i, opener + 1) == (SwallowedBelow(newlines, openers, i, limit) || bits[i])
  {
  }

  lemma SwallowedIsBlanked(bytes: Bytes, idx: nat, newlines: Word, openers: Word, i: nat, limit: nat)
    requires i < |newlines| == |openers| && idx + |newlines| <= |bytes| && limit <= |newlines|
    requires forall k :: 0 <= k < |newlines| ==> newlines[k] == (bytes[idx + k] == NEWLINE)
    requires forall k :: 0 <= k < |openers| ==> openers[k] == Opens(bytes, idx + k)
    requires forall k :: limit <= k < |openers| ==> !openers[k]
    ensures SwallowedBelow(newlines, openers, i, limit)
       <==> SwallowedBefore(bytes, idx + i, idx + |newlines|)
  {
    if SwallowedBelow(newlines, openers, i, limit) {
      var o :| i < o < limit && openers[o] && forall m :: i < m < o ==> !newlines[m];
      forall m | idx + i + 1 <= m < idx + o
        ensures bytes[m] != NEWLINE
      {
        assert !newlines[m - idx];
      }
      OpenerLine(bytes, idx + i + 1, idx + o);
      assert Precedes(bytes, idx + i, idx + o);
    }
    if SwallowedBefore(bytes, idx + i, idx + |newlines|) {
      var o :| idx + i < o < idx + |newlines| && Precedes(bytes, idx + i, o);
      assert openers[o - idx] && newlines[i];
      assert forall m :: i < m < o - idx ==> !newlines[m];
    }
  }
}
