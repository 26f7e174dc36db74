/**
 * The scan for structural positions one byte at a time. Its state is whether an odd run of backslashes has just
 * been read, whether a quote is open, whether the byte before separates tokens, and whether a control character
 * has been met inside quotes.
 */
module Scanner {
  import opened Common

  predicate IsStructural(b: Byte) {
    b in {TAB, NEWLINE, RETURN, COMMA, HYPHEN, COLON, OPEN_BRACKET, CLOSE_BRACKET, OPEN_BRACE, PIPE, CLOSE_BRACE}
  }

  datatype Scan = Scan(odd: bool, inQuote: bool, separated: bool, error: bool, emitted: seq<nat>) {
    /** A quote that is not escaped opens or closes a string. */
    predicate Quotes(b: Byte) { b == QUOTE && !odd }

    predicate InsideAfter(b: Byte) { inQuote != Quotes(b) }

    /** Bytes that separate tokens, and the opening and closing quotes. */
    predicate Separates(b: Byte) {
      (IsStructural(b) && !InsideAfter(b)) || Quotes(b)
    }

    /** Separators, the first byte of each token and opening quotes are emitted; closing quotes are not. */
    predicate Emits(b: Byte) {
      && (Separates(b) || (separated && b != SPACE && !InsideAfter(b)))
      && !(Quotes(b) && inQuote)
    }

    function Step(b: Byte, k: nat): Scan {
      Scan(
        b == BACKSLASH && !odd,
        InsideAfter(b),
        Separates(b) || b == SPACE,
        error || (InsideAfter(b) && b <= 0x1F),
        if Emits(b) then emitted + [k] else emitted)
    }
  }

  function Initial(): Scan { Scan(false, false, true, false, []) }

  /** The scan of the first `n` bytes. */
  function ScanTo(bytes: Bytes, n: nat): Scan
    requires n <= |bytes|
  {
    if n == 0 then Initial() else ScanTo(bytes, n - 1).Step(bytes[n - 1], n - 1)
  }

  /** What stage 1 answers for a scan of the whole input. */
  function Verdict(s: Scan, utf8: bool): Result<seq<nat>> {
    if s.inQuote then Err(Syntax)
    else if s.emitted == [] then Err(Eof)
    else if s.error then Err(Syntax)
    else if !utf8 then Err(InvalidUtf8)
    else Ok(s.emitted)
  }

  lemma {:induction false} ScanSame(a: Bytes, b: Bytes, n: nat)
    requires n <= |a| && n <= |b| && a[..n] == b[..n]
    ensures ScanTo(a, n) == ScanTo(b, n)
  {
    if n > 0 {
      assert a[..n - 1] == a[..n][..n - 1] && b[..n - 1] == b[..n][..n - 1];
      ScanSame(a, b, n - 1);
      assert a[n - 1] == a[..n][n - 1] && b[n - 1] == b[..n][n - 1];
    }
  }

  /** Spaces behind the input add nothing to what it answers. */
  lemma {:induction false} ScanSpaces(bytes: Bytes, m: nat, n: nat)
    requires m <= n <= |bytes| && forall k :: m <= k < n ==> bytes[k] == SPACE
    ensures var s, t := ScanTo(bytes, m), ScanTo(bytes, n);
      s.emitted == t.emitted && s.inQuote == t.inQuote && s.error == t.error
    decreases n
  {
    if m < n {
      ScanSpaces(bytes, m, n - 1);
    }
  }

  predicate Increasing(e: seq<nat>, n: nat) {
    && (forall k :: 0 <= k < |e| ==> e[k] < n)
    && (forall k, l :: 0 <= k < l < |e| ==> e[k] < e[l])
  }

  /** The emitted positions are strictly increasing positions of the input. */
  lemma {:induction false} EmittedIncreasing(bytes: Bytes, n: nat)
    requires n <= |bytes|
    ensures Increasing(ScanTo(bytes, n).emitted, n)
  {
    if n > 0 {
      EmittedIncreasing(bytes, n - 1);
      var before := ScanTo(bytes, n - 1);
      assert ScanTo(bytes, n).emitted == if before.Emits(bytes[n - 1]) then before.emitted + [n - 1] else before.emitted;
    }
  }

  /** The length of the run of backslashes that ends in front of byte `n`. */
  function RunLength(bytes: Bytes, n: nat): (r: nat)
    requires n <= |bytes|
    ensures r <= n && forall k :: n - r <= k < n ==> bytes[k] == BACKSLASH
    ensures r < n ==> bytes[n - r - 1] != BACKSLASH
  {
    if n == 0 || bytes[n - 1] != BACKSLASH then 0 else 1 + RunLength(bytes, n - 1)
  }

  /** A byte is escaped exactly behind a maximal run of backslashes of odd length. */
  lemma {:induction false} OddIsRunParity(bytes: Bytes, n: nat)
    requires n <= |bytes|
    ensures ScanTo(bytes, n).odd <==> RunLength(bytes, n) % 2 == 1
  {
    if n > 0 {
      OddIsRunParity(bytes, n - 1);
    }
  }

  /** Position `k` is emitted exactly if the scan emits the byte there. */
  lemma {:induction false} EmittedIff(bytes: Bytes, n: nat, k: nat)
    requires k < n <= |bytes|
    ensures k in ScanTo(bytes, n).emitted <==> ScanTo(bytes, k).Emits(bytes[k])
    decreases n
  {
    EmittedIncreasing(bytes, n - 1);
    if k < n - 1 {
      EmittedIff(bytes, n - 1, k);
    }
  }

  /**
   * Between an emitted newline and the position emitted next there are only spaces, so the distance that stage 2
   * measures there is the indentation of the line.
   */
  lemma {:induction false} IndentationIsSpaces(bytes: Bytes, p: nat, q: nat)
    requires p < q <= |bytes| && bytes[p] == NEWLINE
    requires p in ScanTo(bytes, |bytes|).emitted
    requires forall k :: p < k < q ==> k !in ScanTo(bytes, |bytes|).emitted
    ensures forall k :: p < k < q ==> bytes[k] == SPACE
    ensures ScanTo(bytes, q).separated && !ScanTo(bytes, q).inQuote
    decreases q
  {
    EmittedIff(bytes, |bytes|, p);
    if q > p + 1 {
      IndentationIsSpaces(bytes, p, q - 1);
      EmittedIff(bytes, |bytes|, q - 1);
    }
  }
}
