/**
 * Both stages put together as `fill_tape` does: the stripped input is copied and padded, a newline behind its end
 * closes the list of structural positions, and the tape is built from the two.
 */
module Pipeline {
  import opened Common
  import opened Tape
  import opened Layout
  import opened Scanner
  import Comments
  import Stage1
  import Stage2
  import Grammar
  import States
  import Moments
  import WellFormed
  import Escapes
  import Strings
  import Tokens
  import Numbers
  import NumberParser
  import Dom
  import Deserializers

  const PADDING: nat := 64

  /** What the caller chooses, and the rounding to a double that is not modelled. */
  datatype Options = Options(strict: bool, indentSize: nat, round: Numbers.Outcome -> Option<Static>)

  /** The copy that stage 2 reads. */
  function Copied(bytes: Bytes): (data: Bytes)
    ensures |data| == |bytes| + PADDING && data[..|bytes|] == bytes && data[|bytes|] == NEWLINE
    ensures forall k :: |bytes| < k < |data| ==> data[k] == SPACE
  {
    bytes + [NEWLINE] + Stage1.Spaces(PADDING - 1)
  }

  /** The value of a number; what is left to be rounded is none if it overflows. */
  function Rounded(outcome: Numbers.Outcome, round: Numbers.Outcome -> Option<Static>): Option<Static> {
    match outcome
    case Whole(value) => Some(value)
    case NotANumber => None
    case _ => round(outcome)
  }

  /** The number that a token is, if it is one. */
  function NumberAt(data: Bytes, round: Numbers.Outcome -> Option<Static>, s: Span): Option<Static> {
    if !Numbers.IsToken(data, s.start, s.end) then None
    else Rounded(NumberParser.Parsed(data, s.start, s.end), round)
  }

  function DocumentOf(bytes: Bytes, emitted: seq<nat>, options: Options): Document {
    var data := Copied(bytes);
    Document(data, emitted + [|bytes|], options.strict, options.indentSize,
      s => Strings.TextAt(data, |bytes|, s), s => NumberAt(data, options.round, s))
  }

  lemma {:induction false} CopyScans(bytes: Bytes, n: nat)
    requires n <= |bytes|
    ensures ScanTo(Copied(bytes), n) == ScanTo(bytes, n)
  {
    assert Copied(bytes)[..n] == Copied(bytes)[..|bytes|][..n];
    ScanSame(Copied(bytes), bytes, n);
  }

  /** The positions handed to stage 2 are increasing and end on a newline. */
  lemma {:induction false} DocumentIsValid(bytes: Bytes, options: Options)
    requires |bytes| <= U32_MAX
    ensures var d := DocumentOf(bytes, ScanTo(bytes, |bytes|).emitted, options);
      d.Valid() && d.At(|d.indexes|) && d.Char(|d.indexes|) == NEWLINE
  {
    EmittedIncreasing(bytes, |bytes|);
  }

  /** The input that stage 1 accepts, as stage 2 sees it. */
  ghost predicate Accepted(d: Document, bytes: Bytes, options: Options) {
    && |bytes| <= U32_MAX && d == DocumentOf(bytes, ScanTo(bytes, |bytes|).emitted, options)
    && !ScanTo(bytes, |bytes|).inQuote
  }

  /**
   * The indentation that stage 2 measures behind a newline is the number of spaces there, for there is nothing else
   * up to the position that follows.
   */
  lemma {:induction false} MeasuredIndentationIsSpaces(d: Document, bytes: Bytes, options: Options, i: nat)
    requires Accepted(d, bytes, options) && d.At(i) && d.At(i + 1) && d.Char(i) == NEWLINE
    ensures forall k :: d.Pos(i) < k < d.Pos(i + 1) ==> d.input[k] == SPACE
    ensures d.Pos(i + 1) < |bytes| ==> d.Char(i + 1) != SPACE
  {
    hide ScanTo;
    var emitted := ScanTo(bytes, |bytes|).emitted;
    EmittedIncreasing(bytes, |bytes|);
    var p, q := d.Pos(i), d.Pos(i + 1);
    assert p == emitted[i - 1] && q <= |bytes|;
    assert bytes[p] == Copied(bytes)[..|bytes|][p];
    forall k: nat | p < k < q
      ensures k !in emitted
    {
      NotBetween(emitted, |bytes|, i - 1, k);
    }
    IndentationIsSpaces(bytes, p, q);
    assert forall k :: p < k < q ==> d.input[k] == Copied(bytes)[..|bytes|][k];
    if q < |bytes| {
      assert q == emitted[i];
      EmittedIff(bytes, |bytes|, q);
      assert bytes[q] == Copied(bytes)[..|bytes|][q];
      if bytes[q] == SPACE {
        SpacesAreNotEmitted(bytes, q);
      }
    }
  }

  /**
   * Whenever the machine is about to read the key of a line or an item of a block array, by whatever way it got there,
   * the last measured indentation is the number of spaces in front of that line, and it is on top of the stack.
   */
  lemma {:induction false} LinesAreIndented(d: Document, bytes: Bytes, options: Options, m: Moments.Moment, goal: Result<Grammar.Parsed>)
    requires Accepted(d, bytes, options) && d.At(m.i) && Moments.Sound(d, m, goal)
    requires m.state.ParseHeader? || m.state.ExpectBlockArrayItem?
    ensures m.ws == m.contentWs[|m.contentWs| - 1] && m.ws < d.Pos(m.i)
    ensures var line := d.Pos(m.i) - m.ws;
      && d.input[line - 1] == NEWLINE
      && (forall k :: line <= k < d.Pos(m.i) ==> d.input[k] == SPACE)
      && d.Char(m.i) != SPACE && d.Char(m.i) != NEWLINE
  {
    hide ScanTo, Moments.Framed, Moments.Awaited, Moments.Tallies, Moments.Lengthy;
    DocumentIsValid(bytes, options);
    assert States.EndsOnNewline(d);
    MeasuredIndentationIsSpaces(d, bytes, options, m.i - 1);
    DocumentEnds(d, bytes, options, m.i);
    assert d.input[|bytes|] == NEWLINE;
  }

  lemma {:induction false} NotBetween(e: seq<nat>, n: nat, j: nat, k: nat)
    requires Increasing(e, n) && j < |e| && e[j] < k && (j + 1 < |e| ==> k < e[j + 1])
    ensures k !in e
  {
    forall l | 0 <= l < |e|
      ensures e[l] != k
    {
      assert l <= j || l == j + 1 || j + 1 < l;
    }
  }

  lemma {:induction false} SpacesAreNotEmitted(bytes: Bytes, k: nat)
    requires k < |bytes| && bytes[k] == SPACE
    ensures !ScanTo(bytes, k).Emits(bytes[k])
  {
  }

  /** Behind an odd run of backslashes no token starts. */
  lemma {:induction false} EscapedIsNotSeparated(bytes: Bytes, k: nat)
    requires k <= |bytes|
    ensures !(ScanTo(bytes, k).odd && ScanTo(bytes, k).separated)
  {
  }

  /** Every quote that stage 2 meets opens a string which stage 1 found closed. */
  lemma {:induction false} MetQuotesOpen(d: Document, bytes: Bytes, options: Options, i: nat)
    requires Accepted(d, bytes, options) && d.At(i) && d.Char(i) == QUOTE
    ensures Strings.Opens(d.input, d.Pos(i), |bytes|)
  {
    hide ScanTo;
    var emitted := ScanTo(bytes, |bytes|).emitted;
    EmittedIncreasing(bytes, |bytes|);
    var p := d.Pos(i);
    assert p < |bytes| && p == emitted[i - 1];
    assert bytes[p] == Copied(bytes)[..|bytes|][p];
    EmittedIff(bytes, |bytes|, p);
    EscapedIsNotSeparated(bytes, p);
    CopyScans(bytes, p);
    CopyScans(bytes, |bytes|);
  }

  const DELIMITERS: set<Byte> := {NEWLINE, COMMA, PIPE, TAB}

  lemma {:induction false} TrimEnds(d: Document, start: nat, end: nat)
    requires start <= end < |d.input|
    ensures var e := d.Trim(start, end);
      e == end || d.input[e] == SPACE || d.input[e] == RETURN
    decreases end
  {
    if d.Trim(start, end) != end {
      TrimEnds(d, start, end - 1);
    }
  }

  /** A token that ends at a delimiter or newline is followed by what the number parser relies on to stop. */
  lemma {:induction false} ReadTokensEnd(d: Document, bytes: Bytes, options: Options, i: nat, stops: set<Byte>)
    requires Accepted(d, bytes, options) && d.At(i) && d.ReadToken(i, stops).Ok?
    requires d.Char(d.ReadToken(i, stops).value.next) in DELIMITERS
    ensures var s := d.ReadToken(i, stops).value.span;
      s.start < s.end ==> Numbers.IsToken(d.input, s.start, s.end)
  {
    hide ScanTo;
    DocumentIsValid(bytes, options);
    EmittedIncreasing(bytes, |bytes|);
    var t := d.ReadToken(i, stops).value;
    TrimEnds(d, d.Pos(i), d.Pos(t.next));
  }

  /**
   * Which node a token becomes. Looking at the first byte only loses no literal of RFC 8259: a token that is one
   * becomes its number if there is room for it, and any other token a word or a string.
   */
  lemma {:induction false} TokenBecomes(d: Document, bytes: Bytes, emitted: seq<nat>, options: Options, s: Span)
    requires d == DocumentOf(bytes, emitted, options) && d.Spans(s) && Numbers.IsToken(d.input, s.start, s.end)
    ensures forall l: Numbers.Literal :: l.Valid() && l.Spell() == d.input[s.start..s.end] ==>
      d.Infer(s) ==
        match Rounded(l.Meaning(), options.round)
        case Some(value) => Ok(Scalar(value))
        case None => d.Quote(s)
    ensures (forall l: Numbers.Literal :: l.Valid() ==> l.Spell() != d.input[s.start..s.end]) ==>
      d.Infer(s) ==
        match Word(d.input[s.start..s.end])
        case Some(value) => Ok(Scalar(value))
        case None => d.Quote(s)
  {
    hide Numbers.Literal.Spell, Numbers.Literal.Meaning, NumberParser.Parsed;
    var token := d.input[s.start..s.end];
    NumberParser.OnlyLiteralsAreNumbers(d.input, s.start, s.end);
    forall l: Numbers.Literal | l.Valid() && l.Spell() == token
      ensures IsDigit(token[0]) || token[0] == HYPHEN
    {
      LiteralStarts(l);
    }
    assert token[0] == d.input[s.start];
  }

  lemma {:induction false} LiteralStarts(l: Numbers.Literal)
    requires l.Valid()
    ensures |l.Spell()| > 0 && (IsDigit(l.Spell()[0]) || l.Spell()[0] == HYPHEN)
  {
    assert IsDigit(l.whole[0]);
  }

  /** The words that stand for a value. */
  function Word(token: Bytes): Option<Static> {
    if token == [116, 114, 117, 101] then Some(Bool(true))
    else if token == [102, 97, 108, 115, 101] then Some(Bool(false))
    else if token == [110, 117, 108, 108] then Some(Null)
    else None
  }

  /** A structural that is no quote lies outside strings. */
  lemma {:induction false} StructuralsAreOutside(d: Document, bytes: Bytes, options: Options, i: nat)
    requires Accepted(d, bytes, options) && d.At(i) && d.Char(i) != QUOTE && d.Pos(i) < |bytes|
    ensures !ScanTo(d.input, d.Pos(i)).inQuote
  {
    hide ScanTo;
    var emitted := ScanTo(bytes, |bytes|).emitted;
    EmittedIncreasing(bytes, |bytes|);
    var p := d.Pos(i);
    assert p == emitted[i - 1];
    assert bytes[p] == Copied(bytes)[..|bytes|][p];
    EmittedIff(bytes, |bytes|, p);
    CopyScans(bytes, p);
  }

  lemma {:induction false} TrimKeeps(d: Document, start: nat, end: nat, c: nat)
    requires start <= c < end <= |d.input| && d.input[c] != SPACE && d.input[c] != RETURN
    ensures c < d.Trim(start, end)
    decreases end
  {
    if c < end - 1 && (d.input[end - 1] == SPACE || d.input[end - 1] == RETURN) {
      TrimKeeps(d, start, end - 1, c);
    }
  }

  /** A string that decodes closes before the structural that ends its token, and so before the token does. */
  lemma {:induction false} ClosesInToken(d: Document, bytes: Bytes, options: Options, s: Span, a: nat, b: nat)
    requires Accepted(d, bytes, options) && Tokens.TokenAt(d, s, a, b) && d.Char(a) == QUOTE
    requires Strings.Opens(d.input, s.start, |bytes|) && Strings.TextOf(d.input, s.start, |bytes|).Ok?
    ensures Strings.TextOf(d.input, s.start, |bytes|).value.close < s.end
  {
    hide ScanTo, Escapes.Decode, Escapes.Closes;
    var n, p, q := |bytes|, d.Pos(a), d.Pos(b);
    var c := Strings.TextOf(d.input, p, n).value.close;
    Strings.OpensFresh(d.input, p, n);
    Escapes.DecodeStopsAtClosingQuote(d.input, p + 1, n);
    Strings.TextFits(d.input, p, n);
    ClosesOnQuote(d.input, p + 1, c);
    DocumentEnds(d, bytes, options, b);
    if q < n {
      StructuralsAreOutside(d, bytes, options, b);
      Strings.NotInside(d.input, p, c, q);
    }
    TrimKeeps(d, p, q, c);
  }

  lemma {:induction false} ClosesOnQuote(s: Bytes, i: nat, c: nat)
    requires Escapes.Closes(s, i, c)
    ensures i <= c < |s| && s[c] == QUOTE
  {
  }

  lemma {:induction false} DocumentEnds(d: Document, bytes: Bytes, options: Options, i: nat)
    requires Accepted(d, bytes, options) && d.At(i)
    ensures d.Pos(i) <= |bytes|
  {
    hide ScanTo;
    EmittedIncreasing(bytes, |bytes|);
  }

  /** Tokens that stage 2 reads are tokens that the string decoder can be given. */
  lemma {:induction false} TokensDecode(d: Document, bytes: Bytes, options: Options, s: Span)
    requires Accepted(d, bytes, options) && Tokens.IsToken(d, s)
    ensures Strings.IsStringToken(d.input, |bytes|, s)
  {
    hide ScanTo, Strings.TextOf, Strings.Opens;
    var a, b :| Tokens.TokenAt(d, s, a, b);
    DocumentEnds(d, bytes, options, b);
    Tokens.PosGrows(d, a, b);
    if d.Char(a) == QUOTE {
      MetQuotesOpen(d, bytes, options, a);
      if Strings.TextOf(d.input, s.start, |bytes|).Ok? {
        ClosesInToken(d, bytes, options, s, a, b);
      }
    }
  }

  /** The tokens of the String nodes, in the order in which these were put on the tape. */
  function TokensOf(tape: seq<Node>): (tokens: seq<Span>)
    ensures forall k :: 0 <= k < |tape| && tape[k].String? ==> tape[k].text.token in tokens
    ensures forall s :: s in tokens ==> exists k :: 0 <= k < |tape| && tape[k].String? && tape[k].text.token == s
  {
    if tape == [] then []
    else
      var last := tape[|tape| - 1];
      TokensOf(tape[..|tape| - 1]) + (if last.String? then [last.text.token] else [])
  }

  lemma {:induction false} TapeDecodes(d: Document, bytes: Bytes, options: Options)
    requires Accepted(d, bytes, options) && d.Valid() && Grammar.Parse(d).Ok?
    ensures var tokens := TokensOf(Grammar.Parse(d).value.tape);
      && Strings.AreTokens(d.input, |bytes|, tokens)
      && Strings.AllIntact(d.input, |bytes|, bytes, tokens)
      && forall j :: 0 <= j < |tokens| ==> Strings.TextAt(d.input, |bytes|, tokens[j]).Ok?
  {
    hide Grammar.Parse, Tokens.IsToken, Strings.IsStringToken, Apart, Strings.TextAt, ScanTo;
    var tape := Grammar.Parse(d).value.tape;
    var tokens := TokensOf(tape);
    Tokens.TapeTokens(d);
    forall j | 0 <= j < |tokens|
      ensures Strings.IsStringToken(d.input, |bytes|, tokens[j]) && Strings.Intact(d.input, |bytes|, bytes, tokens[j])
      ensures Strings.TextAt(d.input, |bytes|, tokens[j]).Ok?
    {
      assert tokens[j] in tokens;
      var k :| 0 <= k < |tape| && tape[k].String? && tape[k].text.token == tokens[j];
      TokensDecode(d, bytes, options, tokens[j]);
      assert Tokens.Honest(d, tape[k]);
      CopyIsIntact(bytes, tokens[j]);
    }
    forall j, l | 0 <= j < |tokens| && 0 <= l < |tokens|
      ensures Apart(tokens[j], tokens[l])
    {
      assert tokens[j] in tokens && tokens[l] in tokens;
      var k :| 0 <= k < |tape| && tape[k].String? && tape[k].text.token == tokens[j];
      var m :| 0 <= m < |tape| && tape[m].String? && tape[m].text.token == tokens[l];
    }
  }

  lemma {:induction false} CopyIsIntact(bytes: Bytes, token: Span)
    requires Strings.IsStringToken(Copied(bytes), |bytes|, token)
    ensures Strings.Intact(Copied(bytes), |bytes|, bytes, token)
  {
    hide Strings.PlainLength, Strings.TextOf, Strings.Opens;
    var data := Copied(bytes);
    assert forall k :: 0 <= k < |bytes| ==> bytes[k] == data[..|bytes|][k] == data[k];
    assert bytes[token.start..token.end] == data[..|bytes|][token.start..token.end] == data[token.start..token.end];
  }

  /** The slice of the input that a String node refers to shows its text. */
  predicate Readable(d: Document, now: Bytes, node: Node)
    requires |now| + 12 <= |d.input|
  {
    node.String? ==>
      var v := Strings.ViewOf(d.input, |now|, node.text.token);
      v.start + v.length <= |now| && now[v.start..v.start + v.length] == node.text.bytes
  }

  lemma {:induction false} ShownIsReadable(d: Document, bytes: Bytes, options: Options, now: Bytes)
    requires Accepted(d, bytes, options) && d.Valid() && Grammar.Parse(d).Ok? && |now| == |bytes|
    requires forall s :: s in TokensOf(Grammar.Parse(d).value.tape) ==> Strings.Shows(d.input, |bytes|, now, s)
    ensures var tape := Grammar.Parse(d).value.tape; forall k :: 0 <= k < |tape| ==> Readable(d, now, tape[k])
  {
    hide Grammar.Parse, Tokens.IsToken, Apart, Strings.TextAt, Strings.ViewOf, ScanTo;
    Tokens.TapeTokens(d);
    var tape := Grammar.Parse(d).value.tape;
    forall k | 0 <= k < |tape|
      ensures Readable(d, now, tape[k])
    {
      if tape[k].String? {
        var s := tape[k].text;
        assert Tokens.Honest(d, tape[k]);
        assert s.token in TokensOf(tape);
        assert Strings.Shows(d.input, |bytes|, now, s.token);
        assert Strings.TextAt(d.input, |bytes|, s.token) == Ok(s.bytes);
      }
    }
  }

  /**
   * `fill_tape`: the stages are run one after the other; `utf8` is the answer of the validator, and `bytes` the input
   * as stage 1 leaves it. Positions have to fit into 32 bits. Stage 2 decodes its strings in the order in which it
   * puts them on the tape, reading the copy and writing the input; at the end every String node can be read off the
   * input, and nothing but the inside of decoded strings has changed.
   */
  method FillTape(input: array<Byte>, utf8: bool, options: Options) returns (r: Result<seq<Node>>, ghost bytes: Bytes)
    modifies input
    ensures input.Length > U32_MAX ==> r == Err(InputTooLarge) && input[..] == old(input[..])
    ensures input.Length <= U32_MAX ==>
      |bytes| == input.Length
      && match Verdict(ScanTo(bytes, |bytes|), utf8)
         case Err(e) => r == Err(e) && input[..] == bytes
         case Ok(emitted) =>
           && bytes == Comments.Stripped(old(input[..]), Stage1.SIMDINPUT_LENGTH)
           && var d := DocumentOf(bytes, emitted, options);
              && d.Valid() && r == Tapes(Grammar.Parse(d))
              && (r.Ok? ==> Strings.SameButAll(d.input, |bytes|, bytes, input[..], TokensOf(r.value)))
              && (r.Ok? ==> forall k :: 0 <= k < |r.value| ==> Readable(d, input[..], r.value[k]))
  {
    hide ScanTo, Grammar.Parse, Strings.SameButAll, Strings.Shows, Strings.AllIntact, Strings.AreTokens, TokensOf, Readable,
      Strings.TextAt;
    bytes := input[..];
    if input.Length > U32_MAX {
      return Err(InputTooLarge), bytes;
    }
    var structurals := Stage1.FindStructuralBits(input, utf8);
    bytes := input[..];
    if structurals.Err? {
      return Err(structurals.error), bytes;
    }
    var d := DocumentOf(input[..], structurals.value, options);
    DocumentIsValid(bytes, options);
    var builder := new Stage2.TapeBuilder(d);
    var built, run := builder.BuildTape();
    if built.Err? {
      return Err(built.error), bytes;
    }
    DecodeStrings(d, bytes, options, input, builder.tape);
    return Ok(builder.tape), bytes;
  }

  /** The strings of the tape are decoded, in its order. */
  method DecodeStrings(d: Document, ghost bytes: Bytes, ghost options: Options, input: array<Byte>, tape: seq<Node>)
    requires Accepted(d, bytes, options) && d.Valid() && input[..] == bytes
    requires Grammar.Parse(d).Ok? && tape == Grammar.Parse(d).value.tape
    modifies input
    ensures Strings.SameButAll(d.input, |bytes|, bytes, input[..], TokensOf(tape))
    ensures forall k :: 0 <= k < |tape| ==> Readable(d, input[..], tape[k])
  {
    hide ScanTo, Grammar.Parse, Strings.SameButAll, Strings.Shows, Strings.AllIntact, Strings.AreTokens, TokensOf, Readable,
      Strings.TextAt;
    CopyScans(bytes, |bytes|);
    TapeDecodes(d, bytes, options);
    var buffer := new Byte[input.Length + Strings.WINDOW];
    var decoder := new Strings.StringDecoder(d.input, input.Length, input, buffer);
    var tokens := TokensOf(tape);
    var views := decoder.ParseAll(tokens);
    ShownIsReadable(d, bytes, options, input[..]);
  }

  function Tapes(r: Result<Grammar.Parsed>): Result<seq<Node>> {
    if r.Err? then Err(r.error) else Ok(r.value.tape)
  }

  /**
   * A tape that was built is the encoding of a tree exactly if every key got its value and every value in an object
   * its key.
   */
  lemma {:induction false} CleanTapesAreTrees(d: Document)
    requires d.Valid() && Grammar.Parse(d).Ok?
    ensures Grammar.Parse(d).value.clean <==> exists t: Dom.Tree :: Dom.Encode(t) == Grammar.Parse(d).value.tape
  {
    hide Grammar.Parse;
    WellFormed.ParsedIsValue(d);
    var p := Grammar.Parse(d).value;
    if p.clean {
      assert Dom.Encode(Dom.Decode(p.tape)) == p.tape;
    } else if t: Dom.Tree :| Dom.Encode(t) == p.tape {
      Dom.EncodeIsValue(t);
      assert false;
    }
  }
}
