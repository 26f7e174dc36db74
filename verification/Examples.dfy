/** Two inputs whose tapes are not well formed: a key left without a value and a value without a key. */
module Examples {
  import opened Common
  import opened Tape
  import opened Layout
  import opened Grammar
  import opened Scanner
  import Pipeline
  import WellFormed

  /** `a:`, then `b:` one level deeper, then `c:` at the root. */
  const BARE_KEY: Bytes := [97, COLON, NEWLINE, SPACE, SPACE, 98, COLON, NEWLINE, 99, COLON]

  /** The document of that input, as far as it is looked at. */
  ghost predicate BareKey(d: Document) {
    && d.indentSize == 2
    && |d.input| > 10 && d.input[..11] == BARE_KEY + [NEWLINE]
    && d.indexes == [0, 1, 2, 5, 6, 7, 8, 9, 10]
    && d.text(Span(0, 1)).Ok? && d.text(Span(5, 6)).Ok? && d.text(Span(8, 9)).Ok?
  }

  lemma {:induction false} BareKeyBytes(d: Document)
    requires BareKey(d)
    ensures d.Valid()
    ensures d.Char(1) == 97 && d.Char(2) == COLON && d.Char(3) == NEWLINE
    ensures d.Char(4) == 98 && d.Char(5) == COLON && d.Char(6) == NEWLINE
    ensures d.Char(7) == 99 && d.Char(8) == COLON && d.Char(9) == NEWLINE
  {
    assert forall k :: 0 <= k < 11 ==> d.input[k] == d.input[..11][k];
  }

  lemma {:induction false} OneKey(d: Document, i: nat)
    requires d.At(i) && i + 1 <= |d.indexes| && d.Char(i) !in {COLON, OPEN_BRACKET, NEWLINE, SPACE, RETURN}
    requires d.Char(i + 1) == COLON && d.Pos(i + 1) == d.Pos(i) + 1
    ensures d.ReadHeader(i) == Ok(Line(ObjectStart(Span(d.Pos(i), d.Pos(i) + 1)), i + 1))
  {
    var stops := {COLON, OPEN_BRACKET, NEWLINE};
    assert d.Seek(i + 1, stops) == Ok(i + 1);
    assert d.Seek(i, stops) == Ok(i + 1);
    assert d.Trim(d.Pos(i), d.Pos(i + 1)) == d.Pos(i) + 1;
  }

  lemma {:induction false} OneBreak(d: Document, i: nat, ws: nat, indent: nat)
    requires d.At(i) && i + 1 <= |d.indexes| && d.Char(i) == NEWLINE && d.Char(i + 1) != NEWLINE
    requires i + 1 < |d.indexes|
    ensures var measured := d.Pos(i + 1) - d.Pos(i) - 1;
      d.ReadEol(i, ws, indent, None, false) ==
        match d.Compare(measured, indent)
        case Err(e) => Err(e)
        case Ok(state) => Ok(Eol(state, i + 1, measured))
  {
    assert d.SkipBlank(i) == (i, i + 1);
  }

  /** A key and its `:` are read, and what follows them is its value. */
  lemma {:induction false} KeyThenValue(d: Document, i: nat, ws: nat)
    requires d.At(i) && i + 2 <= |d.indexes| && d.text(Span(d.Pos(i), d.Pos(i) + 1)).Ok?
    requires d.ReadHeader(i) == Ok(Line(ObjectStart(Span(d.Pos(i), d.Pos(i) + 1)), i + 1))
    ensures var name := Span(d.Pos(i), d.Pos(i) + 1);
      var key := Str(d.text(name).value, name);
      ReadFieldsOf(d, i, ws, ws, None) == ReadPairValue(d, i + 2, ws, ws, None).Prepend([String(key)], 1, true)
  {
    hide Document.ReadHeader, ReadPairValue;
    var name := Span(d.Pos(i), d.Pos(i) + 1);
    assert d.Quote(name) == Ok(String(Str(d.text(name).value, name)));
  }

  lemma {:induction false} BareB(d: Document)
    requires BareKey(d)
    ensures d.At(4)
    ensures var r := ReadFieldsOf(d, 4, 2, 2, None); r.Done? && r.i == 7 && r.ws == 0 && !r.clean
  {
    hide Document.ReadHeader, Document.ReadEol, ReadFieldsOf;
    BareKeyBytes(d);
    OneKey(d, 4);
    OneBreak(d, 6, 2, 2);
    KeyThenValue(d, 4, 2);
  }

  lemma {:induction false} LastC(d: Document)
    requires BareKey(d)
    ensures d.At(7)
    ensures var r := ReadFieldsOf(d, 7, 0, 0, None); r.Done? && r.i == 9
  {
    hide Document.ReadHeader, Document.ReadEol, ReadFieldsOf;
    BareKeyBytes(d);
    OneKey(d, 7);
    KeyThenValue(d, 7, 0);
  }

  lemma {:induction false} KeyIsLost(d: Document)
    requires BareKey(d)
    ensures d.Valid() && Parse(d).Ok? && !Parse(d).value.clean && !IsValue(Parse(d).value.tape)
  {
    hide IsValue, Document.ReadHeader, Document.ReadEol, ReadFieldsOf, Parse;
    BareKeyBytes(d);
    OneKey(d, 1);
    OneBreak(d, 3, 0, 0);
    BareB(d);
    LastC(d);
    var inner := ReadFieldsOf(d, 4, 2, 2, None);
    var rest := ReadOn(d, true, 7, 0, 0, None, None);
    assert rest == ReadFieldsOf(d, 7, 0, 0, None);
    RootKey(d, 9);
  }

  /** A document whose root is an object with one key in front of the value that `ReadPairValue` reads. */
  lemma {:induction false} RootKey(d: Document, end: nat)
    requires d.Valid() && |d.indexes| == end >= 3 && d.Char(1) !in {HASH, NEWLINE}
    requires d.text(Span(d.Pos(1), d.Pos(1) + 1)).Ok?
    requires d.ReadHeader(1) == Ok(Line(ObjectStart(Span(d.Pos(1), d.Pos(1) + 1)), 2))
    requires var a := ReadPairValue(d, 3, 0, 0, None); a.Done? && !a.clean && a.i == end
    ensures Parse(d).Ok? && !Parse(d).value.clean && !IsValue(Parse(d).value.tape)
  {
    hide IsValue, Document.ReadHeader, ReadPairValue;
    assert AtEnd(d, end);
    assert SkipNewlines(d, 1) == Ok(1);
    WellFormed.ParsedIsValue(d);
  }

  /** `a:`, then `[1]: x` one level deeper. */
  const UNKEYED_HEADER: Bytes :=
    [97, COLON, NEWLINE, SPACE, SPACE, OPEN_BRACKET, 49, CLOSE_BRACKET, COLON, SPACE, 120]

  ghost predicate UnkeyedHeader(d: Document) {
    && d.indentSize == 2
    && |d.input| > 11 && d.input[..12] == UNKEYED_HEADER + [NEWLINE]
    && d.indexes == [0, 1, 2, 5, 6, 7, 8, 10, 11]
    && d.text(Span(0, 1)).Ok? && d.text(Span(10, 11)).Ok?
  }

  lemma {:induction false} UnkeyedBytes(d: Document)
    requires UnkeyedHeader(d)
    ensures d.Valid()
    ensures d.Char(1) == 97 && d.Char(2) == COLON && d.Char(3) == NEWLINE
    ensures d.Char(4) == OPEN_BRACKET && d.Char(5) == 49 && d.Char(6) == CLOSE_BRACKET && d.Char(7) == COLON
    ensures d.Char(8) == 120 && d.Char(9) == NEWLINE
  {
    assert forall k :: 0 <= k < 12 ==> d.input[k] == d.input[..12][k];
  }

  lemma {:induction false} CountOfOne(d: Document)
    requires d.Valid() && |d.input| > 7 && d.input[6] == 49
    ensures d.ReadCount(6, 7, 0) == Ok(1)
  {
    assert d.ReadCount(7, 7, 1) == Ok(1);
  }

  lemma {:induction false} BracketOfOne(d: Document)
    requires UnkeyedHeader(d)
    ensures d.At(4) && d.ReadBracket(4) == Ok(Bracket(1, false, COMMA, 7))
  {
    hide Document.ReadCount;
    UnkeyedBytes(d);
    CountOfOne(d);
  }

  lemma {:induction false} HeaderOfOne(d: Document)
    requires UnkeyedHeader(d)
    ensures d.At(4) && d.ReadHeader(4) == Ok(Line(Declared(None, Simple(1, COMMA)), 7))
  {
    hide Document.ReadBracket;
    UnkeyedBytes(d);
    BracketOfOne(d);
    assert d.Seek(4, {COLON, OPEN_BRACKET, NEWLINE}) == Ok(4);
    assert d.Trim(5, 5) == 5;
  }

  lemma {:induction false} ItemOfOne(d: Document)
    requires UnkeyedHeader(d)
    ensures d.At(8) && ReadItems(d, 1, 8, COMMA).Ok? && ReadItems(d, 1, 8, COMMA).value.next == 9
  {
    hide Document.ReadToken;
    UnkeyedBytes(d);
    LastToken(d);
    assert d.input[10..11] == [120];
    assert d.Infer(Span(10, 11)).Ok?;
  }

  lemma {:induction false} LastToken(d: Document)
    requires UnkeyedHeader(d)
    ensures d.At(8) && d.ReadToken(8, {NEWLINE}) == Ok(Token(Span(10, 11), 9))
  {
    UnkeyedBytes(d);
    assert d.Seek(9, {NEWLINE}) == Ok(9);
    assert d.Seek(8, {NEWLINE}) == Ok(9);
    assert d.Trim(10, 11) == 11;
  }

  lemma {:induction false} ArrayOfOne(d: Document)
    requires UnkeyedHeader(d)
    ensures d.At(8)
    ensures var r := ReadDeclared(d, InlineArray(1, COMMA), None, 8, 2, 2, None, None);
      r.Done? && r.i == 9
  {
    hide ReadItems, Document.ReadHeader;
    UnkeyedBytes(d);
    ItemOfOne(d);
    var items := ReadContents(d, InlineArray(1, COMMA), 8, 2, 2, None, false);
    assert items.Done? && items.i == 9;
    assert ReadOn(d, false, 9, items.ws, 2, None, None) == Done([], 0, 9, items.ws, true);
  }

  lemma {:induction false} ObjectOfOne(d: Document)
    requires UnkeyedHeader(d)
    ensures d.At(4)
    ensures var r := ReadFieldsOf(d, 4, 2, 2, None); r.Done? && !r.clean && r.i == 9
  {
    hide Document.ReadHeader, ReadDeclared;
    UnkeyedBytes(d);
    HeaderOfOne(d);
    ArrayOfOne(d);
    assert Choose(d, Simple(1, COMMA), 7) == Ok(Chosen(InlineArray(1, COMMA), 8));
  }

  lemma {:induction false} LastBreak(d: Document, ws: nat)
    requires d.At(|d.indexes|) && d.Char(|d.indexes|) == NEWLINE
    ensures ReadOn(d, true, |d.indexes|, ws, 0, None, None) == Done([], 0, |d.indexes|, ws, true)
  {
  }

  lemma {:induction false} HeaderIsKept(d: Document)
    requires UnkeyedHeader(d)
    ensures d.Valid() && Parse(d).Ok? && !Parse(d).value.clean && !IsValue(Parse(d).value.tape)
  {
    hide IsValue, Document.ReadHeader, Document.ReadEol, ReadFieldsOf, ReadOn, Parse;
    UnkeyedBytes(d);
    OneKey(d, 1);
    OneBreak(d, 3, 0, 0);
    ObjectOfOne(d);
    var inner := ReadFieldsOf(d, 4, 2, 2, None);
    LastBreak(d, inner.ws);
    RootKey(d, 9);
  }

  // ----- The inputs, scanned and padded -----

  lemma {:induction false} Step(bytes: Bytes, k: nat)
    requires k < |bytes|
    ensures ScanTo(bytes, k + 1) == ScanTo(bytes, k).Step(bytes[k], k)
  {
  }

  lemma {:induction false} BareKeyStart()
    ensures ScanTo(BARE_KEY, 5) == Scan(false, false, true, false, [0, 1, 2])
  {
    hide ScanTo;
    NoScan(BARE_KEY);
    Step(BARE_KEY, 0);
    assert ScanTo(BARE_KEY, 1) == Scan(false, false, false, false, [0]);
    Step(BARE_KEY, 1);
    assert ScanTo(BARE_KEY, 2) == Scan(false, false, true, false, [0, 1]);
    Step(BARE_KEY, 2);
    assert ScanTo(BARE_KEY, 3) == Scan(false, false, true, false, [0, 1, 2]);
    Step(BARE_KEY, 3);
    assert ScanTo(BARE_KEY, 4) == Scan(false, false, true, false, [0, 1, 2]);
    Step(BARE_KEY, 4);
  }

  lemma {:induction false} BareKeyScans()
    ensures ScanTo(BARE_KEY, 10) == Scan(false, false, true, false, [0, 1, 2, 5, 6, 7, 8, 9])
  {
    hide ScanTo;
    BareKeyStart();
    Step(BARE_KEY, 5);
    assert ScanTo(BARE_KEY, 6) == Scan(false, false, false, false, [0, 1, 2, 5]);
    Step(BARE_KEY, 6);
    assert ScanTo(BARE_KEY, 7) == Scan(false, false, true, false, [0, 1, 2, 5, 6]);
    Step(BARE_KEY, 7);
    assert ScanTo(BARE_KEY, 8) == Scan(false, false, true, false, [0, 1, 2, 5, 6, 7]);
    Step(BARE_KEY, 8);
    assert ScanTo(BARE_KEY, 9) == Scan(false, false, false, false, [0, 1, 2, 5, 6, 7, 8]);
    Step(BARE_KEY, 9);
  }

  lemma {:induction false} UnkeyedHeaderStart()
    ensures ScanTo(UNKEYED_HEADER, 5) == Scan(false, false, true, false, [0, 1, 2])
  {
    hide ScanTo;
    NoScan(UNKEYED_HEADER);
    Step(UNKEYED_HEADER, 0);
    assert ScanTo(UNKEYED_HEADER, 1) == Scan(false, false, false, false, [0]);
    Step(UNKEYED_HEADER, 1);
    assert ScanTo(UNKEYED_HEADER, 2) == Scan(false, false, true, false, [0, 1]);
    Step(UNKEYED_HEADER, 2);
    assert ScanTo(UNKEYED_HEADER, 3) == Scan(false, false, true, false, [0, 1, 2]);
    Step(UNKEYED_HEADER, 3);
    assert ScanTo(UNKEYED_HEADER, 4) == Scan(false, false, true, false, [0, 1, 2]);
    Step(UNKEYED_HEADER, 4);
  }

  lemma {:induction false} UnkeyedHeaderScans()
    ensures ScanTo(UNKEYED_HEADER, 11) == Scan(false, false, false, false, [0, 1, 2, 5, 6, 7, 8, 10])
  {
    hide ScanTo;
    UnkeyedHeaderStart();
    Step(UNKEYED_HEADER, 5);
    assert ScanTo(UNKEYED_HEADER, 6) == Scan(false, false, true, false, [0, 1, 2, 5]);
    Step(UNKEYED_HEADER, 6);
    assert ScanTo(UNKEYED_HEADER, 7) == Scan(false, false, false, false, [0, 1, 2, 5, 6]);
    Step(UNKEYED_HEADER, 7);
    assert ScanTo(UNKEYED_HEADER, 8) == Scan(false, false, true, false, [0, 1, 2, 5, 6, 7]);
    Step(UNKEYED_HEADER, 8);
    assert ScanTo(UNKEYED_HEADER, 9) == Scan(false, false, true, false, [0, 1, 2, 5, 6, 7, 8]);
    Step(UNKEYED_HEADER, 9);
    assert ScanTo(UNKEYED_HEADER, 10) == Scan(false, false, true, false, [0, 1, 2, 5, 6, 7, 8]);
    Step(UNKEYED_HEADER, 10);
  }

  lemma {:induction false} NoScan(bytes: Bytes)
    ensures ScanTo(bytes, 0) == Initial()
  {
  }

  /** The document that `fill_tape` builds for an input without comments. */
  function Filled(bytes: Bytes, options: Pipeline.Options): Document {
    Pipeline.DocumentOf(bytes, ScanTo(bytes, |bytes|).emitted, options)
  }

  /** The key `b` is left without a value: the tape is not one well-formed value. */
  lemma {:induction false} BareKeyIsLost(options: Pipeline.Options)
    requires options.indentSize == 2
    ensures var d := Filled(BARE_KEY, options);
      d.Valid() && Parse(d).Ok? && !Parse(d).value.clean && !IsValue(Parse(d).value.tape)
  {
    hide IsValue, Parse, ScanTo;
    BareKeyScans();
    var d := Filled(BARE_KEY, options);
    assert d.input[..11] == d.input[..10] + [d.input[10]];
    KeyIsLost(d);
  }

  /** The array has no key in the object that holds it. */
  lemma {:induction false} UnkeyedHeaderIsKept(options: Pipeline.Options)
    requires options.indentSize == 2
    ensures var d := Filled(UNKEYED_HEADER, options);
      d.Valid() && Parse(d).Ok? && !Parse(d).value.clean && !IsValue(Parse(d).value.tape)
  {
    hide IsValue, Parse, ScanTo;
    UnkeyedHeaderScans();
    var d := Filled(UNKEYED_HEADER, options);
    assert d.input[..12] == d.input[..11] + [d.input[11]];
    HeaderIsKept(d);
  }
}
