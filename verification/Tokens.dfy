/**
 * Where the strings of a tape come from. Each is read off one token of the input, and two of them come from the same
 * token or from tokens that lie one behind the other: the cursor only moves forward, and what is read again are the
 * names of a header, for each of its rows.
 */
module Tokens {
  import opened Common
  import opened Tape
  import opened Layout
  import opened Grammar

  /** The token from position `a` up to the one at `b` that ends it. */
  ghost predicate TokenAt(d: Document, s: Span, a: nat, b: nat) {
    && d.At(a) && d.At(b) && a <= b
    && s.start == d.Pos(a) && s.end == d.Trim(d.Pos(a), d.Pos(b)) && d.Char(b) != QUOTE
  }

  ghost predicate IsToken(d: Document, s: Span) {
    exists a, b :: TokenAt(d, s, a, b)
  }

  /** A token read while the cursor moved from `i` to `j`. */
  ghost predicate Between(d: Document, s: Span, i: nat, j: nat)
    requires d.At(i) && d.At(j)
  {
    IsToken(d, s) && d.Pos(i) <= s.start && s.end <= d.Pos(j)
  }

  function SpansOf(nodes: seq<Node>): set<Span> {
    set k | 0 <= k < |nodes| && nodes[k].String? :: nodes[k].text.token
  }

  /** Tokens read between `i` and `j`, apart from one another. */
  ghost predicate Fit(d: Document, spans: set<Span>, i: nat, j: nat) {
    && d.At(i) && d.At(j) && i <= j
    && (forall s :: s in spans ==> Between(d, s, i, j))
    && (forall p, q :: p in spans && q in spans ==> Apart(p, q))
  }

  /** A string holds what its token decodes to. */
  ghost predicate Honest(d: Document, node: Node) {
    node.String? ==> d.text(node.text.token) == Ok(node.text.bytes)
  }

  /**
   * The strings of `nodes` are decoded from such tokens, or from one of the `names`, which have been read before.
   */
  ghost predicate Fitting(d: Document, names: set<Span>, nodes: seq<Node>, i: nat, j: nat) {
    && Fit(d, SpansOf(nodes) - names, i, j)
    && forall k :: 0 <= k < |nodes| ==> Honest(d, nodes[k])
  }

  // ----- Putting stretches together -----

  lemma {:induction false} PosGrows(d: Document, i: nat, j: nat)
    requires d.At(i) && d.At(j) && i <= j
    ensures d.Pos(i) <= d.Pos(j)
  {
  }

  lemma {:induction false} FitWiden(d: Document, spans: set<Span>, i: nat, j: nat, k: nat, l: nat)
    requires Fit(d, spans, j, k) && d.At(i) && d.At(l) && i <= j && k <= l
    ensures Fit(d, spans, i, l)
  {
    PosGrows(d, i, j);
    PosGrows(d, k, l);
  }

  lemma {:induction false} FitJoin(d: Document, s: set<Span>, t: set<Span>, i: nat, j: nat, k: nat)
    requires Fit(d, s, i, j) && Fit(d, t, j, k)
    ensures Fit(d, s + t, i, k)
  {
    FitWiden(d, s, i, i, j, k);
    FitWiden(d, t, i, j, k, k);
    forall p, q | p in s + t && q in s + t
      ensures Apart(p, q)
    {
      if p in s && q in t {
        assert Between(d, p, i, j) && Between(d, q, j, k);
      } else if p in t && q in s {
        assert Between(d, q, i, j) && Between(d, p, j, k);
      }
    }
  }

  lemma {:induction false} FitLess(d: Document, s: set<Span>, t: set<Span>, i: nat, j: nat)
    requires Fit(d, s, i, j) && t <= s
    ensures Fit(d, t, i, j)
  {
  }

  lemma {:induction false} FitNone(d: Document, i: nat)
    requires d.At(i)
    ensures Fit(d, {}, i, i)
  {
  }

  lemma {:induction false} SpansAppend(a: seq<Node>, b: seq<Node>)
    ensures SpansOf(a + b) == SpansOf(a) + SpansOf(b)
  {
    var c := a + b;
    forall s | s in SpansOf(a) + SpansOf(b)
      ensures s in SpansOf(c)
    {
      if s in SpansOf(a) {
        var k :| 0 <= k < |a| && a[k].String? && a[k].text.token == s;
        assert c[k] == a[k];
      } else {
        var k :| 0 <= k < |b| && b[k].String? && b[k].text.token == s;
        assert c[|a| + k] == b[k];
      }
    }
  }

  lemma {:induction false} SpansClosed(isObject: bool, body: seq<Node>, n: nat)
    ensures SpansOf(Closed(isObject, body, n)) == SpansOf(body)
  {
    SpansAppend([Container(isObject, n, |body|)], body);
    assert SpansOf([Container(isObject, n, |body|)]) == {};
  }

  lemma {:induction false} Join(d: Document, names: set<Span>, a: seq<Node>, b: seq<Node>, i: nat, j: nat, k: nat)
    requires Fitting(d, names, a, i, j) && Fitting(d, names, b, j, k)
    ensures Fitting(d, names, a + b, i, k)
  {
    hide Fit, SpansOf;
    SpansAppend(a, b);
    FitJoin(d, SpansOf(a) - names, SpansOf(b) - names, i, j, k);
    assert SpansOf(a + b) - names == (SpansOf(a) - names) + (SpansOf(b) - names);
  }

  lemma {:induction false} Widen(d: Document, names: set<Span>, nodes: seq<Node>, i: nat, j: nat, k: nat, l: nat)
    requires Fitting(d, names, nodes, j, k) && d.At(i) && d.At(l) && i <= j && k <= l
    ensures Fitting(d, names, nodes, i, l)
  {
    FitWiden(d, SpansOf(nodes) - names, i, j, k, l);
  }

  lemma {:induction false} MoreNames(d: Document, names: set<Span>, more: set<Span>, nodes: seq<Node>, i: nat, j: nat)
    requires Fitting(d, names, nodes, i, j) && names <= more
    ensures Fitting(d, more, nodes, i, j)
  {
    FitLess(d, SpansOf(nodes) - names, SpansOf(nodes) - more, i, j);
  }

  /** Names that were read in front of the nodes are tokens like the others. */
  lemma {:induction false} NoNames(d: Document, names: set<Span>, nodes: seq<Node>, i: nat, j: nat, k: nat)
    requires Fit(d, names, i, j) && Fitting(d, names, nodes, j, k)
    ensures Fitting(d, {}, nodes, i, k)
  {
    hide Fit, SpansOf;
    FitJoin(d, names, SpansOf(nodes) - names, i, j, k);
    FitLess(d, names + (SpansOf(nodes) - names), SpansOf(nodes) - {}, i, k);
  }

  lemma {:induction false} Enclose(d: Document, names: set<Span>, isObject: bool, body: seq<Node>, n: nat, i: nat, j: nat)
    requires Fitting(d, names, body, i, j)
    ensures Fitting(d, names, Closed(isObject, body, n), i, j)
  {
    SpansClosed(isObject, body, n);
  }

  lemma {:induction false} Nothing(d: Document, names: set<Span>, i: nat)
    requires d.At(i)
    ensures Fitting(d, names, [], i, i)
  {
  }

  /** One node, which is no string or one of the names. */
  lemma {:induction false} One(d: Document, names: set<Span>, node: Node, i: nat)
    requires d.At(i) && (node.String? ==> node.text.token in names) && Honest(d, node)
    ensures Fitting(d, names, [node], i, i)
  {
    assert SpansOf([node]) - names == {};
  }

  lemma {:induction false} TokenFits(d: Document, i: nat, stops: set<Byte>)
    requires d.At(i) && d.ReadToken(i, stops).Ok? && QUOTE !in stops
    ensures var t := d.ReadToken(i, stops).value; Fit(d, {t.span}, i, t.next)
  {
    var t := d.ReadToken(i, stops).value;
    PosGrows(d, i, t.next);
    assert TokenAt(d, t.span, i, t.next);
  }

  /** One node read off the token at the cursor. */
  lemma {:induction false} OneToken(d: Document, names: set<Span>, node: Node, i: nat, stops: set<Byte>)
    requires d.At(i) && d.ReadToken(i, stops).Ok? && QUOTE !in stops
    requires (node.String? ==> node.text.token == d.ReadToken(i, stops).value.span) && Honest(d, node)
    ensures Fitting(d, names, [node], i, d.ReadToken(i, stops).value.next)
  {
    hide Document.ReadToken;
    TokenFits(d, i, stops);
    var t := d.ReadToken(i, stops).value;
    FitLess(d, {t.span}, SpansOf([node]) - names, i, t.next);
  }

  lemma {:induction false} QuotedToken(d: Document, s: Span)
    ensures d.Quote(s).Ok? ==> d.Quote(s).value.text.token == s && Honest(d, d.Quote(s).value)
  {
  }

  lemma {:induction false} InferredToken(d: Document, s: Span)
    requires d.Spans(s)
    ensures d.Infer(s).Ok? ==> Honest(d, d.Infer(s).value)
    ensures d.Infer(s).Ok? && d.Infer(s).value.String? ==> d.Infer(s).value.text.token == s
  {
  }

  // ----- Headers -----

  function FieldNames(fields: seq<Field>): set<Span> {
    if fields == [] then {} else NamesOf(fields[0]) + FieldNames(fields[1..])
  }

  function NamesOf(field: Field): set<Span> {
    match field
    case Leaf(name) => {name}
    case Group(name, children) => {name} + FieldNames(children)
  }

  lemma {:induction false} FlatNames(fields: seq<Field>)
    ensures (set n | n in Names(fields)) <= FieldNames(fields)
  {
    if fields != [] {
      FlatNames(fields[1..]);
    }
  }

  function ShapeNames(shape: Shape): set<Span> {
    match shape
    case KeyedRows(headers, _, _) => set n | n in headers
    case Rows(headers, _, _) => set n | n in headers
    case GroupedRows(fields, _, _, _, _) => FieldNames(fields)
    case _ => {}
  }

  function KeyNames(key: Option<Span>): set<Span> { if key.Some? then {key.value} else {} }

  function HeaderNames(header: Header): set<Span> {
    match header
    case PrimitiveValue(val) => {val}
    case ObjectStart(name) => {name}
    case EmptyObject => {}
    case Declared(key, shape) => KeyNames(key) + ShapeNames(shape)
  }

  /** Cells are told apart by something other than a quote. */
  predicate Delimits(shape: Shape) {
    (shape.Simple? || shape.KeyedRows? || shape.Rows? || shape.GroupedRows?) ==> shape.delimiter != QUOTE
  }

  lemma {:induction false} FieldsFit(d: Document, i: nat, delimiter: Byte)
    requires d.At(i) && delimiter != QUOTE
    ensures var r := d.ReadFields(i, delimiter); r.Ok? ==> Fit(d, FieldNames(r.value.fields), i, r.value.next)
    decreases |d.indexes| - i, 0
  {
    hide Fit, Document.ReadToken;
    var stops := {delimiter, CLOSE_BRACE, OPEN_BRACE};
    if d.Next(i).Ok? && d.ReadToken(i + 1, stops).Ok? {
      var t := d.ReadToken(i + 1, stops).value;
      TokenFits(d, i + 1, stops);
      FitWiden(d, {t.span}, i, i + 1, t.next, t.next);
      if d.Char(t.next) != OPEN_BRACE {
        EndFits(d, Leaf(t.span), i, t.next, delimiter);
      } else if d.ReadFields(t.next, delimiter).Ok? {
        var inner := d.ReadFields(t.next, delimiter).value;
        FieldsFit(d, t.next, delimiter);
        FitJoin(d, {t.span}, FieldNames(inner.fields), i, t.next, inner.next);
        EndFits(d, Group(t.span, inner.fields), i, inner.next, delimiter);
      }
    }
  }

  lemma {:induction false} EndFits(d: Document, field: Field, i: nat, j: nat, delimiter: Byte)
    requires d.At(i) && d.At(j) && i < j && delimiter != QUOTE && Fit(d, NamesOf(field), i, j)
    ensures var r := d.EndField(field, j, delimiter); r.Ok? ==> Fit(d, FieldNames(r.value.fields), i, r.value.next)
    decreases |d.indexes| - j, 1
  {
    hide Fit, NamesOf, Document.ReadFields;
    var r := d.EndField(field, j, delimiter);
    FieldAlone(field);
    if d.Char(j) == CLOSE_BRACE {
      if r.Ok? {
        FitWiden(d, NamesOf(field), i, i, j, r.value.next);
      }
    } else if r.Ok? {
      FieldsFit(d, j, delimiter);
      var rest := d.ReadFields(j, delimiter).value;
      FitJoin(d, NamesOf(field), FieldNames(rest.fields), i, j, rest.next);
      assert ([field] + rest.fields)[1..] == rest.fields;
    }
  }

  lemma {:induction false} FieldAlone(field: Field)
    ensures FieldNames([field]) == NamesOf(field)
  {
    assert FieldNames([field][1..]) == {};
  }

  lemma {:induction false} BracketDelimits(d: Document, i: nat)
    requires d.At(i)
    ensures d.ReadBracket(i).Ok? ==> d.ReadBracket(i).value.delimiter != QUOTE
  {
  }

  lemma {:induction false} ShapeFits(d: Document, i: nat)
    requires d.At(i)
    ensures d.ReadShape(i).Ok? ==>
      Fit(d, ShapeNames(d.ReadShape(i).value.0), i, d.ReadShape(i).value.1) && Delimits(d.ReadShape(i).value.0)
  {
    hide Fit, Document.ReadBracket, Document.ReadFields, FieldNames;
    BracketDelimits(d, i);
    if d.ReadShape(i).Ok? {
      var b := d.ReadBracket(i).value;
      var next := d.ReadShape(i).value.1;
      if d.Char(b.next) != OPEN_BRACE {
        FitNone(d, i);
        FitWiden(d, {}, i, i, i, next);
        FitLess(d, {}, ShapeNames(d.ReadShape(i).value.0), i, next);
      } else {
        FieldsFit(d, b.next, b.delimiter);
        var list := d.ReadFields(b.next, b.delimiter).value;
        FitWiden(d, FieldNames(list.fields), i, b.next, list.next, list.next);
        FlatNames(list.fields);
        FitLess(d, FieldNames(list.fields), ShapeNames(d.ReadShape(i).value.0), i, next);
      }
    }
  }

  /** The key and the names of a header are tokens of its line. */
  lemma {:induction false} HeaderFits(d: Document, i: nat)
    requires d.At(i)
    ensures d.ReadHeader(i).Ok? ==>
      var line := d.ReadHeader(i).value;
      Fit(d, HeaderNames(line.header), i, line.next) && (line.header.Declared? ==> Delimits(line.header.shape))
  {
    hide Fit, Document.ReadToken, Document.ReadShape, ShapeNames;
    var stops := {COLON, OPEN_BRACKET, NEWLINE};
    if d.ReadHeader(i).Ok? {
      var line := d.ReadHeader(i).value;
      var t := d.ReadToken(i, stops).value;
      TokenFits(d, i, stops);
      if line.header.Declared? {
        ShapeFits(d, t.next);
        FitJoin(d, {t.span}, ShapeNames(line.header.shape), i, t.next, line.next);
        FitLess(d, {t.span} + ShapeNames(line.header.shape), HeaderNames(line.header), i, line.next);
      } else {
        FitLess(d, {t.span}, HeaderNames(line.header), i, line.next);
      }
    }
  }

  // ----- Rows and inline items -----

  lemma {:induction false} CellsFit(d: Document, names: set<Span>, headers: seq<Span>, k: nat, i: nat, delimiter: Byte, keyed: bool)
    requires d.At(i) && k < |headers| && delimiter != QUOTE && forall n :: n in headers ==> n in names
    ensures var r := ReadCells(d, headers, k, i, delimiter, keyed);
      r.Ok? ==> Fitting(d, names, r.value.nodes, i, r.value.next)
    decreases |headers| - k
  {
    hide Fitting, Document.ReadToken, Document.Infer, Document.Quote, ReadCells;
    if ReadCells(d, headers, k, i, delimiter, keyed).Ok? {
      FirstCell(d, headers, k, i, delimiter, keyed);
      if k + 1 < |headers| {
        CellFits(d, names, headers[k], i, {delimiter});
        var first, next := CellAt(d, headers[k], i, {delimiter}), d.ReadToken(i, {delimiter}).value.next;
        Widen(d, names, first, i, i, next, next + 1);
        CellsFit(d, names, headers, k + 1, next + 1, delimiter, keyed);
        var rest := ReadCells(d, headers, k + 1, next + 1, delimiter, keyed).value;
        Join(d, names, first, rest.nodes, i, next + 1, rest.next);
      } else {
        CellFits(d, names, headers[k], i, {NEWLINE});
      }
    }
  }

  predicate HasCell(d: Document, name: Span, i: nat, stops: set<Byte>)
    requires d.At(i)
  {
    d.Quote(name).Ok? && d.ReadToken(i, stops).Ok? && d.Infer(d.ReadToken(i, stops).value.span).Ok?
  }

  function CellAt(d: Document, name: Span, i: nat, stops: set<Byte>): (nodes: seq<Node>)
    requires d.At(i) && HasCell(d, name, i, stops)
  {
    [d.Quote(name).value] + [d.Infer(d.ReadToken(i, stops).value.span).value]
  }

  lemma {:induction false} FirstCell(d: Document, headers: seq<Span>, k: nat, i: nat, delimiter: Byte, keyed: bool)
    requires d.At(i) && k < |headers| && ReadCells(d, headers, k, i, delimiter, keyed).Ok?
    ensures var r := ReadCells(d, headers, k, i, delimiter, keyed).value;
      var stops := if k + 1 < |headers| then {delimiter} else {NEWLINE};
      && HasCell(d, headers[k], i, stops)
      && var first, next := CellAt(d, headers[k], i, stops), d.ReadToken(i, stops).value.next;
         if k + 1 < |headers| then
           && d.At(next + 1) && ReadCells(d, headers, k + 1, next + 1, delimiter, keyed).Ok?
           && var rest := ReadCells(d, headers, k + 1, next + 1, delimiter, keyed).value;
              r == Nodes(first + rest.nodes, rest.next)
         else r == Nodes(first, next)
  {
    hide Document.ReadToken, Document.Infer, Document.Quote;
  }

  /** A name that has been read before, and the token at the cursor. */
  lemma {:induction false} CellFits(d: Document, names: set<Span>, name: Span, i: nat, stops: set<Byte>)
    requires d.At(i) && name in names && QUOTE !in stops && HasCell(d, name, i, stops)
    ensures Fitting(d, names, CellAt(d, name, i, stops), i, d.ReadToken(i, stops).value.next)
  {
    hide Fitting, Document.ReadToken, Document.Infer, Document.Quote;
    var t := d.ReadToken(i, stops).value;
    var key, v := d.Quote(name).value, d.Infer(t.span).value;
    QuotedToken(d, name);
    One(d, names, key, i);
    InferredToken(d, t.span);
    OneToken(d, names, v, i, stops);
    Join(d, names, [key], [v], i, i, t.next);
  }

  lemma {:induction false} FlatRowFits(d: Document, names: set<Span>, headers: seq<Span>, i: nat, delimiter: Byte, keyed: bool)
    requires d.At(i) && delimiter != QUOTE && forall n :: n in headers ==> n in names
    ensures var r := ReadFlatRow(d, headers, i, delimiter, keyed);
      r.Ok? ==> Fitting(d, names, r.value.nodes, i, r.value.next)
  {
    hide Fitting, ReadCells;
    if ReadFlatRow(d, headers, i, delimiter, keyed).Ok? {
      CellsFit(d, names, headers, 0, i, delimiter, keyed);
      var cells := ReadCells(d, headers, 0, i, delimiter, keyed).value;
      Enclose(d, names, true, cells.nodes, |headers|, i, cells.next);
    }
  }

  lemma {:induction false} BranchFits(d: Document, names: set<Span>, fields: seq<Field>, seen: nat, leaves: nat, i: nat, delimiter: Byte)
    requires d.At(i) && delimiter != QUOTE && FieldNames(fields) <= names
    ensures var r := ReadBranch(d, fields, seen, leaves, i, delimiter);
      r.Ok? ==> Fitting(d, names, r.value.nodes, i, r.value.next)
    decreases fields, 0
  {
    hide Fitting, ReadEntry;
    var r := ReadBranch(d, fields, seen, leaves, i, delimiter);
    if r.Ok? {
      if fields == [] {
        Nothing(d, names, i);
      } else {
        EntryFits(d, names, fields[0], seen, leaves, i, delimiter);
        var first := ReadEntry(d, fields[0], seen, leaves, i, delimiter).value;
        BranchFits(d, names, fields[1..], first.seen, leaves, first.next, delimiter);
        var rest := ReadBranch(d, fields[1..], first.seen, leaves, first.next, delimiter).value;
        Join(d, names, first.nodes, rest.nodes, i, first.next, rest.next);
      }
    }
  }

  lemma {:induction false} EntryFits(d: Document, names: set<Span>, field: Field, seen: nat, leaves: nat, i: nat, delimiter: Byte)
    requires d.At(i) && delimiter != QUOTE && NamesOf(field) <= names
    ensures var r := ReadEntry(d, field, seen, leaves, i, delimiter);
      r.Ok? ==> Fitting(d, names, r.value.nodes, i, r.value.next)
    decreases field, 2
  {
    hide Fitting, ReadField, Document.Quote;
    var r := ReadEntry(d, field, seen, leaves, i, delimiter);
    if r.Ok? {
      var key := d.Quote(field.name).value;
      QuotedToken(d, field.name);
      One(d, names, key, i);
      FieldFits(d, names, field, seen, leaves, i, delimiter);
      var value := ReadField(d, field, seen, leaves, i, delimiter).value;
      Join(d, names, [key], value.nodes, i, i, value.next);
    }
  }

  lemma {:induction false} FieldFits(d: Document, names: set<Span>, field: Field, seen: nat, leaves: nat, i: nat, delimiter: Byte)
    requires d.At(i) && delimiter != QUOTE && NamesOf(field) <= names
    ensures var r := ReadField(d, field, seen, leaves, i, delimiter);
      r.Ok? ==> Fitting(d, names, r.value.nodes, i, r.value.next)
    decreases field, 1
  {
    hide Fitting, ReadBranch, Document.ReadToken, Document.Infer;
    var r := ReadField(d, field, seen, leaves, i, delimiter);
    if r.Ok? {
      match field
      case Leaf(_) =>
        var stops := if seen + 1 == leaves then {NEWLINE} else {delimiter};
        var t := d.ReadToken(i, stops).value;
        var v := d.Infer(t.span).value;
        InferredToken(d, t.span);
        OneToken(d, names, v, i, stops);
        Widen(d, names, [v], i, i, t.next, r.value.next);
      case Group(_, children) =>
        BranchFits(d, names, children, seen, leaves, i, delimiter);
        var inner := ReadBranch(d, children, seen, leaves, i, delimiter).value;
        Enclose(d, names, true, inner.nodes, |children|, i, inner.next);
    }
  }

  function FormNames(form: Form): set<Span> {
    match form
    case TabularObjects(headers, _, _) => set n | n in headers
    case TabularArrayStrict(headers, _, _) => set n | n in headers
    case TabularArrayLenient(headers, _) => set n | n in headers
    case NestedFieldGroups(fields, _, _, _) => FieldNames(fields)
    case _ => {}
  }

  predicate FormDelimits(form: Form) {
    !form.EmptyArray? && !form.BlockArray? ==> form.delimiter != QUOTE
  }

  lemma {:induction false} ChooseNames(d: Document, shape: Shape, i: nat)
    requires d.At(i) && Delimits(shape)
    ensures Choose(d, shape, i).Ok? ==>
      FormNames(Choose(d, shape, i).value.form) == ShapeNames(shape) && FormDelimits(Choose(d, shape, i).value.form)
    ensures ChooseRoot(d, shape, i).Ok? ==>
      FormNames(ChooseRoot(d, shape, i).value.form) == ShapeNames(shape) && FormDelimits(ChooseRoot(d, shape, i).value.form)
  {
  }

  lemma {:induction false} RowFits(d: Document, form: Form, i: nat)
    requires d.At(i) && form.HasRows() && FormDelimits(form)
    ensures var r := ReadRow(d, form, i); r.Ok? ==> Fitting(d, FormNames(form), r.value.nodes, i, r.value.next)
  {
    hide Fitting, ReadFlatRow, ReadBranch, Document.ReadToken, Document.Quote;
    var r := ReadRow(d, form, i);
    var names := FormNames(form);
    if r.Ok? {
      match form
      case TabularObjects(headers, _, delimiter) =>
        var t := d.ReadToken(i, {COLON}).value;
        var key := d.Quote(t.span).value;
        QuotedToken(d, t.span);
        OneToken(d, names, key, i, {COLON});
        Widen(d, names, [key], i, i, t.next, t.next + 1);
        FlatRowFits(d, names, headers, t.next + 1, delimiter, true);
        var row := ReadFlatRow(d, headers, t.next + 1, delimiter, true).value;
        Join(d, names, [key], row.nodes, i, t.next + 1, row.next);
      case TabularArrayStrict(headers, _, delimiter) => FlatRowFits(d, names, headers, i, delimiter, false);
      case NestedFieldGroups(fields, _, _, delimiter) =>
        BranchFits(d, names, fields, 0, Leaves(fields), i, delimiter);
        var row := ReadBranch(d, fields, 0, Leaves(fields), i, delimiter).value;
        Enclose(d, names, true, row.nodes, |fields|, i, row.next);
    }
  }

  lemma {:induction false} RowsFit(d: Document, form: Form, rows: nat, i: nat, ws: nat, indent: nat, floor: Option<nat>)
    requires d.At(i) && form.HasRows() && rows > 0 && FormDelimits(form)
    ensures var r := ReadRows(d, form, rows, i, ws, indent, floor);
      r.Ok? ==> Fitting(d, FormNames(form), r.value.nodes, i, r.value.i)
    decreases rows
  {
    hide Fitting, ReadRow, FormNames, Document.ReadEol;
    var r := ReadRows(d, form, rows, i, ws, indent, floor);
    if r.Ok? {
      RowFits(d, form, i);
      var row := ReadRow(d, form, i).value;
      if rows > 1 {
        var eol := d.ReadEol(row.next, ws, indent, floor, true).value;
        RowsFit(d, form, rows - 1, eol.i, eol.ws, indent, floor);
        var rest := ReadRows(d, form, rows - 1, eol.i, eol.ws, indent, floor).value;
        Widen(d, FormNames(form), row.nodes, i, i, row.next, eol.i);
        Join(d, FormNames(form), row.nodes, rest.nodes, i, eol.i, rest.i);
      }
    }
  }

  lemma {:induction false} AnyRowsFit(d: Document, names: set<Span>, headers: seq<Span>, delimiter: Byte, i: nat, ws: nat, indent: nat, floor: Option<nat>)
    requires d.At(i) && delimiter != QUOTE && forall n :: n in headers ==> n in names
    ensures var r := ReadAnyRows(d, headers, delimiter, i, ws, indent, floor);
      r.Ok? ==> Fitting(d, names, r.value.nodes, i, r.value.i)
    decreases |d.indexes| - i
  {
    hide Fitting, ReadFlatRow, Document.ReadEol;
    var r := ReadAnyRows(d, headers, delimiter, i, ws, indent, floor);
    if r.Ok? {
      FlatRowFits(d, names, headers, i, delimiter, false);
      var row := ReadFlatRow(d, headers, i, delimiter, false).value;
      var eol := d.ReadEol(row.next, ws, indent, floor, true).value;
      Widen(d, names, row.nodes, i, i, row.next, eol.i);
      if eol.state == Sibling {
        AnyRowsFit(d, names, headers, delimiter, eol.i, eol.ws, indent, floor);
        var rest := ReadAnyRows(d, headers, delimiter, eol.i, eol.ws, indent, floor).value;
        Join(d, names, row.nodes, rest.nodes, i, eol.i, rest.i);
      }
    }
  }

  lemma {:induction false} ItemsFit(d: Document, count: nat, i: nat, delimiter: Byte)
    requires d.At(i) && delimiter != QUOTE
    ensures var r := ReadItems(d, count, i, delimiter); r.Ok? ==> Fitting(d, {}, r.value.nodes, i, r.value.next)
    decreases count
  {
    hide Fitting, Document.ReadToken, Document.Infer;
    var r := ReadItems(d, count, i, delimiter);
    if r.Ok? {
      var stops := if count > 1 then {delimiter} else {NEWLINE};
      var t := d.ReadToken(i, stops).value;
      var v := d.Infer(t.span).value;
      InferredToken(d, t.span);
      OneToken(d, {}, v, i, stops);
      if count > 1 {
        Widen(d, {}, [v], i, i, t.next, t.next + 1);
        ItemsFit(d, count - 1, t.next + 1, delimiter);
        var rest := ReadItems(d, count - 1, t.next + 1, delimiter).value;
        Join(d, {}, [v], rest.nodes, i, t.next + 1, rest.next);
      }
    }
  }

  // ----- Containers -----

  /** A rest read from `i` on, some of whose strings may be names read before. */
  ghost predicate RestFits(d: Document, names: set<Span>, r: Rest, i: nat) {
    r.Done? ==> Fitting(d, names, r.nodes, i, r.i)
  }

  lemma {:induction false} NoRest(d: Document, names: set<Span>, i: nat)
    ensures forall e :: RestFits(d, names, Fail(e), i)
  {
  }

  /** Nodes read first, and a rest behind them. */
  lemma {:induction false} Prepended(d: Document, names: set<Span>, nodes: seq<Node>, k: nat, ok: bool, r: Rest, i: nat, j: nat)
    requires Fitting(d, names, nodes, i, j) && RestFits(d, {}, r, j)
    ensures RestFits(d, names, r.Prepend(nodes, k, ok), i)
  {
    hide Fitting;
    if r.Done? {
      MoreNames(d, {}, names, r.nodes, j, r.i);
      Join(d, names, nodes, r.nodes, i, j, r.i);
    }
  }

  lemma {:induction false} ContentsFit(d: Document, form: Form, i: nat, ws: nat, indent: nat, floor: Option<nat>, isRoot: bool)
    requires d.At(i) && FormDelimits(form)
    ensures RestFits(d, FormNames(form), ReadContents(d, form, i, ws, indent, floor, isRoot), i)
    decreases |d.indexes| - i, 2
  {
    hide Fitting, ReadItems, ReadArrayItems, EndOfLine, ReadTable, Grammar.ReadEol;
    var r := ReadContents(d, form, i, ws, indent, floor, isRoot);
    var inside := MemberIndent(d, form, indent, isRoot);
    if r.Done? {
      match form
      case EmptyArray =>
        Nothing(d, {}, i);
        LineFits(d, Nodes([], i), i, 0, ws, inside, floor, false);
      case InlineArray(count, delimiter) =>
        ItemsFit(d, count, i, delimiter);
        var items := ReadItems(d, count, i, delimiter).value;
        LineFits(d, items, i, |items.nodes|, ws, inside, floor, true);
      case BlockArray(count) =>
        var eol := Grammar.ReadEol(d, i, ws, indent, floor).value;
        ArrayItemsFit(d, eol.i, eol.ws, inside, BlockFloor(floor, inside, isRoot), Some(count));
        Widen(d, {}, r.nodes, i, eol.i, r.i, r.i);
      case _ => TableFits(d, form, i, ws, indent, inside, floor);
    }
  }

  lemma {:induction false} LineFits(d: Document, items: Nodes, i: nat, n: nat, ws: nat, indent: nat, floor: Option<nat>, noBlank: bool)
    requires d.At(items.next) && Fitting(d, {}, items.nodes, i, items.next)
    ensures RestFits(d, {}, EndOfLine(d, items, n, ws, indent, floor, noBlank), i)
  {
    hide Document.ReadEol;
    var r := EndOfLine(d, items, n, ws, indent, floor, noBlank);
    if r.Done? {
      Widen(d, {}, items.nodes, i, i, items.next, r.i);
    }
  }

  lemma {:induction false} TableFits(d: Document, form: Form, i: nat, ws: nat, indent: nat, inside: nat, floor: Option<nat>)
    requires d.At(i) && FormDelimits(form) && (form.HasRows() || form.TabularArrayLenient?)
    ensures RestFits(d, FormNames(form), ReadTable(d, form, i, ws, indent, inside, floor), i)
  {
    hide Fitting, Grammar.ReadEol, ReadRows, ReadAnyRows, Document.Next;
    var r := ReadTable(d, form, i, ws, indent, inside, floor);
    if r.Done? {
      NextMoves(d, i);
      var j := d.Next(i).value;
      var eol := Grammar.ReadEol(d, j, ws, indent, floor).value;
      if form.TabularArrayLenient? {
        AnyRowsFit(d, FormNames(form), form.headers, form.delimiter, eol.i, eol.ws, inside, floor);
      } else if RowCount(form) > 0 {
        RowsFit(d, form, RowCount(form), eol.i, eol.ws, inside, floor);
      } else {
        Nothing(d, FormNames(form), eol.i);
      }
      Widen(d, FormNames(form), r.nodes, i, eol.i, r.i, r.i);
    }
  }

  lemma {:induction false} NextMoves(d: Document, i: nat)
    requires d.At(i) && d.Next(i).Ok?
    ensures i < d.Next(i).value && d.At(d.Next(i).value)
  {
  }

  lemma {:induction false} RestNoNames(d: Document, names: set<Span>, r: Rest, i: nat, j: nat)
    requires Fit(d, names, i, j) && RestFits(d, names, r, j)
    ensures RestFits(d, {}, r, i)
  {
    if r.Done? {
      NoNames(d, names, r.nodes, i, j, r.i);
    }
  }

  lemma {:induction false} RestWiden(d: Document, names: set<Span>, r: Rest, i: nat, j: nat)
    requires d.At(i) && i <= j && RestFits(d, names, r, j)
    ensures RestFits(d, names, r, i)
  {
    if r.Done? {
      Widen(d, names, r.nodes, i, j, r.i, r.i);
    }
  }

  lemma {:induction false} RestTaint(d: Document, names: set<Span>, r: Rest, i: nat, k: nat, ok: bool)
    requires RestFits(d, names, r, i)
    ensures RestFits(d, names, r.Prepend([], k, ok), i)
  {
    if r.Done? {
      assert [] + r.nodes == r.nodes;
    }
  }

  lemma {:induction false} ReadOnFits(d: Document, keyed: bool, i: nat, ws: nat, indent: nat, floor: Option<nat>, room: Option<int>)
    requires d.At(i)
    ensures RestFits(d, {}, ReadOn(d, keyed, i, ws, indent, floor, room), i)
    decreases |d.indexes| - i, 1
  {
    hide Fitting, ReadFieldsOf, ReadArrayItems, Document.ReadEol, Measured;
    if keyed || i < |d.indexes| {
      var eol := if d.Char(i) == NEWLINE then d.ReadEol(i, ws, indent, floor, false) else Measured(d, i, ws, indent);
      if eol.Ok? {
        Nothing(d, {}, eol.value.i);
        Widen(d, {}, [], i, eol.value.i, eol.value.i, eol.value.i);
        if eol.value.state == Sibling {
          if keyed {
            FieldsOfFit(d, eol.value.i, eol.value.ws, indent, floor);
            RestWiden(d, {}, ReadFieldsOf(d, eol.value.i, eol.value.ws, indent, floor), i, eol.value.i);
          } else {
            ArrayItemsFit(d, eol.value.i, eol.value.ws, indent, floor, room);
            RestWiden(d, {}, ReadArrayItems(d, eol.value.i, eol.value.ws, indent, floor, room), i, eol.value.i);
          }
        }
      }
    } else {
      Nothing(d, {}, i);
    }
  }

  lemma {:induction false} KeyFits(d: Document, form: Form, key: Option<Span>, i: nat)
    requires d.At(i)
    ensures ReadKey(d, form, key, i).Ok? ==>
      var k := ReadKey(d, form, key, i).value; Fitting(d, KeyNames(key), k.nodes, i, k.next)
  {
    hide Fitting, Document.Quote;
    if ReadKey(d, form, key, i).Ok? {
      var k := ReadKey(d, form, key, i).value;
      if key.Some? {
        QuotedToken(d, key.value);
        One(d, {key.value}, k.nodes[0], i);
        assert k.nodes == [k.nodes[0]];
      } else {
        Nothing(d, {}, i);
      }
      Widen(d, KeyNames(key), k.nodes, i, i, i, k.next);
    }
  }

  lemma {:induction false} DeclaredFits(d: Document, form: Form, key: Option<Span>, i: nat, ws: nat, indent: nat, floor: Option<nat>, room: Option<int>)
    requires d.At(i) && FormDelimits(form)
    ensures RestFits(d, KeyNames(key) + FormNames(form), ReadDeclared(d, form, key, i, ws, indent, floor, room), i)
    decreases |d.indexes| - i, 3
  {
    hide Fitting, ReadContents, ReadOn, ReadKey, FormNames, KeyNames;
    var names := KeyNames(key) + FormNames(form);
    var r := ReadDeclared(d, form, key, i, ws, indent, floor, room);
    if r.Done? {
      var k := ReadKey(d, form, key, i).value;
      KeyFits(d, form, key, i);
      MoreNames(d, KeyNames(key), names, k.nodes, i, k.next);
      ContentsFit(d, form, k.next, ws, indent, floor, false);
      var inner := ReadContents(d, form, k.next, ws, indent, floor, false);
      MoreNames(d, FormNames(form), names, inner.nodes, k.next, inner.i);
      Enclose(d, names, form.IsObject(), inner.nodes, inner.n, k.next, inner.i);
      var chunk := Closed(form.IsObject(), inner.nodes, inner.n);
      Join(d, names, k.nodes, chunk, i, k.next, inner.i);
      ReadOnFits(d, key.Some?, inner.i, inner.ws, indent, floor, room);
      Prepended(d, names, k.nodes + chunk, |k.nodes|, inner.clean,
        ReadOn(d, key.Some?, inner.i, inner.ws, indent, floor, room), i, inner.i);
    }
  }

  lemma {:induction false} FieldsOfFit(d: Document, i: nat, ws: nat, indent: nat, floor: Option<nat>)
    requires d.At(i) && ws == indent
    ensures RestFits(d, {}, ReadFieldsOf(d, i, ws, indent, floor), i)
    decreases |d.indexes| - i, 0
  {
    hide Fitting, Fit, ReadDeclared, ReadPair, Document.ReadHeader, Choose, FormNames, ShapeNames, FormDelimits, Delimits;
    NoRest(d, {}, i);
    HeaderFits(d, i);
    if d.ReadHeader(i).Ok? {
      var line := d.ReadHeader(i).value;
      match line.header {
        case ObjectStart(name) =>
          PairFits(d, name, line.next, ws, indent, floor);
          RestNoNames(d, {name}, ReadPair(d, name, line.next, ws, indent, floor), i, line.next);
        case Declared(key, shape) =>
          ChooseNames(d, shape, line.next);
          if Choose(d, shape, line.next).Ok? {
            var c := Choose(d, shape, line.next).value;
            DeclaredFits(d, c.form, key, c.next, ws, indent, floor, None);
            var r := ReadDeclared(d, c.form, key, c.next, ws, indent, floor, None);
            RestWiden(d, HeaderNames(line.header), r, line.next, c.next);
            RestNoNames(d, HeaderNames(line.header), r, i, line.next);
            RestTaint(d, {}, r, i, 0, key.Some?);
          }
        case _ =>
      }
    }
  }

  lemma {:induction false} PairFits(d: Document, name: Span, i: nat, ws: nat, indent: nat, floor: Option<nat>)
    requires d.At(i)
    ensures RestFits(d, {name}, ReadPair(d, name, i, ws, indent, floor), i)
    decreases |d.indexes| - i, 0
  {
    hide Fitting, ReadPairValue, Document.Quote;
    NoRest(d, {name}, i);
    if d.Quote(name).Ok? && d.Next(i).Ok? {
      var key := d.Quote(name).value;
      QuotedToken(d, name);
      One(d, {name}, key, i);
      Widen(d, {name}, [key], i, i, i, i + 1);
      PairValueFits(d, i + 1, ws, indent, floor);
      Prepended(d, {name}, [key], 1, true, ReadPairValue(d, i + 1, ws, indent, floor), i, i + 1);
    }
  }

  lemma {:induction false} PairValueFits(d: Document, i: nat, ws: nat, indent: nat, floor: Option<nat>)
    requires d.At(i)
    ensures RestFits(d, {}, ReadPairValue(d, i, ws, indent, floor), i)
    decreases |d.indexes| - i, 1
  {
    hide Fitting, ReadValueBelow, ReadValueBeside, RestFits;
    if d.Char(i) == NEWLINE {
      ValueBelowFits(d, i, ws, indent, floor);
    } else {
      ValueBesideFits(d, i, ws, indent, floor);
    }
  }

  lemma {:induction false} ValueBelowFits(d: Document, i: nat, ws: nat, indent: nat, floor: Option<nat>)
    requires d.At(i)
    ensures RestFits(d, {}, ReadValueBelow(d, i, ws, indent, floor), i)
    decreases |d.indexes| - i, 0
  {
    hide Fitting, ReadFieldsOf, ReadOn, Document.ReadEol;
    One(d, {}, Object(0, 0), i);
    if i < |d.indexes| && d.ReadEol(i, ws, indent, floor, false).Ok? {
      var eol := d.ReadEol(i, ws, indent, floor, false).value;
      match eol.state {
        case Nested =>
          var inner := ReadFieldsOf(d, eol.i, eol.ws, indent + d.indentSize, floor);
          FieldsOfFit(d, eol.i, eol.ws, indent + d.indentSize, floor);
          if inner.Done? {
            RestWiden(d, {}, inner, i, eol.i);
            Enclose(d, {}, true, inner.nodes, inner.n, i, inner.i);
            ReadOnFits(d, true, inner.i, inner.ws, indent, floor, None);
            Prepended(d, {}, Closed(true, inner.nodes, inner.n), 0, inner.clean,
              ReadOn(d, true, inner.i, inner.ws, indent, floor, None), i, inner.i);
          }
        case Sibling =>
          FieldsOfFit(d, eol.i, eol.ws, indent, floor);
          Widen(d, {}, [Object(0, 0)], i, i, i, eol.i);
          Prepended(d, {}, [Object(0, 0)], 0, true, ReadFieldsOf(d, eol.i, eol.ws, indent, floor), i, eol.i);
        case CloseScope =>
          Nothing(d, {}, i);
          Widen(d, {}, [], i, i, i, eol.i);
      }
    }
  }

  lemma {:induction false} ValueBesideFits(d: Document, i: nat, ws: nat, indent: nat, floor: Option<nat>)
    requires d.At(i)
    ensures RestFits(d, {}, ReadValueBeside(d, i, ws, indent, floor), i)
    decreases |d.indexes| - i, 0
  {
    hide Fitting, ReadFieldsOf, Document.ReadToken, Document.Infer, Document.ReadEol;
    if d.ReadToken(i, {NEWLINE}).Ok? {
      var t := d.ReadToken(i, {NEWLINE}).value;
      if InferValue(d, t.span).Ok? {
        var v := InferValue(d, t.span).value;
        InferredToken(d, t.span);
        OneToken(d, {}, v, i, {NEWLINE});
        if t.next < |d.indexes| && d.ReadEol(t.next, ws, indent, floor, false).Ok? {
          var eol := d.ReadEol(t.next, ws, indent, floor, false).value;
          Widen(d, {}, [v], i, i, t.next, eol.i);
          if eol.state == Sibling {
            FieldsOfFit(d, eol.i, eol.ws, indent, floor);
            Prepended(d, {}, [v], 0, true, ReadFieldsOf(d, eol.i, eol.ws, indent, floor), i, eol.i);
          }
        }
      }
    }
  }

  lemma {:induction false} ArrayItemsFit(d: Document, i: nat, ws: nat, indent: nat, floor: Option<nat>, room: Option<int>)
    requires d.At(i) && ws == indent
    ensures RestFits(d, {}, ReadArrayItems(d, i, ws, indent, floor, room), i)
    decreases |d.indexes| - i, 0
  {
    hide Fitting, Fit, RestFits, ReadItem, Document.ReadHeader, HeaderNames;
    NoRest(d, {}, i);
    if d.Next(i).Ok? && d.ReadHeader(i + 1).Ok? {
      var left := if room.Some? then Some(room.value - 1) else None;
      var line := d.ReadHeader(i + 1).value;
      HeaderFits(d, i + 1);
      ItemFits(d, line.header, line.next, ws, indent, floor, left);
      var r := ReadItem(d, line.header, line.next, ws, indent, floor, left);
      RestNoNames(d, HeaderNames(line.header), r, i + 1, line.next);
      RestWiden(d, {}, r, i, i + 1);
    }
  }

  lemma {:induction false} ItemFits(d: Document, header: Header, i: nat, ws: nat, indent: nat, floor: Option<nat>, left: Option<int>)
    requires d.At(i) && (header.PrimitiveValue? ==> d.Spans(header.val)) && (header.Declared? ==> Delimits(header.shape))
    ensures RestFits(d, HeaderNames(header), ReadItem(d, header, i, ws, indent, floor, left), i)
    decreases |d.indexes| - i, 4
  {
    hide Fitting, RestFits, ReadPair, ReadDeclared, Document.Infer, Choose, FormNames, ShapeNames, FormDelimits, Delimits,
      NextItem, EndItem;
    NoRest(d, HeaderNames(header), i);
    match header {
      case PrimitiveValue(val) =>
        if d.Infer(val).Ok? {
          InferredToken(d, val);
          NextItemFits(d, {val}, d.Infer(val).value, i, ws, indent, floor, left);
        }
      case EmptyObject => NextItemFits(d, {}, Object(0, 0), i, ws, indent, floor, left);
      case ObjectStart(name) =>
        PairFits(d, name, i, ws, indent + 2, floor);
        EndItemFits(d, {name}, ReadPair(d, name, i, ws, indent + 2, floor), i, indent, floor, left);
      case Declared(key, shape) =>
        ChooseNames(d, shape, i);
        if Choose(d, shape, i).Ok? {
          DeclaredItemFits(d, key, shape, i, ws, indent, floor, left);
        }
    }
  }

  lemma {:induction false} DeclaredItemFits(d: Document, key: Option<Span>, shape: Shape, i: nat, ws: nat, indent: nat, floor: Option<nat>, left: Option<int>)
    requires d.At(i) && Delimits(shape) && Choose(d, shape, i).Ok?
    ensures RestFits(d, KeyNames(key) + ShapeNames(shape), ReadItem(d, Declared(key, shape), i, ws, indent, floor, left), i)
    decreases |d.indexes| - i, 4, 0
  {
    hide Fitting, RestFits, ReadDeclared, Choose, FormNames, ShapeNames, FormDelimits, Delimits, EndItem, KeyNames;
    ChooseNames(d, shape, i);
    var c := Choose(d, shape, i).value;
    var names := KeyNames(key) + ShapeNames(shape);
    if key.Some? {
      var inner := ReadDeclared(d, c.form, key, c.next, ws, indent + d.indentSize, floor, None);
      DeclaredFits(d, c.form, key, c.next, ws, indent + d.indentSize, floor, None);
      RestWiden(d, names, inner, i, c.next);
      EndItemFits(d, names, inner, i, indent, floor, left);
    } else {
      var inner := ReadDeclared(d, c.form, key, c.next, ws, indent, floor, left);
      DeclaredFits(d, c.form, key, c.next, ws, indent, floor, left);
      RestWiden(d, names, inner, i, c.next);
      RestTaint(d, names, inner, i, 1, true);
    }
  }

  lemma {:induction false} NextItemFits(d: Document, names: set<Span>, item: Node, i: nat, ws: nat, indent: nat, floor: Option<nat>, left: Option<int>)
    requires d.At(i) && (item.String? ==> item.text.token in names) && Honest(d, item)
    ensures RestFits(d, names, NextItem(d, item, i, ws, indent, floor, left), i)
    decreases |d.indexes| - i, 0
  {
    hide Fitting, ReadArrayItems, Document.ReadEol;
    if d.ReadEol(i, ws, indent, floor, false).Ok? {
      var eol := d.ReadEol(i, ws, indent, floor, false).value;
      One(d, names, item, i);
      Widen(d, names, [item], i, i, i, eol.i);
      if eol.state == Sibling {
        ArrayItemsFit(d, eol.i, eol.ws, indent, floor, left);
        Prepended(d, names, [item], 1, true, ReadArrayItems(d, eol.i, eol.ws, indent, floor, left), i, eol.i);
      }
    }
  }

  lemma {:induction false} EndItemFits(d: Document, names: set<Span>, inner: Rest, i: nat, indent: nat, floor: Option<nat>, left: Option<int>)
    requires d.At(i) && (inner.Done? ==> d.At(inner.i)) && RestFits(d, names, inner, i)
    ensures RestFits(d, names, EndItem(d, inner, indent, floor, left), i)
    decreases if inner.Done? then |d.indexes| - inner.i else 0, 2
  {
    hide Fitting, ReadOn;
    if inner.Done? {
      Enclose(d, names, true, inner.nodes, inner.n, i, inner.i);
      ReadOnFits(d, false, inner.i, inner.ws, indent, floor, left);
      Prepended(d, names, Closed(true, inner.nodes, inner.n), 1, inner.clean,
        ReadOn(d, false, inner.i, inner.ws, indent, floor, left), i, inner.i);
    }
  }

  // ----- Documents -----

  lemma {:induction false} RootFits(d: Document, isObject: bool, r: Rest, i: nat)
    requires d.At(i) && (r.Done? ==> d.At(r.i)) && RestFits(d, {}, r, i)
    ensures var p := CloseRoot(d, isObject, r); p.Ok? ==> Fitting(d, {}, p.value.tape, i, r.i)
  {
    if r.Done? {
      Enclose(d, {}, isObject, r.nodes, r.n, i, r.i);
    }
  }

  lemma {:induction false} HeadedFits(d: Document, i: nat)
    requires d.At(i) && d.ReadHeader(i).Ok? && d.ReadHeader(i).value.header.Declared?
    ensures var line := d.ReadHeader(i).value;
      var c := ChooseRoot(d, line.header.shape, line.next);
      c.Ok? ==>
        && RestFits(d, {}, ReadDeclared(d, c.value.form, line.header.key, c.value.next, 0, 0, None, None), i)
        && RestFits(d, {}, ReadRoot(d, c.value.form, c.value.next, 0, 0, None), i)
  {
    hide Fitting, Fit, RestFits, ReadDeclared, ReadContents, Document.ReadHeader, ChooseRoot, FormNames, ShapeNames, FormDelimits, Delimits, ReadKey;
    HeaderFits(d, i);
    var line := d.ReadHeader(i).value;
    var names := HeaderNames(line.header);
    ChooseNames(d, line.header.shape, line.next);
    if ChooseRoot(d, line.header.shape, line.next).Ok? {
      var c := ChooseRoot(d, line.header.shape, line.next).value;
      var keyed := ReadDeclared(d, c.form, line.header.key, c.next, 0, 0, None, None);
      DeclaredFits(d, c.form, line.header.key, c.next, 0, 0, None, None);
      RestWiden(d, names, keyed, line.next, c.next);
      RestNoNames(d, names, keyed, i, line.next);
      NoRest(d, {}, i);
      if ReadKey(d, c.form, None, c.next).Ok? {
        var k := ReadKey(d, c.form, None, c.next).value;
        var root := ReadContents(d, c.form, k.next, 0, 0, None, true);
        ContentsFit(d, c.form, k.next, 0, 0, None, true);
        RestWiden(d, FormNames(c.form), root, line.next, k.next);
        RestMoreNames(d, FormNames(c.form), names, root, line.next);
        RestNoNames(d, names, root, i, line.next);
      }
    }
  }

  lemma {:induction false} RestMoreNames(d: Document, names: set<Span>, more: set<Span>, r: Rest, i: nat)
    requires names <= more && RestFits(d, names, r, i)
    ensures RestFits(d, more, r, i)
  {
    if r.Done? {
      MoreNames(d, names, more, r.nodes, i, r.i);
    }
  }

  /**
   * Every string of a tape holds what one token of the input decodes to, and any two of them come from the same token
   * or from tokens that lie one behind the other.
   */
  lemma {:induction false} TapeTokens(d: Document)
    requires d.Valid() && Parse(d).Ok?
    ensures var tape := Parse(d).value.tape;
      && (forall k :: 0 <= k < |tape| ==> Honest(d, tape[k]))
      && (forall k :: 0 <= k < |tape| && tape[k].String? ==> IsToken(d, tape[k].text.token))
      && forall k, l :: 0 <= k < |tape| && 0 <= l < |tape| && tape[k].String? && tape[l].String? ==>
           Apart(tape[k].text.token, tape[l].text.token)
  {
    hide Document.ReadHeader, Start, ReadPair, ReadDeclared, ReadRoot, ChooseRoot, Document.Infer, IsToken, Apart, Fit, Honest;
    var tape := Parse(d).value.tape;
    var i := Start(d).value;
    var line := d.ReadHeader(i).value;
    HeaderFits(d, i);
    var j: nat;
    match line.header {
      case PrimitiveValue(val) =>
        InferredToken(d, val);
        One(d, {val}, tape[0], line.next);
        NoNames(d, {val}, tape, i, line.next, line.next);
        j := line.next;
      case ObjectStart(name) =>
        var r := ReadPair(d, name, line.next, 0, 0, None);
        PairFits(d, name, line.next, 0, 0, None);
        RestNoNames(d, {name}, r, i, line.next);
        RootFits(d, true, r, i);
        j := r.i;
      case Declared(key, shape) =>
        HeadedFits(d, i);
        var c := ChooseRoot(d, shape, line.next).value;
        var r := if key.Some? then ReadDeclared(d, c.form, key, c.next, 0, 0, None, None) else ReadRoot(d, c.form, c.next, 0, 0, None);
        RootFits(d, key.Some? || c.form.IsObject(), r, i);
        j := r.i;
    }
    Spread(d, tape, i, j);
  }

  lemma {:induction false} Spread(d: Document, tape: seq<Node>, i: nat, j: nat)
    requires Fitting(d, {}, tape, i, j)
    ensures forall k :: 0 <= k < |tape| ==> Honest(d, tape[k])
    ensures forall k :: 0 <= k < |tape| && tape[k].String? ==> IsToken(d, tape[k].text.token)
    ensures forall k, l :: 0 <= k < |tape| && 0 <= l < |tape| && tape[k].String? && tape[l].String? ==>
      Apart(tape[k].text.token, tape[l].text.token)
  {
    hide IsToken, Apart, Honest;
    assert forall k :: 0 <= k < |tape| && tape[k].String? ==> tape[k].text.token in SpansOf(tape) - {};
  }
}
