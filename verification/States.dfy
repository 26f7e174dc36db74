/**
 * What is left to read in each state of the machine, and the laws by which one step of the machine leaves the
 * finished document unchanged.
 */
module States {
  import opened Common
  import opened Tape
  import opened Layout
  import opened Grammar
  import opened Spines
  import opened Nesting

  /** The states of `build_tape`; the seven states that parse a declared container differ in their form only. */
  datatype State =
    | ScopeEnd
    | ParseHeader
    | ParseSimpleObjectValue
    | ExpectBlockArrayItem
    | ParseDeclared(form: Form, key: Option<Span>, isRoot: bool)

  function Rank(state: State): nat {
    if state.ScopeEnd? then 0 else 1
  }

  /** Between two lines of a container, exactly the arrays have a declared count to meet. */
  predicate Settled(level: Level) { level.isObject <==> level.expected.None? }

  /** A saved tag tells keys from items, and it is the container's kind unless a member of it was unsound. */
  predicate Tagged(o: Outer) {
    o.Frame? ==>
      && (o.keyed ==> o.level.isObject)
      && (!o.keyed && o.level.clean ==> !o.level.isObject)
      && Settled(o.level)
      && Tagged(o.below)
  }

  /** What each state may rely on. `c` is the current byte and `ws` the last measured indentation. */
  predicate Suits(state: State, s: Spine, base: seq<nat>, c: Byte, ws: nat) {
    && Tagged(s.outer)
    && (base != [] ==> Pending(s.All()) != [] || (s.outer.Nil? && state.ScopeEnd?))
    && match state
       case ScopeEnd => true
       case ParseHeader => s.top.isObject && s.top.expected.None? && ws == s.top.indent
       case ParseSimpleObjectValue => s.top.isObject && s.top.expected.None?
       case ExpectBlockArrayItem => (s.top.clean ==> !s.top.isObject) && Settled(s.top) && ws == s.top.indent
       case ParseDeclared(form, key, isRoot) =>
         && form.Counted()
         && (form.BlockArray? ==> c == NEWLINE)
         && (form.InlineArray? ==> c != NEWLINE)
         && (key.Some? ==> s.top.isObject && s.top.expected.None?)
         && (key.None? && !isRoot ==> Settled(s.top) && (s.top.clean ==> !s.top.isObject))
         && (isRoot ==> key.None? && s == Spine(Fresh(form.IsObject(), 0), Nil) && base == [])
  }

  ghost predicate EndsOnNewline(d: Document) {
    d.At(|d.indexes|) && d.Char(|d.indexes|) == NEWLINE
  }

  /** The cursor is on the first token of a line, and `ws` was measured at the line break in front of it. */
  ghost predicate AtLine(d: Document, i: nat, ws: nat) {
    EndsOnNewline(d) ==>
      && d.At(i) && i >= 2
      && d.Char(i - 1) == NEWLINE && d.Char(i) != NEWLINE
      && ws == d.Pos(i) - d.Pos(i - 1) - 1
  }

  /** A scope ends on a line break, or on a line whose indentation has been measured. */
  ghost predicate BreakOrLine(d: Document, i: nat, ws: nat)
    requires d.At(i)
  {
    d.Char(i) == NEWLINE || AtLine(d, i, ws)
  }

  /** What each state knows of the line the cursor is on. */
  ghost predicate LineKnown(d: Document, state: State, i: nat, ws: nat)
    requires d.At(i)
  {
    match state
    case ParseHeader => AtLine(d, i, ws)
    case ExpectBlockArrayItem => AtLine(d, i, ws)
    case ScopeEnd => BreakOrLine(d, i, ws)
    case _ => true
  }

  /** A line break that has been read leaves the cursor on a line, or on the newline that ends the document. */
  lemma {:induction false} EolMeasures(d: Document, i: nat, ws: nat, indent: nat, floor: Option<nat>, noBlank: bool)
    requires d.At(i) && d.ReadEol(i, ws, indent, floor, noBlank).Ok?
    ensures var eol := d.ReadEol(i, ws, indent, floor, noBlank).value;
      BreakOrLine(d, eol.i, eol.ws) && (eol.state != CloseScope ==> AtLine(d, eol.i, eol.ws))
  {
  }

  /**
   * A key that ends its line with nothing of its own below: the next line that is not blank is further out than
   * `indent`, or there is none.
   */
  predicate BareKey(d: Document, i: nat, indent: nat)
    requires d.At(i)
  {
    && d.Char(i) == NEWLINE && i < |d.indexes|
    && var (last, j) := d.SkipBlank(i);
       j == |d.indexes| || d.Pos(j) - d.Pos(last) - 1 < indent
  }

  /** A line of an object that starts with the `[` of a header. */
  predicate UnkeyedLine(d: Document, i: nat)
    requires d.At(i)
  {
    match d.ReadHeader(i)
    case Ok(line) => line.header.Declared? && line.header.key.None?
    case Err(_) => false
  }

  /** The two kinds of line after which the tape is not well formed, met at `i` inside of `indent`. */
  predicate Spoils(d: Document, state: State, i: nat, indent: nat)
    requires d.At(i)
  {
    match state
    case ParseHeader => UnkeyedLine(d, i)
    case ParseSimpleObjectValue => BareKey(d, i, indent)
    case _ => false
  }

  /** The line break behind a key closes the scope exactly behind a bare key, unless the document ends there. */
  lemma {:induction false} BareNewline(d: Document, i: nat, ws: nat, indent: nat, floor: Option<nat>)
    requires d.At(i) && d.Char(i) == NEWLINE
    ensures i == |d.indexes| ==> !BareKey(d, i, indent)
    ensures i < |d.indexes| && d.ReadEol(i, ws, indent, floor, false).Ok? ==>
      (d.ReadEol(i, ws, indent, floor, false).value.state == CloseScope <==> BareKey(d, i, indent))
  {
  }

  /** Structurals that a state has read beyond one for each open container. */
  function Spare(state: State): nat {
    if state.ParseDeclared? then 2 + FormNest(state.form) else 0
  }

  /** The rest of the current container as the grammar reads it from here. */
  ghost function Remaining(d: Document, state: State, s: Spine, base: seq<nat>, i: nat, ws: nat): (r: Rest)
    requires d.At(i) && Suits(state, s, base, d.Char(i), ws)
    ensures Within(d, r)
  {
    var floor := Floor(base, s.top, s.outer);
    match state
    case ScopeEnd => Done([], 0, i, ws, true)
    case ParseHeader => ReadFieldsOf(d, i, ws, s.top.indent, floor)
    case ParseSimpleObjectValue => ReadPairValue(d, i, ws, s.top.indent, floor)
    case ExpectBlockArrayItem => ReadArrayItems(d, i, ws, s.top.indent, floor, s.top.Room())
    case ParseDeclared(form, key, isRoot) =>
      if isRoot then ReadRoot(d, form, i, ws, s.top.indent, floor)
      else ReadDeclared(d, form, key, i, ws, s.top.indent, floor, s.top.Room())
  }

  // ----- The grammar, one line at a time -----

  lemma {:induction false} PairStep(d: Document, name: Span, i: nat, ws: nat, indent: nat, floor: Option<nat>)
    requires d.At(i)
    ensures ReadPair(d, name, i, ws, indent, floor)
         == match d.Quote(name)
            case Err(e) => Fail(e)
            case Ok(key) =>
              match d.Next(i)
              case Err(e) => Fail(e)
              case Ok(j) => ReadPairValue(d, j, ws, indent, floor).Prepend([key], 1, true)
  {
    hide ReadPairValue;
  }

  lemma {:induction false} FieldsStep(d: Document, i: nat, ws: nat, indent: nat, floor: Option<nat>)
    requires d.At(i) && ws == indent
    ensures ReadFieldsOf(d, i, ws, indent, floor)
         == match d.ReadHeader(i)
            case Err(e) => Fail(e)
            case Ok(line) =>
              match line.header
              case ObjectStart(name) => ReadPair(d, name, line.next, ws, indent, floor)
              case Declared(key, shape) =>
                (match Choose(d, shape, line.next)
                 case Err(e) => Fail(e)
                 case Ok(c) => ReadDeclared(d, c.form, key, c.next, ws, indent, floor, None).Prepend([], 0, key.Some?))
              case _ => Fail(NoStructure)
  {
    hide ReadPair, ReadDeclared;
  }

  ghost function FloorOf(base: seq<nat>, s: Spine): Option<nat> {
    Floor(base, s.top, s.outer)
  }

  /** A value on the lines below its key, or none. */
  lemma {:induction false} PairBelow(d: Document, base: seq<nat>, s: Spine, i: nat, ws: nat)
    requires d.At(i) && d.Char(i) == NEWLINE && i < |d.indexes| && s.top.expected.None?
    ensures ReadPairValue(d, i, ws, s.top.indent, FloorOf(base, s))
         == match d.ReadEol(i, ws, s.top.indent, FloorOf(base, s), false)
            case Err(e) => Fail(e)
            case Ok(eol) =>
              match eol.state
              case Nested =>
                Resume(d, base, s.top, true, s.outer, true,
                       ReadFieldsOf(d, eol.i, eol.ws, s.top.indent + d.indentSize, FloorOf(base, s)))
              case Sibling => ReadFieldsOf(d, eol.i, eol.ws, s.top.indent, FloorOf(base, s)).Prepend([Object(0, 0)], 0, true)
              case CloseScope => Done([], 0, eol.i, eol.ws, false)
  {
    hide ReadFieldsOf, ReadOn, Floor, Document.ReadEol;
  }

  /** A key that ends the document. */
  lemma {:induction false} PairLast(d: Document, ws: nat, indent: nat, floor: Option<nat>)
    requires d.At(|d.indexes|) && d.Char(|d.indexes|) == NEWLINE
    ensures ReadPairValue(d, |d.indexes|, ws, indent, floor)
         == Done([], 0, |d.indexes|, ws, true).Prepend([Object(0, 0)], 0, true)
  {
    assert [Object(0, 0)] + [] == [Object(0, 0)];
  }

  /** A value on the line of its key. */
  lemma {:induction false} PairInline(d: Document, i: nat, ws: nat, indent: nat, floor: Option<nat>)
    requires d.At(i) && d.Char(i) != NEWLINE
    ensures ReadPairValue(d, i, ws, indent, floor)
         == match d.ReadToken(i, {NEWLINE})
            case Err(e) => Fail(e)
            case Ok(t) =>
              match InferValue(d, t.span)
              case Err(e) => Fail(e)
              case Ok(v) => PairEnd(d, t.next, ws, indent, floor).Prepend([v], 0, true)
  {
    hide ReadFieldsOf, Document.ReadEol, Document.ReadToken, InferValue;
    if d.ReadToken(i, {NEWLINE}).Ok? {
      var t := d.ReadToken(i, {NEWLINE}).value;
      if InferValue(d, t.span).Ok? {
        assert [InferValue(d, t.span).value] + [] == [InferValue(d, t.span).value];
      }
    }
  }

  /** What follows a value on the line of its key. */
  ghost function PairEnd(d: Document, i: nat, ws: nat, indent: nat, floor: Option<nat>): Rest
    requires d.At(i)
  {
    if i == |d.indexes| then Done([], 0, i, ws, true)
    else match d.ReadEol(i, ws, indent, floor, false)
      case Err(e) => Fail(e)
      case Ok(eol) =>
        match eol.state
        case Sibling => ReadFieldsOf(d, eol.i, eol.ws, indent, floor)
        case CloseScope => Done([], 0, eol.i, eol.ws, true)
        case Nested => Fail(NoStructure)
  }

  /** Opening a container changes neither the floor nor the pending counts. */
  lemma OpenKeeps(base: seq<nat>, s: Spine, isObject: bool, keyed: bool, indent: nat)
    ensures FloorOf(base, s.Open(isObject, keyed, indent)) == FloorOf(base, s)
    ensures Pending(s.Open(isObject, keyed, indent).All()) == Pending(s.All())
    ensures Tagged(s.outer) && Settled(s.top)
        && (keyed ==> s.top.isObject)
        && (!keyed && s.top.clean ==> !s.top.isObject)
        ==> Tagged(s.Open(isObject, keyed, indent).outer)
  {
  }

  lemma {:induction false} ArrayItemsStep(d: Document, i: nat, ws: nat, indent: nat, floor: Option<nat>, room: Option<int>)
    requires d.At(i) && ws == indent
    ensures ReadArrayItems(d, i, ws, indent, floor, room)
         == if d.Char(i) != HYPHEN then Fail(ExpectedArray)
            else if d.strict && room.Some? && room.value <= 0 then Fail(Syntax)
            else
              match d.Next(i)
              case Err(e) => Fail(e)
              case Ok(j) =>
                match d.ReadHeader(j)
                case Err(e) => Fail(e)
                case Ok(line) =>
                  ReadItem(d, line.header, line.next, ws, indent, floor, if room.Some? then Some(room.value - 1) else None)
  {
    hide ReadItem;
  }

  /** What follows an item on one line. */
  ghost function ItemEnd(d: Document, i: nat, ws: nat, indent: nat, floor: Option<nat>, left: Option<int>): Rest
    requires d.At(i)
  {
    match d.ReadEol(i, ws, indent, floor, false)
    case Err(e) => Fail(e)
    case Ok(eol) =>
      match eol.state
      case Sibling => ReadArrayItems(d, eol.i, eol.ws, indent, floor, left)
      case CloseScope => Done([], 0, eol.i, eol.ws, true)
      case Nested => Fail(NoStructure)
  }

  lemma {:induction false} NextItemStep(d: Document, item: Node, i: nat, ws: nat, indent: nat, floor: Option<nat>, left: Option<int>)
    requires d.At(i)
    ensures NextItem(d, item, i, ws, indent, floor, left)
         == ItemEnd(d, i, ws, indent, floor, left).Prepend([item], 1, true)
  {
    hide ReadArrayItems, Document.ReadEol;
    assert [item] + [] == [item];
  }

  /** An item that opens an object: the array goes on behind the object. */
  lemma {:induction false} EndItemStep(d: Document, base: seq<nat>, s: Spine, inner: Rest)
    requires Within(d, inner)
    ensures EndItem(d, inner, s.top.indent, FloorOf(base, s), s.top.Add([], 1).Room())
         == Resume(d, base, s.top.Add([], 1), false, s.outer, true, inner).Prepend([], 1, true)
  {
    hide ReadOn;
    assert Floor(base, s.top.Add([], 1), s.outer) == FloorOf(base, s);
    var r := Resume(d, base, s.top.Add([], 1), false, s.outer, true, inner);
    if r.Done? {
      assert [] + r.nodes == r.nodes;
    }
  }

  /** A declared container from behind its key on: inside the root, or as a member that is resumed behind it. */
  ghost function Inside(d: Document, base: seq<nat>, s: Spine, form: Form, keyed: bool, isRoot: bool, r: Rest): (q: Rest)
    requires Within(d, r)
    ensures Within(d, q) && (r.Fail? ==> q == r)
  {
    if isRoot then r else Resume(d, base, s.top, keyed, s.outer, form.IsObject(), r)
  }

  lemma {:induction false} DeclaredStep(d: Document, base: seq<nat>, s: Spine, form: Form, key: Option<Span>, isRoot: bool, i: nat, ws: nat)
    requires d.At(i) && (key.Some? ==> s.top.expected.None?) && (isRoot ==> key.None?)
    ensures (if isRoot then ReadRoot(d, form, i, ws, s.top.indent, FloorOf(base, s))
             else ReadDeclared(d, form, key, i, ws, s.top.indent, FloorOf(base, s), s.top.Room()))
         == match ReadKey(d, form, key, i)
            case Err(e) => Fail(e)
            case Ok(k) =>
              Inside(d, base, s.Add(k.nodes, |k.nodes|), form, key.Some?, isRoot,
                     ReadContents(d, form, k.next, ws, s.top.indent, FloorOf(base, s), isRoot))
                .Prepend(k.nodes, |k.nodes|, true)
  {
    hide ReadContents, ReadOn, Inside, Floor, ReadDeclared, ReadRoot;
    if isRoot {
      RootStep(d, base, s, form, i, ws);
    } else {
      KeyedStep(d, base, s, form, key, i, ws);
    }
  }

  lemma {:induction false} RootStep(d: Document, base: seq<nat>, s: Spine, form: Form, i: nat, ws: nat)
    requires d.At(i)
    ensures ReadRoot(d, form, i, ws, s.top.indent, FloorOf(base, s))
         == match ReadKey(d, form, None, i)
            case Err(e) => Fail(e)
            case Ok(k) =>
              Inside(d, base, s.Add(k.nodes, |k.nodes|), form, false, true,
                     ReadContents(d, form, k.next, ws, s.top.indent, FloorOf(base, s), true))
                .Prepend(k.nodes, |k.nodes|, true)
  {
    hide ReadContents, Floor;
    if ReadKey(d, form, None, i).Ok? {
      var inner := ReadContents(d, form, ReadKey(d, form, None, i).value.next, ws, s.top.indent, FloorOf(base, s), true);
      if inner.Done? {
        assert [] + inner.nodes == inner.nodes;
      }
    }
  }

  lemma {:induction false} KeyedStep(d: Document, base: seq<nat>, s: Spine, form: Form, key: Option<Span>, i: nat, ws: nat)
    requires d.At(i) && (key.Some? ==> s.top.expected.None?)
    ensures ReadDeclared(d, form, key, i, ws, s.top.indent, FloorOf(base, s), s.top.Room())
         == match ReadKey(d, form, key, i)
            case Err(e) => Fail(e)
            case Ok(k) =>
              Inside(d, base, s.Add(k.nodes, |k.nodes|), form, key.Some?, false,
                     ReadContents(d, form, k.next, ws, s.top.indent, FloorOf(base, s), false))
                .Prepend(k.nodes, |k.nodes|, true)
  {
    hide ReadContents, ReadOn, Floor, Resume;
    if ReadKey(d, form, key, i).Ok? {
      var k := ReadKey(d, form, key, i).value;
      var inner := ReadContents(d, form, k.next, ws, s.top.indent, FloorOf(base, s), false);
      ResumeKeyed(d, base, s, form, key.Some?, k.nodes, inner);
    }
  }

  /** What goes on behind a declared container, its key in front of it. */
  lemma {:induction false} ResumeKeyed(d: Document, base: seq<nat>, s: Spine, form: Form, keyed: bool, k: seq<Node>, inner: Rest)
    requires Within(d, inner) && (keyed ==> s.top.expected.None?) && (!keyed ==> k == [])
    ensures Resume(d, base, s.Add(k, |k|).top, keyed, s.outer, form.IsObject(), inner).Prepend(k, |k|, true)
         == if inner.Fail? then inner
            else
              ReadOn(d, keyed, inner.i, inner.ws, s.top.indent, FloorOf(base, s), s.top.Room())
                .Prepend(k + Closed(form.IsObject(), inner.nodes, inner.n), |k|, inner.clean)
  {
    hide ReadOn;
    assert Floor(base, s.Add(k, |k|).top, s.outer) == FloorOf(base, s);
    assert !keyed ==> s.top.body + [] == s.top.body;
    if inner.Done? {
      var rest := ReadOn(d, keyed, inner.i, inner.ws, s.top.indent, FloorOf(base, s), s.top.Room());
      if rest.Done? {
        assert k + (Closed(form.IsObject(), inner.nodes, inner.n) + rest.nodes)
            == k + Closed(form.IsObject(), inner.nodes, inner.n) + rest.nodes;
      }
    }
  }

  /** The root array's items take their indentation, which leaves everything else as it was. */
  lemma IndentRoot(d: Document, base: seq<nat>, other: seq<nat>, s: Spine, indent: nat, r: Rest)
    requires Within(d, r) && s.outer.Nil? && s.top.expected.None?
    ensures Finish(d, other, s.(top := s.top.(indent := indent)), r) == Finish(d, base, s, r)
    ensures FloorOf(other, s.(top := s.top.(indent := indent))) == FloorOf(base, s)
  {
  }

  /** The container around a closed one is as its tag says. */
  lemma CloseKeeps(s: Spine)
    requires Tagged(s.outer) && s.outer.Frame? && s.top.expected.None?
    ensures var t := s.Close();
      && Pending(t.All()) == Pending(s.All()) && Tagged(t.outer)
      && Settled(t.top)
      && (s.outer.keyed ==> t.top.isObject)
      && (!s.outer.keyed ==> t.top.clean ==> !t.top.isObject)
  {
  }

  lemma {:induction false} TagsAreTagged(o: Outer)
    requires Tagged(o)
    ensures TagsFit(o)
  {
    if o.Frame? {
      TagsAreTagged(o.below);
    }
  }
}
