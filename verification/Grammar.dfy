/**
 * The document grammar as plain recursive descent: a container is read by calling itself on its members and is
 * closed with the size of what came back. There is no stack, no saved frame and no slot to patch later; this is
 * what `Stage2.TapeBuilder` is proved to compute.
 */
module Grammar {
  import opened Common
  import opened Tape
  import opened Layout

  /** The formats a declared container can be written in. */
  datatype Form =
    | EmptyArray
    | InlineArray(count: nat, delimiter: Byte)
    | BlockArray(count: nat)
    | TabularObjects(headers: seq<Span>, rows: nat, delimiter: Byte)
    | TabularArrayStrict(headers: seq<Span>, rows: nat, delimiter: Byte)
    | TabularArrayLenient(headers: seq<Span>, delimiter: Byte)
    | NestedFieldGroups(fields: seq<Field>, leafCount: nat, rows: nat, delimiter: Byte)
  {
    predicate Counted() {
      (NestedFieldGroups? ==> leafCount == Leaves(fields)) && (InlineArray? ==> count >= 1)
    }

    predicate IsObject() { TabularObjects? }

    predicate HasRows() { TabularObjects? || TabularArrayStrict? || NestedFieldGroups? }
  }

  datatype Nodes = Nodes(nodes: seq<Node>, next: nat)
  datatype Branch = Branch(nodes: seq<Node>, seen: nat, next: nat)
  datatype Body = Body(nodes: seq<Node>, n: nat, i: nat, ws: nat)
  datatype Chosen = Chosen(form: Form, next: nat)

  /**
   * The rest of a container: its remaining nodes, how many members they count for, and the cursor and last
   * measured indentation after them. `clean` is false when a key was left without a value or a value without
   * a key.
   */
  datatype Rest =
    | Done(nodes: seq<Node>, n: nat, i: nat, ws: nat, clean: bool)
    | Fail(error: ErrorType)
  {
    function Prepend(first: seq<Node>, k: nat, ok: bool): Rest {
      if Fail? then this else Done(first + nodes, k + n, i, ws, ok && clean)
    }
  }

  // ----- Rows and inline items -----

  function ReadCells(d: Document, headers: seq<Span>, k: nat, i: nat, delimiter: Byte, keyed: bool): (r: Result<Nodes>)
    requires d.At(i) && k < |headers|
    ensures r.Ok? ==> i <= r.value.next <= |d.indexes| && d.Char(r.value.next) == NEWLINE
    decreases |headers| - k
  {
    var key :- d.Quote(headers[k]);
    if k + 1 < |headers| then
      var t :- d.ReadToken(i, {delimiter});
      var v :- d.Infer(t.span);
      var j :- d.Next(t.next);
      var rest :- ReadCells(d, headers, k + 1, j, delimiter, keyed);
      Ok(Nodes([key, v] + rest.nodes, rest.next))
    else
      var t :- d.ReadToken(i, {NEWLINE});
      if keyed && |headers| == 1 && t.span.start == t.span.end then Err(ExpectedArrayContent)
      else
        var v :- d.Infer(t.span);
        Ok(Nodes([key, v], t.next))
  }

  function ReadFlatRow(d: Document, headers: seq<Span>, i: nat, delimiter: Byte, keyed: bool): (r: Result<Nodes>)
    requires d.At(i)
    ensures r.Ok? ==> i <= r.value.next <= |d.indexes| && d.Char(r.value.next) == NEWLINE
  {
    if headers == [] then Err(TapeError)
    else
      var cells :- ReadCells(d, headers, 0, i, delimiter, keyed);
      Ok(Nodes(Closed(true, cells.nodes, |headers|), cells.next))
  }

  /** The fields of a row in depth-first order. */
  function ReadBranch(d: Document, fields: seq<Field>, seen: nat, leaves: nat, i: nat, delimiter: Byte): (r: Result<Branch>)
    requires d.At(i)
    ensures r.Ok? ==> i <= r.value.next <= |d.indexes|
    decreases fields, 0
  {
    if fields == [] then Ok(Branch([], seen, i))
    else
      var first :- ReadEntry(d, fields[0], seen, leaves, i, delimiter);
      var rest :- ReadBranch(d, fields[1..], first.seen, leaves, first.next, delimiter);
      Ok(Branch(first.nodes + rest.nodes, rest.seen, rest.next))
  }

  /** The name of a field and its value. */
  function ReadEntry(d: Document, field: Field, seen: nat, leaves: nat, i: nat, delimiter: Byte): (r: Result<Branch>)
    requires d.At(i)
    ensures r.Ok? ==> i <= r.value.next <= |d.indexes|
    decreases field, 2
  {
    var key :- d.Quote(field.name);
    var value :- ReadField(d, field, seen, leaves, i, delimiter);
    Ok(Branch([key] + value.nodes, value.seen, value.next))
  }

  /** The value of one field; only the last leaf of a row ends on a newline. */
  function ReadField(d: Document, field: Field, seen: nat, leaves: nat, i: nat, delimiter: Byte): (r: Result<Branch>)
    requires d.At(i)
    ensures r.Ok? ==> i <= r.value.next <= |d.indexes|
    decreases field, 1
  {
    match field
    case Leaf(_) =>
      var last := seen + 1 == leaves;
      var t :- d.ReadToken(i, if last then {NEWLINE} else {delimiter});
      var v :- d.Infer(t.span);
      var j :- if last then Ok(t.next) else d.Next(t.next);
      Ok(Branch([v], seen + 1, j))
    case Group(_, children) =>
      var inner :- ReadBranch(d, children, seen, leaves, i, delimiter);
      Ok(Branch(Closed(true, inner.nodes, |children|), inner.seen, inner.next))
  }

  function ReadRow(d: Document, form: Form, i: nat): (r: Result<Nodes>)
    requires d.At(i) && form.HasRows()
    ensures r.Ok? ==> i <= r.value.next <= |d.indexes|
  {
    match form
    case TabularObjects(headers, _, delimiter) =>
      var t :- d.ReadToken(i, {COLON});
      var key :- d.Quote(t.span);
      var j :- d.Next(t.next);
      var row :- ReadFlatRow(d, headers, j, delimiter, true);
      Ok(Nodes([key] + row.nodes, row.next))
    case TabularArrayStrict(headers, _, delimiter) =>
      ReadFlatRow(d, headers, i, delimiter, false)
    case NestedFieldGroups(fields, _, _, delimiter) =>
      var row :- ReadBranch(d, fields, 0, Leaves(fields), i, delimiter);
      Ok(Nodes(Closed(true, row.nodes, |fields|), row.next))
  }

  /** `rows` rows at one indentation; what follows the last one is left to the container that holds them. */
  function ReadRows(d: Document, form: Form, rows: nat, i: nat, ws: nat, indent: nat, floor: Option<nat>): (r: Result<Body>)
    requires d.At(i) && form.HasRows() && rows > 0
    ensures r.Ok? ==> i <= r.value.i <= |d.indexes| && r.value.n == rows
    decreases rows
  {
    var row :- ReadRow(d, form, i);
    if rows == 1 then Ok(Body(row.nodes, 1, row.next, ws))
    else
      var eol :- d.ReadEol(row.next, ws, indent, floor, true);
      if eol.state != Sibling then Err(Syntax)
      else
        var rest :- ReadRows(d, form, rows - 1, eol.i, eol.ws, indent, floor);
        Ok(Body(row.nodes + rest.nodes, 1 + rest.n, rest.i, rest.ws))
  }

  /** Rows until the indentation closes, whatever the header declared. */
  function ReadAnyRows(d: Document, headers: seq<Span>, delimiter: Byte, i: nat, ws: nat, indent: nat, floor: Option<nat>): (r: Result<Body>)
    requires d.At(i)
    ensures r.Ok? ==> i <= r.value.i <= |d.indexes|
    decreases |d.indexes| - i
  {
    var row :- ReadFlatRow(d, headers, i, delimiter, false);
    var eol :- d.ReadEol(row.next, ws, indent, floor, true);
    match eol.state
    case CloseScope => Ok(Body(row.nodes, 1, eol.i, eol.ws))
    case Nested => Err(Syntax)
    case Sibling =>
      var rest :- ReadAnyRows(d, headers, delimiter, eol.i, eol.ws, indent, floor);
      Ok(Body(row.nodes + rest.nodes, 1 + rest.n, rest.i, rest.ws))
  }

  /** The `count` items of an inline array, the last one up to the newline. */
  function ReadItems(d: Document, count: nat, i: nat, delimiter: Byte): (r: Result<Nodes>)
    requires d.At(i)
    ensures r.Ok? ==> i <= r.value.next <= |d.indexes| && d.Char(r.value.next) == NEWLINE
    decreases count
  {
    if count > 1 then
      var t :- d.ReadToken(i, {delimiter});
      var v :- d.Infer(t.span);
      var j :- d.Next(t.next);
      var rest :- ReadItems(d, count - 1, j, delimiter);
      Ok(Nodes([v] + rest.nodes, rest.next))
    else
      var t :- d.ReadToken(i, {NEWLINE});
      var v :- d.Infer(t.span);
      Ok(Nodes([v], t.next))
  }

  // ----- Containers -----

  /** A simple array is written inline or as a block, depending on what follows its `:`. */
  function Choose(d: Document, shape: Shape, i: nat): (r: Result<Chosen>)
    requires d.At(i)
    ensures r.Ok? ==> i <= r.value.next <= |d.indexes|
    ensures r.Ok? && shape.Counted() ==> r.value.form.Counted()
  {
    match shape
    case Simple(count, delimiter) =>
      var j :- d.Next(i);
      Ok(Chosen(if d.Char(j) == NEWLINE then BlockArray(count) else InlineArray(count, delimiter), j))
    case Empty => Ok(Chosen(EmptyArray, i))
    case KeyedRows(headers, rows, delimiter) => Ok(Chosen(TabularObjects(headers, rows, delimiter), i))
    case Rows(headers, rows, delimiter) => Ok(Chosen(TabularArrayStrict(headers, rows, delimiter), i))
    case GroupedRows(fields, leafCount, _, rows, delimiter) =>
      Ok(Chosen(NestedFieldGroups(fields, leafCount, rows, delimiter), i))
  }

  /** The key in front of a declared container, and the `:` in front of an empty one. */
  function ReadKey(d: Document, form: Form, key: Option<Span>, i: nat): (r: Result<Nodes>)
    requires d.At(i)
    ensures r.Ok? ==> i <= r.value.next <= |d.indexes|
    ensures r.Ok? && key.Some? ==> |r.value.nodes| == 1 && r.value.nodes[0].String?
    ensures r.Ok? && key.None? ==> r.value.nodes == []
  {
    var j :- if form.EmptyArray? then d.Next(i) else Ok(i);
    if key.Some? then
      var k :- d.Quote(key.value);
      Ok(Nodes([k], j))
    else Ok(Nodes([], j))
  }

  function Lift(r: Result<Body>): Rest {
    match r
    case Err(e) => Fail(e)
    case Ok(b) => Done(b.nodes, b.n, b.i, b.ws, true)
  }

  /** The indentation of a container's members. */
  function MemberIndent(d: Document, form: Form, indent: nat, isRoot: bool): nat {
    if form.InlineArray? && !isRoot then indent else indent + d.indentSize
  }

  /**
   * Everything inside a declared container, from behind its key on. `indent` is the indentation around it and
   * `floor` that of the outermost open block array.
   */
  function ReadContents(d: Document, form: Form, i: nat, ws: nat, indent: nat, floor: Option<nat>, isRoot: bool): (r: Rest)
    requires d.At(i)
    ensures r.Done? ==> i <= r.i <= |d.indexes|
    decreases |d.indexes| - i, 2
  {
    var inside := MemberIndent(d, form, indent, isRoot);
    match form
    case EmptyArray => EndOfLine(d, Nodes([], i), 0, ws, inside, floor, false)
    case InlineArray(count, delimiter) =>
      (match ReadItems(d, count, i, delimiter)
       case Err(e) => Fail(e)
       case Ok(items) => EndOfLine(d, items, |items.nodes|, ws, inside, floor, true))
    case BlockArray(count) =>
      (match ReadEol(d, i, ws, indent, floor)
       case Err(e) => Fail(e)
       case Ok(eol) =>
         var r := ReadArrayItems(d, eol.i, eol.ws, inside, BlockFloor(floor, inside, isRoot), Some(count));
         CheckCount(d, count, 0, r))
    case _ => ReadTable(d, form, i, ws, indent, inside, floor)
  }

  /** The rows under a tabular header, from its `:` on. */
  function ReadTable(d: Document, form: Form, i: nat, ws: nat, indent: nat, inside: nat, floor: Option<nat>): (r: Rest)
    requires d.At(i) && (form.HasRows() || form.TabularArrayLenient?)
    ensures r.Done? ==> i <= r.i <= |d.indexes|
  {
    match d.Next(i)
    case Err(e) => Fail(e)
    case Ok(j) =>
      match ReadEol(d, j, ws, indent, floor)
      case Err(e) => Fail(e)
      case Ok(eol) => Lift(ReadTableRows(d, form, eol.i, eol.ws, inside, floor))
  }

  /**
   * How many rows are asked for. Rows of nested groups are read as one less than declared and one more, and one less
   * than zero wraps.
   */
  function RowCount(form: Form): nat
    requires form.HasRows()
  {
    if form.NestedFieldGroups? && form.rows == 0 then 0x1_0000_0000_0000_0000 else form.rows
  }

  function ReadTableRows(d: Document, form: Form, i: nat, ws: nat, indent: nat, floor: Option<nat>): (r: Result<Body>)
    requires d.At(i) && (form.HasRows() || form.TabularArrayLenient?)
    ensures r.Ok? ==> i <= r.value.i <= |d.indexes|
  {
    if form.TabularArrayLenient? then ReadAnyRows(d, form.headers, form.delimiter, i, ws, indent, floor)
    else if RowCount(form) > 0 then ReadRows(d, form, RowCount(form), i, ws, indent, floor)
    else Ok(Body([], 0, i, ws))
  }

  /** The line break under a block header, which must open the next indentation. */
  function ReadEol(d: Document, i: nat, ws: nat, indent: nat, floor: Option<nat>): (r: Result<Eol>)
    requires d.At(i)
    ensures r.Ok? ==> i < r.value.i <= |d.indexes| && r.value.ws == indent + d.indentSize
  {
    var eol :- d.ReadEol(i, ws, indent, floor, false);
    if eol.state == Nested then Ok(eol) else Err(ExpectedArrayContent)
  }

  /** The line break that ends an array written on one line. */
  function EndOfLine(d: Document, items: Nodes, n: nat, ws: nat, indent: nat, floor: Option<nat>, noBlank: bool): (r: Rest)
    requires d.At(items.next)
    ensures r.Done? ==> items.next <= r.i <= |d.indexes| && r.nodes == items.nodes && r.n == n && r.clean
  {
    match d.ReadEol(items.next, ws, indent, floor, noBlank)
    case Err(e) => Fail(e)
    case Ok(eol) => if eol.state == Nested then Fail(NoStructure) else Done(items.nodes, n, eol.i, eol.ws, true)
  }

  /** The root block array is measured against the indentation of the header, any other against its items'. */
  function BlockFloor(floor: Option<nat>, inside: nat, isRoot: bool): Option<nat> {
    if floor.Some? then floor else Some(if isRoot then 0 else inside)
  }

  function CheckCount(d: Document, count: nat, before: nat, r: Rest): Rest {
    if r.Done? && d.strict && before + r.n != count then Fail(Syntax) else r
  }

  /** What the member before left to read of a container that goes on with keys or with items. */
  function ReadOn(d: Document, keyed: bool, i: nat, ws: nat, indent: nat, floor: Option<nat>, room: Option<int>): (r: Rest)
    requires d.At(i)
    ensures r.Done? ==> i <= r.i <= |d.indexes|
    decreases |d.indexes| - i, 1
  {
    if !keyed && i == |d.indexes| then Done([], 0, i, ws, true)
    else
      match if d.Char(i) == NEWLINE then d.ReadEol(i, ws, indent, floor, false) else Measured(d, i, ws, indent)
      case Err(e) => Fail(e)
      case Ok(eol) =>
        match eol.state
        case CloseScope => Done([], 0, eol.i, eol.ws, true)
        case Nested => Fail(NoStructure)
        case Sibling =>
          if keyed then ReadFieldsOf(d, eol.i, eol.ws, indent, floor)
          else ReadArrayItems(d, eol.i, eol.ws, indent, floor, room)
  }

  /** A line break that an inner container has consumed already is judged by the indentation it measured. */
  function Measured(d: Document, i: nat, ws: nat, indent: nat): (r: Result<Eol>)
    ensures r.Ok? ==> r.value.i == i && r.value.ws == ws && (r.value.state == Sibling ==> ws == indent)
  {
    var state :- d.Compare(ws, indent);
    Ok(Eol(state, i, ws))
  }

  /** A declared container as a member, and whatever follows it in the container around it. */
  function ReadDeclared(d: Document, form: Form, key: Option<Span>, i: nat, ws: nat, indent: nat, floor: Option<nat>, room: Option<int>): (r: Rest)
    requires d.At(i)
    ensures r.Done? ==> i <= r.i <= |d.indexes|
    decreases |d.indexes| - i, 3
  {
    match ReadKey(d, form, key, i)
    case Err(e) => Fail(e)
    case Ok(k) =>
      var inner := ReadContents(d, form, k.next, ws, indent, floor, false);
      if inner.Fail? then inner
      else
        ReadOn(d, key.Some?, inner.i, inner.ws, indent, floor, room)
          .Prepend(k.nodes + Closed(form.IsObject(), inner.nodes, inner.n), |k.nodes|, inner.clean)
  }

  /** The fields of an object, from the first token of a line on. */
  function ReadFieldsOf(d: Document, i: nat, ws: nat, indent: nat, floor: Option<nat>): (r: Rest)
    requires d.At(i) && ws == indent
    ensures r.Done? ==> i <= r.i <= |d.indexes|
    decreases |d.indexes| - i, 0
  {
    match d.ReadHeader(i)
    case Err(e) => Fail(e)
    case Ok(line) =>
      match line.header
      case ObjectStart(name) => ReadPair(d, name, line.next, ws, indent, floor)
      case Declared(key, shape) =>
        (match Choose(d, shape, line.next)
         case Err(e) => Fail(e)
         case Ok(c) => ReadDeclared(d, c.form, key, c.next, ws, indent, floor, None).Prepend([], 0, key.Some?))
      case _ => Fail(NoStructure)
  }

  /** `key:` and its value, from the `:` on. */
  function ReadPair(d: Document, name: Span, i: nat, ws: nat, indent: nat, floor: Option<nat>): (r: Rest)
    requires d.At(i)
    ensures r.Done? ==> i < r.i <= |d.indexes|
    decreases |d.indexes| - i, 0
  {
    match d.Quote(name)
    case Err(e) => Fail(e)
    case Ok(key) =>
      match d.Next(i)
      case Err(e) => Fail(e)
      case Ok(j) => ReadPairValue(d, j, ws, indent, floor).Prepend([key], 1, true)
  }

  /** A value is on the line of its key or below it. */
  function ReadPairValue(d: Document, i: nat, ws: nat, indent: nat, floor: Option<nat>): (r: Rest)
    requires d.At(i)
    ensures r.Done? ==> i <= r.i <= |d.indexes|
    decreases |d.indexes| - i, 1
  {
    if d.Char(i) == NEWLINE then ReadValueBelow(d, i, ws, indent, floor) else ReadValueBeside(d, i, ws, indent, floor)
  }

  function ReadValueBelow(d: Document, i: nat, ws: nat, indent: nat, floor: Option<nat>): (r: Rest)
    requires d.At(i)
    ensures r.Done? ==> i <= r.i <= |d.indexes|
    decreases |d.indexes| - i, 0
  {
    if i == |d.indexes| then Done([Object(0, 0)], 0, i, ws, true)
    else
      match d.ReadEol(i, ws, indent, floor, false)
      case Err(e) => Fail(e)
      case Ok(eol) =>
        match eol.state
        case Nested =>
          var inner := ReadFieldsOf(d, eol.i, eol.ws, indent + d.indentSize, floor);
          if inner.Fail? then inner
          else
            ReadOn(d, true, inner.i, inner.ws, indent, floor, None)
              .Prepend(Closed(true, inner.nodes, inner.n), 0, inner.clean)
        case Sibling => ReadFieldsOf(d, eol.i, eol.ws, indent, floor).Prepend([Object(0, 0)], 0, true)
        case CloseScope => Done([], 0, eol.i, eol.ws, false)
  }

  function ReadValueBeside(d: Document, i: nat, ws: nat, indent: nat, floor: Option<nat>): (r: Rest)
    requires d.At(i)
    ensures r.Done? ==> i <= r.i <= |d.indexes|
    decreases |d.indexes| - i, 0
  {
    match d.ReadToken(i, {NEWLINE})
    case Err(e) => Fail(e)
    case Ok(t) =>
      match InferValue(d, t.span)
      case Err(e) => Fail(e)
      case Ok(v) =>
        if t.next == |d.indexes| then Done([v], 0, t.next, ws, true)
        else
          match d.ReadEol(t.next, ws, indent, floor, false)
          case Err(e) => Fail(e)
          case Ok(eol) =>
            match eol.state
            case Sibling => ReadFieldsOf(d, eol.i, eol.ws, indent, floor).Prepend([v], 0, true)
            case CloseScope => Done([v], 0, eol.i, eol.ws, true)
            case Nested => Fail(NoStructure)
  }

  /** A value behind a key: `[]` stands for the empty array. */
  function InferValue(d: Document, s: Span): (r: Result<Node>)
    requires d.Spans(s)
    ensures r.Ok? ==> r.value.String? || r.value.Scalar? || r.value == Array(0, 0)
  {
    if d.input[s.start..s.end] == [OPEN_BRACKET, CLOSE_BRACKET] then Ok(Array(0, 0)) else d.Infer(s)
  }

  /** The `- ` items of a block array; `room` is how many it has left, where that was declared. */
  function ReadArrayItems(d: Document, i: nat, ws: nat, indent: nat, floor: Option<nat>, room: Option<int>): (r: Rest)
    requires d.At(i) && ws == indent
    ensures r.Done? ==> i < r.i <= |d.indexes|
    decreases |d.indexes| - i, 0
  {
    if d.Char(i) != HYPHEN then Fail(ExpectedArray)
    else if d.strict && room.Some? && room.value <= 0 then Fail(Syntax)
    else
      var left := if room.Some? then Some(room.value - 1) else None;
      match d.Next(i)
      case Err(e) => Fail(e)
      case Ok(j) =>
        match d.ReadHeader(j)
        case Err(e) => Fail(e)
        case Ok(line) => ReadItem(d, line.header, line.next, ws, indent, floor, left)
  }

  /** The item that a header behind a `- ` starts, and the items after it. */
  function ReadItem(d: Document, header: Header, i: nat, ws: nat, indent: nat, floor: Option<nat>, left: Option<int>): (r: Rest)
    requires d.At(i) && (header.PrimitiveValue? ==> d.Spans(header.val))
    ensures r.Done? ==> i <= r.i <= |d.indexes|
    decreases |d.indexes| - i, 4
  {
    match header
    case PrimitiveValue(val) =>
      (match d.Infer(val)
       case Err(e) => Fail(e)
       case Ok(v) => NextItem(d, v, i, ws, indent, floor, left))
    case EmptyObject => NextItem(d, Object(0, 0), i, ws, indent, floor, left)
    case ObjectStart(name) =>
      EndItem(d, ReadPair(d, name, i, ws, indent + 2, floor), indent, floor, left)
    case Declared(key, shape) =>
      match Choose(d, shape, i)
      case Err(e) => Fail(e)
      case Ok(c) =>
        if key.Some? then
          EndItem(d, ReadDeclared(d, c.form, key, c.next, ws, indent + d.indentSize, floor, None), indent, floor, left)
        else
          ReadDeclared(d, c.form, key, c.next, ws, indent, floor, left).Prepend([], 1, true)
  }

  /** An item on one line, and the items after it. */
  function NextItem(d: Document, item: Node, i: nat, ws: nat, indent: nat, floor: Option<nat>, left: Option<int>): (r: Rest)
    requires d.At(i)
    ensures r.Done? ==> i <= r.i <= |d.indexes|
    decreases |d.indexes| - i, 0
  {
    match d.ReadEol(i, ws, indent, floor, false)
    case Err(e) => Fail(e)
    case Ok(eol) =>
      match eol.state
      case Sibling => ReadArrayItems(d, eol.i, eol.ws, indent, floor, left).Prepend([item], 1, true)
      case CloseScope => Done([item], 1, eol.i, eol.ws, true)
      case Nested => Fail(NoStructure)
  }

  /** An item that is an object of its own, and the items after it. */
  function EndItem(d: Document, inner: Rest, indent: nat, floor: Option<nat>, left: Option<int>): (r: Rest)
    requires d.Valid() && (inner.Done? ==> d.At(inner.i))
    ensures r.Done? ==> inner.Done? && inner.i <= r.i <= |d.indexes|
    decreases if inner.Done? then |d.indexes| - inner.i else 0, 2
  {
    if inner.Fail? then inner
    else
      ReadOn(d, false, inner.i, inner.ws, indent, floor, left)
        .Prepend(Closed(true, inner.nodes, inner.n), 1, inner.clean)
  }

  // ----- Documents -----

  /** The root has been closed: only newlines may be left. */
  predicate AtEnd(d: Document, i: nat)
    requires d.At(i)
    decreases |d.indexes| - i
  {
    i == |d.indexes| || (d.Char(i) == NEWLINE && AtEnd(d, i + 1))
  }

  datatype Parsed = Parsed(tape: seq<Node>, clean: bool)

  function CloseRoot(d: Document, isObject: bool, r: Rest): Result<Parsed>
    requires d.Valid() && (r.Done? ==> d.At(r.i))
  {
    if r.Fail? then Err(r.error)
    else if AtEnd(d, r.i) then Ok(Parsed(Closed(isObject, r.nodes, r.n), r.clean))
    else Err(TapeError)
  }

  /** The first token of the document, behind a leading `#` and blank lines. */
  function Start(d: Document): (r: Result<nat>)
    requires d.Valid()
    ensures r.Ok? ==> 1 <= r.value <= |d.indexes|
  {
    var i :- d.Next(0);
    var j :- if d.Char(i) == HASH then d.Next(i) else Ok(i);
    SkipNewlines(d, j)
  }

  function SkipNewlines(d: Document, i: nat): (r: Result<nat>)
    requires d.At(i)
    ensures r.Ok? ==> 1 <= r.value <= |d.indexes|
    decreases |d.indexes| - i
  {
    if d.Char(i) != NEWLINE then Ok(i)
    else if i == |d.indexes| then Err(Syntax)
    else SkipNewlines(d, i + 1)
  }

  /** The tape of a whole document. */
  function Parse(d: Document): Result<Parsed>
    requires d.Valid()
  {
    var i :- Start(d);
    var line :- d.ReadHeader(i);
    match line.header
    case PrimitiveValue(val) =>
      if line.next < |d.indexes| then Err(Syntax)
      else
        var v :- d.Infer(val);
        Ok(Parsed([v], true))
    case EmptyObject => Err(NoStructure)
    case ObjectStart(name) => CloseRoot(d, true, ReadPair(d, name, line.next, 0, 0, None))
    case Declared(key, shape) =>
      var c :- ChooseRoot(d, shape, line.next);
      if key.Some? then
        CloseRoot(d, true, ReadDeclared(d, c.form, key, c.next, 0, 0, None, None))
      else
        CloseRoot(d, c.form.IsObject(), ReadRoot(d, c.form, c.next, 0, 0, None))
  }

  /** A root container without a key. */
  function ReadRoot(d: Document, form: Form, i: nat, ws: nat, indent: nat, floor: Option<nat>): (r: Rest)
    requires d.At(i)
    ensures r.Done? ==> i <= r.i <= |d.indexes|
  {
    match ReadKey(d, form, None, i)
    case Err(e) => Fail(e)
    case Ok(k) => ReadContents(d, form, k.next, ws, indent, floor, true)
  }

  /** Only a header at the root follows the lenient reading of a tabular array. */
  function ChooseRoot(d: Document, shape: Shape, i: nat): (r: Result<Chosen>)
    requires d.At(i)
    ensures r.Ok? ==> i <= r.value.next <= |d.indexes|
    ensures r.Ok? && shape.Counted() ==> r.value.form.Counted()
  {
    if shape.Rows? && !d.strict then Ok(Chosen(TabularArrayLenient(shape.headers, shape.delimiter), i))
    else Choose(d, shape, i)
  }
}
