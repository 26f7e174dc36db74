/**
 * How one line of a document is read off the list of structural positions: the cursor, the end of a
 * token, the classification of a line break and the header of a line.
 */
module Layout {
  import opened Common
  import opened Tape

  /** One entry of a header's field list; a group carries its own field list. */
  datatype Field = Leaf(name: Span) | Group(name: Span, children: seq<Field>)

  function Leaves(fields: seq<Field>): nat {
    if fields == [] then 0
    else (match fields[0] case Leaf(_) => 1 case Group(_, c) => Leaves(c)) + Leaves(fields[1..])
  }

  function Groups(fields: seq<Field>): nat {
    if fields == [] then 0
    else (match fields[0] case Leaf(_) => 0 case Group(_, c) => 1 + Groups(c)) + Groups(fields[1..])
  }

  /** What follows the key of a header that declares a row count. */
  datatype Shape =
    | Simple(count: nat, delimiter: Byte)
    | Empty
    | KeyedRows(headers: seq<Span>, rows: nat, delimiter: Byte)
    | Rows(headers: seq<Span>, rows: nat, delimiter: Byte)
    | GroupedRows(fields: seq<Field>, leafCount: nat, nestedCount: nat, rows: nat, delimiter: Byte)
  {
    /** The counts of a field list are true, and a simple array has a member: `[0]` is read as the empty array. */
    predicate Counted() {
      && (GroupedRows? ==> leafCount == Leaves(fields) && nestedCount == Groups(fields))
      && (Simple? ==> count >= 1)
    }
  }

  datatype Header =
    | PrimitiveValue(val: Span)
    | ObjectStart(name: Span)
    | EmptyObject
    | Declared(key: Option<Span>, shape: Shape)

  datatype EOLState = Sibling | CloseScope | Nested

  datatype Bracket = Bracket(rows: nat, keyed: bool, delimiter: Byte, next: nat)
  datatype Token = Token(span: Span, next: nat)
  datatype Eol = Eol(state: EOLState, i: nat, ws: nat)
  datatype FieldList = FieldList(fields: seq<Field>, next: nat)
  datatype Line = Line(header: Header, next: nat)

  const U32_MAX: nat := 0xFFFF_FFFF

  /**
   * What `build_tape` is given. `i` structurals have been read when the cursor is at `i`, and the
   * current one is `indexes[i - 1]`. `text` and `number` decode the token at a span.
   */
  datatype Document = Document(
    input: Bytes, indexes: seq<nat>, strict: bool, indentSize: nat,
    text: Span -> Result<Bytes>, number: Span -> Option<Static>)
  {
    ghost predicate Valid() {
      && (forall k :: 0 <= k < |indexes| ==> indexes[k] < |input| && indexes[k] <= U32_MAX)
      && (forall k, l :: 0 <= k < l < |indexes| ==> indexes[k] < indexes[l])
    }

    ghost predicate At(i: nat) { Valid() && 1 <= i <= |indexes| }

    predicate Spans(s: Span) { s.start <= s.end <= |input| && s.start < |input| }

    function Pos(i: nat): nat
      requires At(i)
    {
      indexes[i - 1]
    }

    function Char(i: nat): Byte
      requires At(i)
    {
      input[Pos(i)]
    }

    function Next(i: nat): (r: Result<nat>)
      requires Valid() && i <= |indexes|
    {
      if i < |indexes| then Ok(i + 1) else Err(Syntax)
    }

    /** The first structural from `i` on that is one of `stops`; a newline in between is an error. */
    function Seek(i: nat, stops: set<Byte>): (r: Result<nat>)
      requires At(i)
      ensures r.Ok? ==> i <= r.value <= |indexes| && Char(r.value) in stops
      decreases |indexes| - i
    {
      if Char(i) in stops then Ok(i)
      else if Char(i) == NEWLINE || i == |indexes| then Err(Syntax)
      else Seek(i + 1, stops)
    }

    function Trim(start: nat, end: nat): (e: nat)
      requires end <= |input|
      ensures e <= end && (start <= end ==> start <= e)
    {
      if start < end && (input[end - 1] == SPACE || input[end - 1] == RETURN) then Trim(start, end - 1) else end
    }

    /** The token that starts at the cursor, without trailing spaces, up to one of `stops`. */
    function ReadToken(i: nat, stops: set<Byte>): (r: Result<Token>)
      requires At(i)
      ensures r.Ok? ==> i <= r.value.next <= |indexes| && Char(r.value.next) in stops
      ensures r.Ok? ==> r.value.span.start == Pos(i) && Pos(i) <= r.value.span.end <= Pos(r.value.next)
    {
      var j :- Seek(i, stops);
      Ok(Token(Span(Pos(i), Trim(Pos(i), Pos(j))), j))
    }

    /** A primitive: a number or literal where the token is one, a string otherwise. */
    function Infer(s: Span): (r: Result<Node>)
      requires Spans(s)
      ensures r.Ok? ==> r.value.String? || r.value.Scalar?
    {
      if IsDigit(input[s.start]) || input[s.start] == HYPHEN then
        if number(s).Some? then Ok(Scalar(number(s).value)) else Quote(s)
      else if input[s.start..s.end] == [116, 114, 117, 101] then Ok(Scalar(Bool(true)))
      else if input[s.start..s.end] == [102, 97, 108, 115, 101] then Ok(Scalar(Bool(false)))
      else if input[s.start..s.end] == [110, 117, 108, 108] then Ok(Scalar(Null))
      else Quote(s)
    }

    function Quote(s: Span): (r: Result<Node>)
      ensures r.Ok? ==> r.value.String?
    {
      var t :- text(s);
      Ok(String(Str(t, s)))
    }

    function Compare(ws: nat, indent: nat): Result<EOLState> {
      if ws == indent then Ok(Sibling)
      else if ws < indent then Ok(CloseScope)
      else if ws == indent + indentSize then Ok(Nested)
      else Err(Syntax)
    }

    /** Skips the newlines from `i` on: the last newline read and the structural the cursor is left on. */
    function SkipBlank(i: nat): (r: (nat, nat))
      requires At(i) && i < |indexes| && Char(i) == NEWLINE
      ensures i <= r.0 <= r.1 <= |indexes| && i < r.1 && Char(r.0) == NEWLINE
      ensures r.1 < |indexes| ==> Char(r.1) != NEWLINE && r.1 == r.0 + 1
      decreases |indexes| - i
    {
      if Char(i + 1) != NEWLINE then (i, i + 1)
      else if i + 1 == |indexes| then (i + 1, i + 1)
      else SkipBlank(i + 1)
    }

    /**
     * The line break at the cursor. `floor` is the item indentation of the outermost open block array:
     * in strict mode no blank line may occur above it, nor where `noBlank` says so.
     */
    function ReadEol(i: nat, ws: nat, indent: nat, floor: Option<nat>, noBlank: bool): (r: Result<Eol>)
      requires At(i)
      ensures r.Ok? ==> i <= r.value.i <= |indexes|
      ensures r.Ok? && r.value.state != CloseScope ==> i < r.value.i
      ensures r.Ok? && r.value.state == Sibling ==> r.value.ws == indent
      ensures r.Ok? && r.value.state == Nested ==> r.value.ws == indent + indentSize
    {
      if i == |indexes| then Ok(Eol(CloseScope, i, ws))
      else if Char(i) != NEWLINE then Err(Syntax)
      else
        var (last, j) := SkipBlank(i);
        if j == |indexes| then Ok(Eol(CloseScope, j, ws))
        else
          var measured := Pos(j) - Pos(last) - 1;
          if last > i && strict && (noBlank || (floor.Some? && measured >= floor.value)) then Err(Syntax)
          else
            var state :- Compare(measured, indent);
            Ok(Eol(state, j, measured))
    }

    /** The row count between `[` and the next structural, as a checked 32-bit number. */
    function ReadCount(start: nat, end: nat, acc: nat): (r: Result<nat>)
      requires start <= end <= |input| && acc <= U32_MAX
      ensures r.Ok? ==> r.value <= U32_MAX
      decreases end - start
    {
      if start == end then Ok(acc)
      else if !IsDigit(input[start]) || 10 * acc + (input[start] - ZERO) > U32_MAX then Err(Syntax)
      else ReadCount(start + 1, end, 10 * acc + (input[start] - ZERO))
    }

    /** The rest of a field list, read after its `{` or a separator, up to and past its `}`. */
    function ReadFields(i: nat, delimiter: Byte): (r: Result<FieldList>)
      requires At(i)
      ensures r.Ok? ==> i + 2 <= r.value.next <= |indexes| && r.value.fields != []
      decreases |indexes| - i, 0
    {
      var a :- Next(i);
      var t :- ReadToken(a, {delimiter, CLOSE_BRACE, OPEN_BRACE});
      if Char(t.next) == OPEN_BRACE then
        var inner :- ReadFields(t.next, delimiter);
        EndField(Group(t.span, inner.fields), inner.next, delimiter)
      else
        EndField(Leaf(t.span), t.next, delimiter)
    }

    /** A field has been read and the cursor is on what follows it: the `}` of its list, or a separator. */
    function EndField(field: Field, i: nat, delimiter: Byte): (r: Result<FieldList>)
      requires At(i)
      ensures r.Ok? ==> i < r.value.next <= |indexes| && r.value.fields != []
      decreases |indexes| - i, 1
    {
      if Char(i) == CLOSE_BRACE then
        var next :- Next(i);
        Ok(FieldList([field], next))
      else
        var rest :- ReadFields(i, delimiter);
        Ok(FieldList([field] + rest.fields, rest.next))
    }

    /** `[N]` or `[N:]` with its delimiter, from the `[` to what follows the `]`. */
    function ReadBracket(i: nat): (r: Result<Bracket>)
      requires At(i)
      ensures r.Ok? ==> i + 3 <= r.value.next <= |indexes|
    {
      var a :- Next(i);
      var b :- Next(a);
      var rows :- ReadCount(Pos(a), Pos(b), 0);
      var keyed := Char(b) == COLON;
      var d :- if keyed then Next(b) else Ok(b);
      var other := Char(d) == PIPE || Char(d) == TAB;
      var e :- if other then Next(d) else Ok(d);
      if Char(e) != CLOSE_BRACKET then Err(Syntax)
      else
        var f :- Next(e);
        Ok(Bracket(rows, keyed, if other then Char(d) else COMMA, f))
    }

    /** A header from its `[` on. */
    function ReadShape(i: nat): (r: Result<(Shape, nat)>)
      requires At(i)
      ensures r.Ok? ==> i + 3 <= r.value.1 <= |indexes| && r.value.0.Counted()
    {
      var b :- ReadBracket(i);
      if Char(b.next) != OPEN_BRACE then
        Ok((if b.keyed then KeyedRows([], b.rows, b.delimiter)
            else if b.rows == 0 then Empty
            else Simple(b.rows, b.delimiter), b.next))
      else
        var list :- ReadFields(b.next, b.delimiter);
        var shape :- ShapeOf(list.fields, b.keyed, b.rows, b.delimiter);
        Ok((shape, list.next))
    }

    function ShapeOf(fields: seq<Field>, keyed: bool, rows: nat, delimiter: Byte): (r: Result<Shape>)
      ensures r.Ok? ==> r.value.Counted()
    {
      if Groups(fields) > 0 then
        if keyed then Err(NoStructure) else Ok(GroupedRows(fields, Leaves(fields), Groups(fields), rows, delimiter))
      else if keyed then Ok(KeyedRows(Names(fields), rows, delimiter))
      else Ok(Rows(Names(fields), rows, delimiter))
    }

    function ReadHeader(i: nat): (r: Result<Line>)
      requires At(i)
      ensures r.Ok? ==> i <= r.value.next <= |indexes|
      ensures r.Ok? && r.value.header.ObjectStart? ==> i < r.value.next
      ensures r.Ok? && r.value.header.Declared? ==> i + 3 <= r.value.next && r.value.header.shape.Counted()
      ensures r.Ok? && r.value.header.PrimitiveValue? ==> Spans(r.value.header.val)
    {
      var t :- ReadToken(i, {COLON, OPEN_BRACKET, NEWLINE});
      var key := if t.span.start < t.span.end then Some(t.span) else None;
      if Char(t.next) == COLON then
        if key.Some? then Ok(Line(ObjectStart(t.span), t.next)) else Err(Syntax)
      else if Char(t.next) == NEWLINE then
        Ok(Line(if key.Some? then PrimitiveValue(t.span) else EmptyObject, t.next))
      else
        var (shape, next) :- ReadShape(t.next);
        Ok(Line(Declared(key, shape), next))
    }
  }

  /** The leaf names of a flat field list. */
  function Names(fields: seq<Field>): (names: seq<Span>)
    ensures |names| == |fields|
  {
    if fields == [] then [] else [fields[0].name] + Names(fields[1..])
  }
}
