/** What a header declares and what is read for it: member counts, row sizes and where rows end. */
module Counts {
  import opened Common
  import opened Tape
  import opened Layout
  import opened Grammar
  import WellFormed

  /** The count in the brackets of a header. */
  function DeclaredCount(shape: Shape): nat {
    match shape
    case Simple(count, _) => count
    case Empty => 0
    case KeyedRows(_, rows, _) => rows
    case Rows(_, rows, _) => rows
    case GroupedRows(_, _, _, rows, _) => rows
  }

  lemma {:induction false} ItemsCount(d: Document, count: nat, i: nat, delimiter: Byte)
    requires d.At(i) && count >= 1
    ensures ReadItems(d, count, i, delimiter).Ok? ==> |ReadItems(d, count, i, delimiter).value.nodes| == count
    decreases count
  {
    hide Document.ReadToken, Document.Infer;
    if count > 1 && d.ReadToken(i, {delimiter}).Ok? && d.Next(d.ReadToken(i, {delimiter}).value.next).Ok? {
      ItemsCount(d, count - 1, d.Next(d.ReadToken(i, {delimiter}).value.next).value, delimiter);
    }
  }

  /** The count that a form stands for; only the lenient reading of a table forgets it. */
  function FormCount(form: Form): nat
    requires !form.TabularArrayLenient?
  {
    match form
    case EmptyArray => 0
    case InlineArray(count, _) => count
    case BlockArray(count) => count
    case TabularObjects(_, rows, _) => rows
    case TabularArrayStrict(_, rows, _) => rows
    case NestedFieldGroups(_, _, rows, _) => rows
  }

  /** Formats whose declared count is held against what is read. */
  predicate Binding(d: Document, form: Form) { !form.TabularArrayLenient? && (form.BlockArray? ==> d.strict) }

  lemma {:induction false} ChooseKeepsCount(d: Document, shape: Shape, i: nat)
    requires d.At(i) && Choose(d, shape, i).Ok?
    ensures var form := Choose(d, shape, i).value.form;
      !form.TabularArrayLenient? && FormCount(form) == DeclaredCount(shape)
  {
  }

  lemma {:induction false} IndexAtLeast(d: Document, k: nat)
    requires d.Valid() && k < |d.indexes|
    ensures k <= d.indexes[k]
  {
    if k > 0 {
      IndexAtLeast(d, k - 1);
    }
  }

  /** Every row but the last moves the cursor, so there are no more rows than structurals. */
  lemma {:induction false} RowsAreFew(d: Document, form: Form, rows: nat, i: nat, ws: nat, indent: nat, floor: Option<nat>)
    requires d.At(i) && form.HasRows() && rows > 0
    ensures ReadRows(d, form, rows, i, ws, indent, floor).Ok? ==> i + rows - 1 <= |d.indexes|
    decreases rows
  {
    hide ReadRow, Document.ReadEol;
    if rows > 1 && ReadRows(d, form, rows, i, ws, indent, floor).Ok? {
      var row := ReadRow(d, form, i).value;
      var eol := d.ReadEol(row.next, ws, indent, floor, true).value;
      RowsAreFew(d, form, rows - 1, eol.i, eol.ws, indent, floor);
    }
  }

  /** No rows of nested groups are asked for as 2^64 rows, which no document has. */
  lemma {:induction false} NoRowsOfGroups(d: Document, form: Form, i: nat, ws: nat, indent: nat, inside: nat, floor: Option<nat>)
    requires d.At(i) && form.NestedFieldGroups? && form.rows == 0
    ensures ReadTable(d, form, i, ws, indent, inside, floor).Fail?
  {
    hide ReadRows, Grammar.ReadEol;
    IndexAtLeast(d, |d.indexes| - 1);
    if d.Next(i).Ok? && Grammar.ReadEol(d, i + 1, ws, indent, floor).Ok? {
      var eol := Grammar.ReadEol(d, i + 1, ws, indent, floor).value;
      RowsAreFew(d, form, RowCount(form), eol.i, eol.ws, inside, floor);
    }
  }

  /** In strict mode a container is read with as many members as were declared. */
  lemma {:induction false} ContentsCount(d: Document, form: Form, i: nat, ws: nat, indent: nat, floor: Option<nat>, isRoot: bool)
    requires d.At(i) && Binding(d, form) && form.Counted()
    ensures var r := ReadContents(d, form, i, ws, indent, floor, isRoot);
      r.Done? ==> r.n == FormCount(form)
  {
    hide ReadItems, ReadArrayItems, EndOfLine, Document.ReadEol, Grammar.ReadEol, ReadRows;
    match form {
      case InlineArray(count, delimiter) => ItemsCount(d, count, i, delimiter);
      case NestedFieldGroups(_, _, rows, _) =>
        if rows == 0 {
          NoRowsOfGroups(d, form, i, ws, indent, MemberIndent(d, form, indent, isRoot), floor);
        }
      case _ =>
    }
  }

  /**
   * A container declared with a key or as a list item is written with the declared length: always, except that a
   * block array is checked in strict mode only.
   */
  lemma {:induction false} FormLength(d: Document, form: Form, key: Option<Span>, i: nat, ws: nat, indent: nat, floor: Option<nat>, room: Option<int>)
    requires d.At(i) && Binding(d, form) && form.Counted()
    ensures var r := ReadDeclared(d, form, key, i, ws, indent, floor, room);
      r.Done? ==>
        var at := if key.Some? then 1 else 0;
        at < |r.nodes| && (r.nodes[at].Array? || r.nodes[at].Object?) && r.nodes[at].len == FormCount(form)
  {
    hide ReadContents, ReadOn;
    var k := ReadKey(d, form, key, i);
    if k.Ok? {
      ContentsCount(d, form, k.value.next, ws, indent, floor, false);
    }
  }

  /** So the length is the number in the brackets of its header. */
  lemma {:induction false} DeclaredLength(d: Document, shape: Shape, key: Option<Span>, i: nat, ws: nat, indent: nat, floor: Option<nat>, room: Option<int>)
    requires d.At(i) && shape.Counted() && Choose(d, shape, i).Ok?
    requires Choose(d, shape, i).value.form.BlockArray? ==> d.strict
    ensures var c := Choose(d, shape, i).value;
      var r := ReadDeclared(d, c.form, key, c.next, ws, indent, floor, room);
      r.Done? ==>
        var at := if key.Some? then 1 else 0;
        at < |r.nodes| && (r.nodes[at].Array? || r.nodes[at].Object?) && r.nodes[at].len == DeclaredCount(shape)
  {
    hide ReadDeclared;
    ChooseKeepsCount(d, shape, i);
    var c := Choose(d, shape, i).value;
    FormLength(d, c.form, key, c.next, ws, indent, floor, room);
  }

  /** The field of an object that a line with a header starts: its container has the length that the line declares. */
  lemma {:induction false} LineLength(d: Document, i: nat, ws: nat, indent: nat, floor: Option<nat>)
    requires d.At(i) && ws == indent && d.strict && d.ReadHeader(i).Ok? && d.ReadHeader(i).value.header.Declared?
    ensures var header := d.ReadHeader(i).value.header;
      var r := ReadFieldsOf(d, i, ws, indent, floor);
      r.Done? ==>
        var at := if header.key.Some? then 1 else 0;
        && at < |r.nodes| && (r.nodes[at].Array? || r.nodes[at].Object?)
        && r.nodes[at].len == DeclaredCount(header.shape)
  {
    hide Document.ReadHeader, ReadDeclared, Choose;
    var line := d.ReadHeader(i).value;
    if Choose(d, line.header.shape, line.next).Ok? {
      var c := Choose(d, line.header.shape, line.next).value;
      DeclaredLength(d, line.header.shape, line.header.key, line.next, ws, indent, floor, None);
      var r := ReadDeclared(d, c.form, line.header.key, c.next, ws, indent, floor, None);
      assert r.Done? ==> [] + r.nodes == r.nodes;
    }
  }

  /** The same for a container at the root. */
  lemma {:induction false} RootFormLength(d: Document, form: Form, i: nat, ws: nat, indent: nat)
    requires d.At(i) && Binding(d, form) && form.Counted()
    ensures var p := CloseRoot(d, form.IsObject(), ReadRoot(d, form, i, ws, indent, None));
      p.Ok? ==> (p.value.tape[0].Array? || p.value.tape[0].Object?) && p.value.tape[0].len == FormCount(form)
  {
    hide ReadContents;
    var k := ReadKey(d, form, None, i);
    if k.Ok? {
      ContentsCount(d, form, k.value.next, ws, indent, None, true);
    }
  }

  /** There a table is counted in strict mode only as well. */
  lemma {:induction false} RootLength(d: Document, shape: Shape, i: nat)
    requires d.At(i) && shape.Counted() && d.strict && ChooseRoot(d, shape, i).Ok?
    ensures var c := ChooseRoot(d, shape, i).value;
      var p := CloseRoot(d, c.form.IsObject(), ReadRoot(d, c.form, c.next, 0, 0, None));
      p.Ok? ==> (p.value.tape[0].Array? || p.value.tape[0].Object?) && p.value.tape[0].len == DeclaredCount(shape)
  {
    hide ReadRoot;
    ChooseKeepsCount(d, shape, i);
    var c := ChooseRoot(d, shape, i).value;
    RootFormLength(d, c.form, c.next, 0, 0);
  }

  // ----- Rows -----

  function RowSize(form: Form): nat
    requires form.HasRows()
  {
    match form
    case TabularObjects(headers, _, _) => 2 + 2 * |headers|
    case TabularArrayStrict(headers, _, _) => 1 + 2 * |headers|
    case NestedFieldGroups(fields, _, _, _) => 1 + 2 * Leaves(fields) + 2 * Groups(fields)
  }

  lemma {:induction false} RowHasSize(d: Document, form: Form, i: nat)
    requires d.At(i) && form.HasRows()
    ensures ReadRow(d, form, i).Ok? ==> |ReadRow(d, form, i).value.nodes| == RowSize(form)
  {
    hide ReadFlatRow, ReadBranch;
    if ReadRow(d, form, i).Ok? {
      match form
      case TabularObjects(headers, _, delimiter) =>
        var t := d.ReadToken(i, {COLON}).value;
        WellFormed.CellCount(d, headers, d.Next(t.next).value, delimiter, true);
      case TabularArrayStrict(headers, _, delimiter) => WellFormed.CellCount(d, headers, i, delimiter, false);
      case NestedFieldGroups(fields, _, _, delimiter) =>
        WellFormed.BranchIsFields(d, fields, 0, Leaves(fields), i, delimiter);
    }
  }

  /** A table of rows takes exactly the product of its rows and their size: two nodes for each leaf and each group. */
  lemma {:induction false} RowsHaveSize(d: Document, form: Form, rows: nat, i: nat, ws: nat, indent: nat, floor: Option<nat>)
    requires d.At(i) && form.HasRows() && rows > 0
    ensures var r := ReadRows(d, form, rows, i, ws, indent, floor);
      r.Ok? ==> |r.value.nodes| == rows * RowSize(form)
    decreases rows
  {
    hide ReadRow, RowSize, Document.ReadEol;
    if ReadRows(d, form, rows, i, ws, indent, floor).Ok? {
      RowHasSize(d, form, i);
      if rows > 1 {
        var row := ReadRow(d, form, i).value;
        var eol := d.ReadEol(row.next, ws, indent, floor, true).value;
        RowsHaveSize(d, form, rows - 1, eol.i, eol.ws, indent, floor);
        assert rows * RowSize(form) == RowSize(form) + (rows - 1) * RowSize(form);
      }
    }
  }

  /**
   * Where a branch of a row leaves the cursor: on the newline if it held the last leaf of the row, and just behind a
   * delimiter otherwise.
   */
  predicate LeftWell(d: Document, delimiter: Byte, last: bool, i: nat)
    requires d.At(i)
  {
    if last then d.Char(i) == NEWLINE else i > 1 && d.Char(i - 1) == delimiter
  }

  lemma {:induction false} OnlyLastLeafEndsLine(d: Document, fields: seq<Field>, seen: nat, leaves: nat, i: nat, delimiter: Byte)
    requires d.At(i) && seen + Leaves(fields) <= leaves && Leaves(fields) > 0
    ensures var r := ReadBranch(d, fields, seen, leaves, i, delimiter);
      r.Ok? ==> LeftWell(d, delimiter, seen + Leaves(fields) == leaves, r.value.next)
    decreases fields, 0
  {
    hide Document.ReadToken, Document.Infer, ReadField;
    var r := ReadBranch(d, fields, seen, leaves, i, delimiter);
    if r.Ok? {
      var entry := ReadEntry(d, fields[0], seen, leaves, i, delimiter).value;
      FieldSees(d, fields[0], seen, leaves, i, delimiter);
      FieldLeaves(fields);
      if LeavesOf(fields[0]) > 0 {
        FieldEndsLine(d, fields[0], seen, leaves, i, delimiter);
      }
      if Leaves(fields[1..]) > 0 {
        OnlyLastLeafEndsLine(d, fields[1..], entry.seen, leaves, entry.next, delimiter);
      } else {
        NoLeavesNoMove(d, fields[1..], entry.seen, leaves, entry.next, delimiter);
      }
    }
  }

  function LeavesOf(field: Field): nat { match field case Leaf(_) => 1 case Group(_, c) => Leaves(c) }

  lemma {:induction false} FieldLeaves(fields: seq<Field>)
    requires fields != []
    ensures Leaves(fields) == LeavesOf(fields[0]) + Leaves(fields[1..])
  {
  }

  lemma {:induction false} FieldSees(d: Document, field: Field, seen: nat, leaves: nat, i: nat, delimiter: Byte)
    requires d.At(i)
    ensures var r := ReadField(d, field, seen, leaves, i, delimiter);
      r.Ok? ==> r.value.seen == seen + LeavesOf(field)
  {
    hide Document.ReadToken, Document.Infer, ReadBranch;
    if field.Group? {
      WellFormed.BranchIsFields(d, field.children, seen, leaves, i, delimiter);
    }
  }

  lemma {:induction false} FieldEndsLine(d: Document, field: Field, seen: nat, leaves: nat, i: nat, delimiter: Byte)
    requires d.At(i) && seen + LeavesOf(field) <= leaves && LeavesOf(field) > 0
    ensures var r := ReadField(d, field, seen, leaves, i, delimiter);
      r.Ok? ==> LeftWell(d, delimiter, seen + LeavesOf(field) == leaves, r.value.next)
    decreases field, 1
  {
    hide Document.Infer, ReadBranch, Document.ReadToken;
    var r := ReadField(d, field, seen, leaves, i, delimiter);
    if field.Group? {
      OnlyLastLeafEndsLine(d, field.children, seen, leaves, i, delimiter);
      assert r.Ok? ==> r.value.next == ReadBranch(d, field.children, seen, leaves, i, delimiter).value.next;
      assert LeavesOf(field) == Leaves(field.children);
    } else if r.Ok? {
      var last := seen + 1 == leaves;
      var t := d.ReadToken(i, if last then {NEWLINE} else {delimiter}).value;
      assert d.Char(t.next) == if last then NEWLINE else delimiter;
      assert r.value.next == if last then t.next else t.next + 1;
    }
  }

  /** Groups without leaves read nothing. */
  lemma {:induction false} NoLeavesNoMove(d: Document, fields: seq<Field>, seen: nat, leaves: nat, i: nat, delimiter: Byte)
    requires d.At(i) && Leaves(fields) == 0
    ensures var r := ReadBranch(d, fields, seen, leaves, i, delimiter);
      r.Ok? ==> r.value.next == i
    decreases fields, 0
  {
    if fields != [] {
      FieldLeaves(fields);
      var r := ReadBranch(d, fields, seen, leaves, i, delimiter);
      if r.Ok? {
        var entry := ReadEntry(d, fields[0], seen, leaves, i, delimiter).value;
        var children := fields[0].children;
        NoLeavesNoMove(d, children, seen, leaves, i, delimiter);
        assert entry.next == ReadField(d, fields[0], seen, leaves, i, delimiter).value.next;
        assert entry.next == ReadBranch(d, children, seen, leaves, i, delimiter).value.next;
        NoLeavesNoMove(d, fields[1..], entry.seen, leaves, entry.next, delimiter);
        assert r.value.next == ReadBranch(d, fields[1..], entry.seen, leaves, entry.next, delimiter).value.next;
      }
    }
  }
}
