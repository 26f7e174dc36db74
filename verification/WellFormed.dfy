/**
 * What the grammar reads is one well-formed value exactly when every key got a value and every member of an
 * object a key. The lemmas follow the grammar, function by function.
 */
module WellFormed {
  import opened Common
  import opened Tape
  import opened Layout
  import opened Grammar

  predicate IsLeaf(v: Node) { v.String? || v.Scalar? || v == Array(0, 0) || v == Object(0, 0) }

  /** The nodes read for a container are a body for it exactly when the reading was clean. */
  predicate Agrees(isObject: bool, r: Rest) {
    r.Done? ==> (IsBody(isObject, r.nodes, r.n) <==> r.clean)
  }

  /** The same with the key in front that the nodes are the value of. */
  predicate AgreesAfterKey(key: Str, r: Rest) {
    r.Done? ==> (IsFields([String(key)] + r.nodes, r.n + 1) <==> r.clean)
  }

  lemma LeafField(key: Str, v: Node, rest: seq<Node>, n: nat)
    requires IsLeaf(v)
    ensures IsFields([String(key), v] + rest, n + 1) <==> IsFields(rest, n)
  {
    FieldFirst(key, [v], rest, n);
    assert [String(key), v] + rest == [String(key)] + [v] + rest;
  }

  lemma LeafItem(v: Node, rest: seq<Node>, n: nat)
    requires IsLeaf(v)
    ensures IsItems([v] + rest, n + 1) <==> IsItems(rest, n)
  {
    ItemFirst([v], rest, n);
  }

  lemma BareKey(key: Str)
    ensures !IsFields([String(key)] + [], 1)
  {
  }

  lemma NoMembers()
    ensures IsFields([], 0) && IsItems([], 0)
  {
  }

  /** A closed container among fields or items: it must be a value, and so must what follows. */
  lemma ClosedField(key: Str, isObject: bool, body: seq<Node>, m: nat, rest: seq<Node>, n: nat)
    ensures IsFields([String(key)] + (Closed(isObject, body, m) + rest), n + 1) <==> IsBody(isObject, body, m) && IsFields(rest, n)
  {
    var chunk := Closed(isObject, body, m);
    FieldFirst(key, chunk, rest, n);
    ClosedIsValue(isObject, body, m);
    assert [String(key)] + (chunk + rest) == [String(key)] + chunk + rest;
  }

  lemma ClosedItem(isObject: bool, body: seq<Node>, m: nat, rest: seq<Node>, n: nat)
    ensures IsItems(Closed(isObject, body, m) + rest, n + 1) <==> IsBody(isObject, body, m) && IsItems(rest, n)
  {
    ItemFirst(Closed(isObject, body, m), rest, n);
    ClosedIsValue(isObject, body, m);
  }

  // ----- Rows -----

  lemma {:induction false} CellsAreFields(d: Document, headers: seq<Span>, k: nat, i: nat, delimiter: Byte, keyed: bool)
    requires d.At(i) && k < |headers|
    ensures var r := ReadCells(d, headers, k, i, delimiter, keyed);
      r.Ok? ==> IsFields(r.value.nodes, |headers| - k) && |r.value.nodes| == 2 * (|headers| - k)
    decreases |headers| - k
  {
    hide IsFields, Document.ReadToken, Document.Infer, Document.Quote;
    var r := ReadCells(d, headers, k, i, delimiter, keyed);
    if r.Ok? {
      var key := d.Quote(headers[k]).value.text;
      if k + 1 < |headers| {
        var t := d.ReadToken(i, {delimiter}).value;
        CellsAreFields(d, headers, k + 1, d.Next(t.next).value, delimiter, keyed);
        LeafField(key, r.value.nodes[1], r.value.nodes[2..], |headers| - k - 1);
        assert r.value.nodes == [String(key), r.value.nodes[1]] + r.value.nodes[2..];
      } else {
        LeafField(key, r.value.nodes[1], [], 0);
        NoMembers();
        assert r.value.nodes == [String(key), r.value.nodes[1]] + [];
      }
    }
  }

  lemma FlatRowIsValue(d: Document, headers: seq<Span>, i: nat, delimiter: Byte, keyed: bool)
    requires d.At(i)
    ensures var r := ReadFlatRow(d, headers, i, delimiter, keyed);
      r.Ok? ==> IsValue(r.value.nodes) && r.value.nodes[0] == Object(|headers|, 2 * |headers|)
  {
    hide IsFields, IsItems, IsValue, ReadCells;
    if headers != [] && ReadCells(d, headers, 0, i, delimiter, keyed).Ok? {
      CellsAreFields(d, headers, 0, i, delimiter, keyed);
      ClosedIsValue(true, ReadCells(d, headers, 0, i, delimiter, keyed).value.nodes, |headers|);
    }
  }

  /** A branch is a body of one field for each of its entries, and takes two nodes for each leaf and each group below it. */
  lemma {:induction false} BranchIsFields(d: Document, fields: seq<Field>, seen: nat, leaves: nat, i: nat, delimiter: Byte)
    requires d.At(i)
    ensures var r := ReadBranch(d, fields, seen, leaves, i, delimiter);
      r.Ok? ==>
        && IsFields(r.value.nodes, |fields|)
        && |r.value.nodes| == 2 * Leaves(fields) + 2 * Groups(fields)
        && r.value.seen == seen + Leaves(fields)
    decreases fields, 0
  {
    hide IsFields;
    NoMembers();
    var r := ReadBranch(d, fields, seen, leaves, i, delimiter);
    if r.Ok? && fields != [] {
      assert ReadEntry(d, fields[0], seen, leaves, i, delimiter).Ok?;
      var key := d.Quote(fields[0].name).value.text;
      FieldIsValue(d, fields[0], seen, leaves, i, delimiter);
      var value := ReadField(d, fields[0], seen, leaves, i, delimiter).value;
      BranchIsFields(d, fields[1..], value.seen, leaves, value.next, delimiter);
      var rest := ReadBranch(d, fields[1..], value.seen, leaves, value.next, delimiter).value;
      FieldFirst(key, value.nodes, rest.nodes, |fields| - 1);
    }
  }

  lemma {:induction false} FieldIsValue(d: Document, field: Field, seen: nat, leaves: nat, i: nat, delimiter: Byte)
    requires d.At(i)
    ensures var r := ReadField(d, field, seen, leaves, i, delimiter);
      r.Ok? ==>
        && IsValue(r.value.nodes)
        && r.value.nodes[0].Count() == |r.value.nodes|
        && |r.value.nodes| == 2 * Leaves([field]) + 2 * Groups([field]) - 1
        && r.value.seen == seen + Leaves([field])
    decreases field, 1
  {
    var r := ReadField(d, field, seen, leaves, i, delimiter);
    if r.Ok? && field.Group? {
      BranchIsFields(d, field.children, seen, leaves, i, delimiter);
      ClosedIsValue(true, ReadBranch(d, field.children, seen, leaves, i, delimiter).value.nodes, |field.children|);
    }
  }

  /** A row is one more member in front of the others. */
  lemma RowFirst(d: Document, form: Form, i: nat, rest: seq<Node>, n: nat)
    requires d.At(i) && form.HasRows()
    ensures var r := ReadRow(d, form, i);
      r.Ok? ==> (IsBody(form.IsObject(), r.value.nodes + rest, n + 1) <==> IsBody(form.IsObject(), rest, n))
  {
    hide IsFields, IsItems;
    var r := ReadRow(d, form, i);
    if r.Ok? {
      match form {
        case TabularObjects(headers, _, delimiter) =>
          var t := d.ReadToken(i, {COLON}).value;
          var j := d.Next(t.next).value;
          FlatRowIsValue(d, headers, j, delimiter, true);
          CellCount(d, headers, j, delimiter, true);
          var row := ReadFlatRow(d, headers, j, delimiter, true).value;
          FieldFirst(d.Quote(t.span).value.text, row.nodes, rest, n);
        case TabularArrayStrict(headers, _, delimiter) =>
          FlatRowIsValue(d, headers, i, delimiter, false);
          CellCount(d, headers, i, delimiter, false);
          ItemFirst(r.value.nodes, rest, n);
        case NestedFieldGroups(fields, _, _, delimiter) =>
          BranchIsFields(d, fields, 0, Leaves(fields), i, delimiter);
          ClosedItem(true, ReadBranch(d, fields, 0, Leaves(fields), i, delimiter).value.nodes, |fields|, rest, n);
      }
    }
  }

  lemma CellCount(d: Document, headers: seq<Span>, i: nat, delimiter: Byte, keyed: bool)
    requires d.At(i)
    ensures var r := ReadFlatRow(d, headers, i, delimiter, keyed);
      r.Ok? ==> |r.value.nodes| == 1 + 2 * |headers| && r.value.nodes[0].Count() == |r.value.nodes|
  {
    if headers != [] && ReadCells(d, headers, 0, i, delimiter, keyed).Ok? {
      CellsAreFields(d, headers, 0, i, delimiter, keyed);
    }
  }

  lemma {:induction false} NoBody(isObject: bool)
    ensures IsBody(isObject, [], 0)
  {
    NoMembers();
  }

  lemma {:induction false} RowsAreBody(d: Document, form: Form, rows: nat, i: nat, ws: nat, indent: nat, floor: Option<nat>)
    requires d.At(i) && form.HasRows() && rows > 0
    ensures var r := ReadRows(d, form, rows, i, ws, indent, floor);
      r.Ok? ==> IsBody(form.IsObject(), r.value.nodes, rows)
    decreases rows
  {
    hide IsFields, IsItems, IsBody, ReadRow, Document.ReadEol;
    NoBody(form.IsObject());
    var r := ReadRows(d, form, rows, i, ws, indent, floor);
    if r.Ok? {
      var row := ReadRow(d, form, i).value;
      if rows == 1 {
        RowFirst(d, form, i, [], 0);
        assert row.nodes + [] == row.nodes;
      } else {
        var eol := d.ReadEol(row.next, ws, indent, floor, true).value;
        RowsAreBody(d, form, rows - 1, eol.i, eol.ws, indent, floor);
        RowFirst(d, form, i, ReadRows(d, form, rows - 1, eol.i, eol.ws, indent, floor).value.nodes, rows - 1);
      }
    }
  }

  lemma {:induction false} AnyRowsAreItems(d: Document, headers: seq<Span>, delimiter: Byte, i: nat, ws: nat, indent: nat, floor: Option<nat>)
    requires d.At(i)
    ensures var r := ReadAnyRows(d, headers, delimiter, i, ws, indent, floor);
      r.Ok? ==> IsItems(r.value.nodes, r.value.n)
    decreases |d.indexes| - i
  {
    hide IsItems, ReadFlatRow;
    NoMembers();
    var r := ReadAnyRows(d, headers, delimiter, i, ws, indent, floor);
    if r.Ok? {
      FlatRowIsValue(d, headers, i, delimiter, false);
      CellCount(d, headers, i, delimiter, false);
      var row := ReadFlatRow(d, headers, i, delimiter, false).value;
      var eol := d.ReadEol(row.next, ws, indent, floor, true).value;
      if eol.state == Sibling {
        AnyRowsAreItems(d, headers, delimiter, eol.i, eol.ws, indent, floor);
        var rest := ReadAnyRows(d, headers, delimiter, eol.i, eol.ws, indent, floor).value;
        ItemFirst(row.nodes, rest.nodes, rest.n);
      } else {
        ItemFirst(row.nodes, [], 0);
        assert row.nodes + [] == row.nodes;
      }
    }
  }

  lemma {:induction false} ItemsAreItems(d: Document, count: nat, i: nat, delimiter: Byte)
    requires d.At(i)
    ensures var r := ReadItems(d, count, i, delimiter);
      r.Ok? ==> IsItems(r.value.nodes, |r.value.nodes|) && |r.value.nodes| == (if count > 1 then count else 1)
    decreases count
  {
    hide IsItems;
    NoMembers();
    var r := ReadItems(d, count, i, delimiter);
    if r.Ok? {
      if count > 1 {
        var t := d.ReadToken(i, {delimiter}).value;
        ItemsAreItems(d, count - 1, d.Next(t.next).value, delimiter);
        LeafItem(r.value.nodes[0], r.value.nodes[1..], |r.value.nodes| - 1);
        assert [r.value.nodes[0]] + r.value.nodes[1..] == r.value.nodes;
      } else {
        LeafItem(r.value.nodes[0], [], 0);
        assert r.value.nodes + [] == r.value.nodes;
      }
    }
  }

  // ----- Containers -----

  lemma {:induction false} ContentsAgree(d: Document, form: Form, i: nat, ws: nat, indent: nat, floor: Option<nat>, isRoot: bool)
    requires d.At(i)
    ensures Agrees(form.IsObject(), ReadContents(d, form, i, ws, indent, floor, isRoot))
    decreases |d.indexes| - i, 2
  {
    hide IsFields, IsItems;
    NoMembers();
    match form {
      case EmptyArray =>
      case InlineArray(count, delimiter) => ItemsAreItems(d, count, i, delimiter);
      case BlockArray(count) =>
        var inside := MemberIndent(d, form, indent, isRoot);
        var eol := ReadEol(d, i, ws, indent, floor);
        if eol.Ok? {
          ArrayItemsAgree(d, eol.value.i, eol.value.ws, inside, BlockFloor(floor, inside, isRoot), Some(count));
        }
      case _ => TableAgrees(d, form, i, ws, indent, MemberIndent(d, form, indent, isRoot), floor);
    }
  }

  lemma TableAgrees(d: Document, form: Form, i: nat, ws: nat, indent: nat, inside: nat, floor: Option<nat>)
    requires d.At(i) && (form.HasRows() || form.TabularArrayLenient?)
    ensures Agrees(form.IsObject(), ReadTable(d, form, i, ws, indent, inside, floor))
  {
    hide IsFields, IsItems;
    NoMembers();
    if d.Next(i).Ok? && ReadEol(d, d.Next(i).value, ws, indent, floor).Ok? {
      var eol := ReadEol(d, d.Next(i).value, ws, indent, floor).value;
      if form.TabularArrayLenient? {
        AnyRowsAreItems(d, form.headers, form.delimiter, eol.i, eol.ws, inside, floor);
      } else if RowCount(form) > 0 {
        RowsAreBody(d, form, RowCount(form), eol.i, eol.ws, inside, floor);
      }
    }
  }

  lemma {:induction false} ReadOnAgrees(d: Document, keyed: bool, i: nat, ws: nat, indent: nat, floor: Option<nat>, room: Option<int>)
    requires d.At(i)
    ensures Agrees(keyed, ReadOn(d, keyed, i, ws, indent, floor, room))
    decreases |d.indexes| - i, 1
  {
    hide IsFields, IsItems;
    NoMembers();
    if keyed || i < |d.indexes| {
      var eol := if d.Char(i) == NEWLINE then d.ReadEol(i, ws, indent, floor, false) else Measured(d, i, ws, indent);
      if eol.Ok? && eol.value.state == Sibling {
        if keyed {
          FieldsAgree(d, eol.value.i, eol.value.ws, indent, floor);
        } else {
          ArrayItemsAgree(d, eol.value.i, eol.value.ws, indent, floor, room);
        }
      }
    }
  }

  /** Behind a key the nodes are fields; without one they are an item, and can never be fields. */
  lemma {:induction false} DeclaredAgrees(d: Document, form: Form, key: Option<Span>, i: nat, ws: nat, indent: nat, floor: Option<nat>, room: Option<int>)
    requires d.At(i)
    ensures var r := ReadDeclared(d, form, key, i, ws, indent, floor, room);
      if key.Some? then Agrees(true, r)
      else r.Done? ==> (IsItems(r.nodes, r.n + 1) <==> r.clean) && r.nodes != [] && !r.nodes[0].String?
    decreases |d.indexes| - i, 3
  {
    hide IsFields, IsItems, ReadContents, ReadOn;
    var r := ReadDeclared(d, form, key, i, ws, indent, floor, room);
    if r.Done? {
      var k := ReadKey(d, form, key, i).value;
      ContentsAgree(d, form, k.next, ws, indent, floor, false);
      var inner := ReadContents(d, form, k.next, ws, indent, floor, false);
      ReadOnAgrees(d, key.Some?, inner.i, inner.ws, indent, floor, room);
      var rest := ReadOn(d, key.Some?, inner.i, inner.ws, indent, floor, room);
      var chunk := Closed(form.IsObject(), inner.nodes, inner.n);
      if rest.Done? {
        if key.Some? {
          ClosedField(k.nodes[0].text, form.IsObject(), inner.nodes, inner.n, rest.nodes, rest.n);
          assert k.nodes == [String(k.nodes[0].text)];
          Regroup(k.nodes, chunk, rest.nodes);
        } else {
          ClosedItem(form.IsObject(), inner.nodes, inner.n, rest.nodes, rest.n);
          Regroup([], chunk, rest.nodes);
          assert [] + (chunk + rest.nodes) == chunk + rest.nodes;
        }
      }
    }
  }

  lemma {:induction false} Regroup(a: seq<Node>, b: seq<Node>, c: seq<Node>)
    ensures a + b + c == a + (b + c)
  {
  }

  lemma {:induction false} FieldsAgree(d: Document, i: nat, ws: nat, indent: nat, floor: Option<nat>)
    requires d.At(i) && ws == indent
    ensures Agrees(true, ReadFieldsOf(d, i, ws, indent, floor))
    decreases |d.indexes| - i, 0
  {
    hide ReadDeclared, ReadPair;
    var line := d.ReadHeader(i);
    if line.Ok? {
      match line.value.header {
        case ObjectStart(name) => PairAgrees(d, name, line.value.next, ws, indent, floor);
        case Declared(key, shape) =>
          if Choose(d, shape, line.value.next).Ok? {
            var c := Choose(d, shape, line.value.next).value;
            DeclaredAgrees(d, c.form, key, c.next, ws, indent, floor, None);
            var r := ReadDeclared(d, c.form, key, c.next, ws, indent, floor, None);
            assert r.Done? ==> [] + r.nodes == r.nodes;
          }
        case _ =>
      }
    }
  }

  lemma {:induction false} PairAgrees(d: Document, name: Span, i: nat, ws: nat, indent: nat, floor: Option<nat>)
    requires d.At(i)
    ensures Agrees(true, ReadPair(d, name, i, ws, indent, floor))
    decreases |d.indexes| - i, 0
  {
    hide IsFields, IsItems, ReadPairValue;
    if d.Quote(name).Ok? && d.Next(i).Ok? {
      PairValueAgrees(d, d.Quote(name).value.text, d.Next(i).value, ws, indent, floor);
    }
  }

  lemma {:induction false} PairValueAgrees(d: Document, key: Str, i: nat, ws: nat, indent: nat, floor: Option<nat>)
    requires d.At(i)
    ensures AgreesAfterKey(key, ReadPairValue(d, i, ws, indent, floor))
    decreases |d.indexes| - i, 1
  {
    hide AgreesAfterKey, ReadValueBelow, ReadValueBeside;
    if d.Char(i) == NEWLINE {
      ValueBelowAgrees(d, key, i, ws, indent, floor);
    } else {
      ValueBesideAgrees(d, key, i, ws, indent, floor);
    }
  }

  lemma {:induction false} ValueBelowAgrees(d: Document, key: Str, i: nat, ws: nat, indent: nat, floor: Option<nat>)
    requires d.At(i)
    ensures AgreesAfterKey(key, ReadValueBelow(d, i, ws, indent, floor))
    decreases |d.indexes| - i, 0
  {
    hide IsFields, IsItems, ReadFieldsOf, ReadOn;
    AloneAgrees(key, Object(0, 0));
    if i < |d.indexes| && d.ReadEol(i, ws, indent, floor, false).Ok? {
      var eol := d.ReadEol(i, ws, indent, floor, false).value;
      match eol.state {
        case Nested =>
          FieldsAgree(d, eol.i, eol.ws, indent + d.indentSize, floor);
          var inner := ReadFieldsOf(d, eol.i, eol.ws, indent + d.indentSize, floor);
          if inner.Done? {
            ReadOnAgrees(d, true, inner.i, inner.ws, indent, floor, None);
            var rest := ReadOn(d, true, inner.i, inner.ws, indent, floor, None);
            if rest.Done? {
              ClosedField(key, true, inner.nodes, inner.n, rest.nodes, rest.n);
            }
          }
        case Sibling =>
          FieldsAgree(d, eol.i, eol.ws, indent, floor);
          SimplePair(key, Object(0, 0), ReadFieldsOf(d, eol.i, eol.ws, indent, floor));
        case CloseScope => BareKey(key);
      }
    }
  }

  lemma {:induction false} ValueBesideAgrees(d: Document, key: Str, i: nat, ws: nat, indent: nat, floor: Option<nat>)
    requires d.At(i)
    ensures AgreesAfterKey(key, ReadValueBeside(d, i, ws, indent, floor))
    decreases |d.indexes| - i, 0
  {
    hide IsFields, IsItems, ReadFieldsOf, Document.ReadToken, InferValue;
    if d.ReadToken(i, {NEWLINE}).Ok? {
      var t := d.ReadToken(i, {NEWLINE}).value;
      if InferValue(d, t.span).Ok? {
        var v := InferValue(d, t.span).value;
        AloneAgrees(key, v);
        if t.next < |d.indexes| && d.ReadEol(t.next, ws, indent, floor, false).Ok? {
          var eol := d.ReadEol(t.next, ws, indent, floor, false).value;
          if eol.state == Sibling {
            FieldsAgree(d, eol.i, eol.ws, indent, floor);
            SimplePair(key, v, ReadFieldsOf(d, eol.i, eol.ws, indent, floor));
          }
        }
      }
    }
  }

  lemma {:induction false} AloneAgrees(key: Str, v: Node)
    requires IsLeaf(v)
    ensures IsFields([String(key)] + [v], 1)
  {
    hide IsFields;
    LeafField(key, v, [], 0);
    NoMembers();
    assert [String(key)] + [v] == [String(key), v] + [];
  }

  lemma SimplePair(key: Str, v: Node, rest: Rest)
    requires IsLeaf(v) && Agrees(true, rest)
    ensures AgreesAfterKey(key, rest.Prepend([v], 0, true))
  {
    if rest.Done? {
      LeafField(key, v, rest.nodes, rest.n);
      assert [String(key)] + ([v] + rest.nodes) == [String(key), v] + rest.nodes;
    }
  }

  lemma {:induction false} NothingAgrees()
    ensures forall e :: Agrees(false, Fail(e))
  {
  }

  lemma {:induction false} ArrayItemsAgree(d: Document, i: nat, ws: nat, indent: nat, floor: Option<nat>, room: Option<int>)
    requires d.At(i) && ws == indent
    ensures Agrees(false, ReadArrayItems(d, i, ws, indent, floor, room))
    decreases |d.indexes| - i, 0
  {
    hide IsFields, IsItems, ReadItem, Document.ReadHeader, Agrees;
    NothingAgrees();
    if d.Next(i).Ok? && d.ReadHeader(d.Next(i).value).Ok? {
      var left := if room.Some? then Some(room.value - 1) else None;
      var line := d.ReadHeader(d.Next(i).value).value;
      ItemAgrees(d, line.header, line.next, ws, indent, floor, left);
    }
  }

  lemma {:induction false} ItemAgrees(d: Document, header: Header, i: nat, ws: nat, indent: nat, floor: Option<nat>, left: Option<int>)
    requires d.At(i) && (header.PrimitiveValue? ==> d.Spans(header.val))
    ensures Agrees(false, ReadItem(d, header, i, ws, indent, floor, left))
    decreases |d.indexes| - i, 4
  {
    hide IsFields, IsItems, ReadDeclared, ReadPair, NextItem, EndItem;
    match header {
      case PrimitiveValue(val) =>
        if d.Infer(val).Ok? {
          NextItemAgrees(d, d.Infer(val).value, i, ws, indent, floor, left);
        }
      case EmptyObject => NextItemAgrees(d, Object(0, 0), i, ws, indent, floor, left);
      case ObjectStart(name) =>
        PairAgrees(d, name, i, ws, indent + 2, floor);
        EndItemAgrees(d, ReadPair(d, name, i, ws, indent + 2, floor), indent, floor, left);
      case Declared(key, shape) =>
        if Choose(d, shape, i).Ok? {
          var c := Choose(d, shape, i).value;
          if key.Some? {
            DeclaredAgrees(d, c.form, key, c.next, ws, indent + d.indentSize, floor, None);
            EndItemAgrees(d, ReadDeclared(d, c.form, key, c.next, ws, indent + d.indentSize, floor, None), indent, floor, left);
          } else {
            DeclaredAgrees(d, c.form, key, c.next, ws, indent, floor, left);
            var r := ReadDeclared(d, c.form, key, c.next, ws, indent, floor, left);
            assert r.Done? ==> [] + r.nodes == r.nodes;
          }
        }
    }
  }

  lemma {:induction false} NextItemAgrees(d: Document, item: Node, i: nat, ws: nat, indent: nat, floor: Option<nat>, left: Option<int>)
    requires d.At(i) && IsLeaf(item)
    ensures Agrees(false, NextItem(d, item, i, ws, indent, floor, left))
    decreases |d.indexes| - i, 0
  {
    hide IsFields, IsItems, ReadArrayItems;
    NoMembers();
    LeafItem(item, [], 0);
    assert [item] + [] == [item];
    if d.ReadEol(i, ws, indent, floor, false).Ok? {
      var eol := d.ReadEol(i, ws, indent, floor, false).value;
      if eol.state == Sibling {
        ArrayItemsAgree(d, eol.i, eol.ws, indent, floor, left);
        var rest := ReadArrayItems(d, eol.i, eol.ws, indent, floor, left);
        if rest.Done? {
          LeafItem(item, rest.nodes, rest.n);
        }
      }
    }
  }

  lemma {:induction false} EndItemAgrees(d: Document, inner: Rest, indent: nat, floor: Option<nat>, left: Option<int>)
    requires d.Valid() && (inner.Done? ==> d.At(inner.i)) && Agrees(true, inner)
    ensures Agrees(false, EndItem(d, inner, indent, floor, left))
    decreases if inner.Done? then |d.indexes| - inner.i else 0, 2
  {
    hide IsFields, IsItems, ReadOn;
    if inner.Done? {
      ReadOnAgrees(d, false, inner.i, inner.ws, indent, floor, left);
      var rest := ReadOn(d, false, inner.i, inner.ws, indent, floor, left);
      if rest.Done? {
        ClosedItem(true, inner.nodes, inner.n, rest.nodes, rest.n);
      }
    }
  }

  /**
   * A document that is accepted leaves exactly one well-formed value on the tape if and only if no key was left
   * bare by a dedent and no header inside an object came without a key.
   */
  lemma ParsedIsValue(d: Document)
    requires d.Valid()
    ensures var r := Parse(d); r.Ok? ==> (IsValue(r.value.tape) <==> r.value.clean)
  {
    hide IsFields, IsItems, ReadDeclared, ReadPair, ReadContents;
    if Start(d).Ok? && d.ReadHeader(Start(d).value).Ok? {
      var line := d.ReadHeader(Start(d).value).value;
      match line.header {
        case PrimitiveValue(val) =>
        case EmptyObject =>
        case ObjectStart(name) =>
          PairAgrees(d, name, line.next, 0, 0, None);
          RootAgrees(d, true, ReadPair(d, name, line.next, 0, 0, None));
        case Declared(key, shape) =>
          if ChooseRoot(d, shape, line.next).Ok? {
            var c := ChooseRoot(d, shape, line.next).value;
            if key.Some? {
              DeclaredAgrees(d, c.form, key, c.next, 0, 0, None, None);
              RootAgrees(d, true, ReadDeclared(d, c.form, key, c.next, 0, 0, None, None));
            } else {
              if ReadKey(d, c.form, key, c.next).Ok? {
                ContentsAgree(d, c.form, ReadKey(d, c.form, key, c.next).value.next, 0, 0, None, true);
              }
              RootAgrees(d, c.form.IsObject(), ReadRoot(d, c.form, c.next, 0, 0, None));
            }
          }
      }
    }
  }

  lemma RootAgrees(d: Document, isObject: bool, r: Rest)
    requires d.Valid() && (r.Done? ==> d.At(r.i)) && Agrees(isObject, r)
    ensures var p := CloseRoot(d, isObject, r); p.Ok? ==> (IsValue(p.value.tape) <==> p.value.clean)
  {
    hide IsFields, IsItems;
    if r.Done? {
      ClosedIsValue(isObject, r.nodes, r.n);
    }
  }
}
