/**
 * How deep the groups of a header nest, what that costs the header in structurals, and how deep a worklist still
 * goes: why containers never outnumber the structurals that have been read.
 */
module Nesting {
  import opened Common
  import opened Layout
  import opened Grammar
  import opened Worklist

  function Max(a: nat, b: nat): nat { if a < b then b else a }

  /** The most groups that any entry of a field list lies inside of. */
  function Nest(fields: seq<Field>): nat {
    if fields == [] then 0 else Max(NestOf(fields[0]), Nest(fields[1..]))
  }

  function NestOf(field: Field): nat {
    match field
    case Leaf(_) => 0
    case Group(_, children) => 1 + Nest(children)
  }

  function ShapeNest(shape: Shape): nat {
    if shape.GroupedRows? then Nest(shape.fields) else 0
  }

  function FormNest(form: Form): nat {
    if form.NestedFieldGroups? then Nest(form.fields) else 0
  }

  // ----- Headers -----

  /** Every group takes a `{` and a `}` of its own. */
  lemma {:induction false} FieldsNest(d: Document, i: nat, delimiter: Byte)
    requires d.At(i)
    ensures var r := d.ReadFields(i, delimiter); r.Ok? ==> i + 2 + Nest(r.value.fields) <= r.value.next
    decreases |d.indexes| - i, 0
  {
    hide Document.ReadToken, Document.EndField;
    var stops := {delimiter, CLOSE_BRACE, OPEN_BRACE};
    if d.Next(i).Ok? && d.ReadToken(i + 1, stops).Ok? {
      var t := d.ReadToken(i + 1, stops).value;
      if d.Char(t.next) != OPEN_BRACE {
        EndNests(d, Leaf(t.span), t.next, delimiter);
      } else if d.ReadFields(t.next, delimiter).Ok? {
        FieldsNest(d, t.next, delimiter);
        var inner := d.ReadFields(t.next, delimiter).value;
        EndNests(d, Group(t.span, inner.fields), inner.next, delimiter);
      }
    }
  }

  lemma {:induction false} EndNests(d: Document, field: Field, i: nat, delimiter: Byte)
    requires d.At(i)
    ensures var r := d.EndField(field, i, delimiter);
      r.Ok? ==> i < r.value.next && Nest(r.value.fields) + i + 1 <= Max(NestOf(field) + i + 1, r.value.next)
    decreases |d.indexes| - i, 1
  {
    hide Document.ReadFields;
    var r := d.EndField(field, i, delimiter);
    if d.Char(i) == CLOSE_BRACE {
      assert Nest([field][1..]) == 0;
    } else if r.Ok? {
      FieldsNest(d, i, delimiter);
      var rest := d.ReadFields(i, delimiter).value;
      assert r.value.fields[1..] == rest.fields;
    }
  }

  lemma {:induction false} ShapeNests(d: Document, i: nat)
    requires d.At(i)
    ensures d.ReadShape(i).Ok? ==> i + 3 + ShapeNest(d.ReadShape(i).value.0) <= d.ReadShape(i).value.1
  {
    hide Document.ReadBracket, Document.ReadFields;
    if d.ReadBracket(i).Ok? {
      var b := d.ReadBracket(i).value;
      FieldsNest(d, b.next, b.delimiter);
    }
  }

  /** A header is longer than its groups nest deep. */
  lemma {:induction false} HeaderNests(d: Document, i: nat)
    requires d.At(i)
    ensures d.ReadHeader(i).Ok? && d.ReadHeader(i).value.header.Declared? ==>
      i + 3 + ShapeNest(d.ReadHeader(i).value.header.shape) <= d.ReadHeader(i).value.next
  {
    hide Document.ReadShape;
    var t := d.ReadToken(i, {COLON, OPEN_BRACKET, NEWLINE});
    if t.Ok? {
      ShapeNests(d, t.value.next);
    }
  }

  lemma {:induction false} ChooseNests(d: Document, shape: Shape, i: nat)
    requires d.At(i)
    ensures Choose(d, shape, i).Ok? ==> FormNest(Choose(d, shape, i).value.form) == ShapeNest(shape)
  {
  }

  lemma {:induction false} EntryNests(fields: seq<Field>, k: nat)
    requires k < |fields|
    ensures NestOf(fields[k]) <= Nest(fields)
  {
    if k > 0 {
      EntryNests(fields[1..], k - 1);
    }
  }

  // ----- Worklists -----

  /** How many more containers than now will be open at once while the list is worked off. */
  ghost function Reach(work: seq<WorkItem>): nat {
    if work == [] then 0
    else
      var rest := Reach(work[..|work| - 1]);
      match work[|work| - 1]
      case EndScope => if rest > 0 then rest - 1 else 0
      case Process(field) => Max(NestOf(field), rest)
  }

  lemma {:induction false} ReachPop(rest: seq<WorkItem>, item: WorkItem)
    ensures Reach(rest + [item]) ==
      match item
      case EndScope => if Reach(rest) > 0 then Reach(rest) - 1 else 0
      case Process(field) => Max(NestOf(field), Reach(rest))
  {
    assert (rest + [item])[..|rest|] == rest;
  }

  lemma {:induction false} ReachQueue(rest: seq<WorkItem>, fields: seq<Field>)
    ensures Reach(rest + Queue(fields)) == Max(Nest(fields), Reach(rest))
    decreases |fields|
  {
    if fields == [] {
      assert rest + Queue(fields) == rest;
    } else {
      ReachQueue(rest, fields[1..]);
      ReachPop(rest + Queue(fields[1..]), Process(fields[0]));
      assert rest + Queue(fields) == rest + Queue(fields[1..]) + [Process(fields[0])];
    }
  }

  /** Opening a group uses up one level of what the list reaches. */
  lemma {:induction false} ReachGroup(rest: seq<WorkItem>, group: Field)
    requires group.Group?
    ensures 1 + Reach(rest + [EndScope] + Queue(group.children)) <= Reach(rest + [Process(group)])
  {
    ReachPop(rest, Process(group));
    ReachPop(rest, EndScope);
    ReachQueue(rest + [EndScope], group.children);
  }

  lemma {:induction false} ReachStarts(field: Field)
    ensures Reach([Process(field)]) == NestOf(field)
  {
    ReachPop([], Process(field));
    assert [] + [Process(field)] == [Process(field)];
  }
}
