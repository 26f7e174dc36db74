/** The read cursor of `build_tape` over the structural positions, and the reading of one line's header. */
module Cursors {
  import opened Common
  import opened Layout

  /** Field lists as the reader keeps them: names while the list is flat, a tree once a group shows up. */
  datatype Fields = Flat(names: seq<Span>) | NestedFields(entries: seq<Field>, leafCount: nat, nestedCount: nat) {
    ghost predicate Reads(fields: seq<Field>) {
      match this
      case Flat(names) => fields == AsLeaves(names)
      case NestedFields(entries, leafCount, nestedCount) =>
        entries == fields && leafCount == Leaves(fields) && nestedCount == Groups(fields) > 0
    }
  }

  function AsLeaves(names: seq<Span>): (fields: seq<Field>)
    ensures |fields| == |names|
  {
    if names == [] then [] else AsLeaves(names[..|names| - 1]) + [Leaf(names[|names| - 1])]
  }

  lemma {:induction false} CountAppend(a: seq<Field>, b: seq<Field>)
    ensures Leaves(a + b) == Leaves(a) + Leaves(b) && Groups(a + b) == Groups(a) + Groups(b)
  {
    if a == [] {
      assert a + b == b;
    } else {
      assert (a + b)[1..] == a[1..] + b;
      CountAppend(a[1..], b);
    }
  }

  lemma {:induction false} NamesAppend(a: seq<Field>, b: seq<Field>)
    ensures Names(a + b) == Names(a) + Names(b)
  {
    if a == [] {
      assert a + b == b;
    } else {
      assert (a + b)[1..] == a[1..] + b;
      NamesAppend(a[1..], b);
    }
  }

  lemma {:induction false} FlatCounts(names: seq<Span>)
    ensures Leaves(AsLeaves(names)) == |names| && Groups(AsLeaves(names)) == 0 && Names(AsLeaves(names)) == names
  {
    if names != [] {
      var front, last := names[..|names| - 1], names[|names| - 1];
      FlatCounts(front);
      CountAppend(AsLeaves(front), [Leaf(last)]);
      NamesAppend(AsLeaves(front), [Leaf(last)]);
      assert Names([Leaf(last)]) == [last];
    }
  }

  /** A list whose first entries have been read already. */
  function Continue(before: seq<Field>, r: Result<FieldList>): Result<FieldList> {
    if r.Err? then r else Ok(FieldList(before + r.value.fields, r.value.next))
  }

  /** What is left of a list whose last entry has just been stored. */
  function AfterField(d: Document, i: nat, delimiter: Byte): (r: Result<FieldList>)
    requires d.At(i)
    ensures r.Ok? ==> d.At(r.value.next)
  {
    if d.Char(i) == CLOSE_BRACE then
      var next :- d.Next(i);
      Ok(FieldList([], next))
    else d.ReadFields(i, delimiter)
  }

  function CloseGroup(d: Document, name: Span, inner: Result<FieldList>, delimiter: Byte): (r: Result<FieldList>)
    requires d.Valid() && (inner.Ok? ==> d.At(inner.value.next))
    ensures r.Ok? ==> d.At(r.value.next)
  {
    if inner.Err? then inner else d.EndField(Group(name, inner.value.fields), inner.value.next, delimiter)
  }

  function ReadGroup(d: Document, name: Span, i: nat, delimiter: Byte): Result<FieldList>
    requires d.At(i)
  {
    CloseGroup(d, name, d.ReadFields(i, delimiter), delimiter)
  }

  lemma UnwindError(d: Document, stack: seq<seq<Field>>, names: seq<Span>, e: ErrorType, delimiter: Byte)
    requires |stack| == |names| + 1 && d.Valid()
    ensures Unwind(d, stack, names, Err(e), delimiter) == Err(e)
  {
  }

  lemma EndFieldContinues(d: Document, field: Field, i: nat, delimiter: Byte)
    requires d.At(i)
    ensures d.EndField(field, i, delimiter) == Continue([field], AfterField(d, i, delimiter))
  {
    assert [field] + [] == [field];
  }

  /** A field that is read is appended to the ones before it. */
  lemma FlatContinues(d: Document, names: seq<Span>, name: Span, i: nat, delimiter: Byte)
    requires d.At(i)
    ensures Continue(AsLeaves(names), d.EndField(Leaf(name), i, delimiter))
         == Continue(AsLeaves(names + [name]), AfterField(d, i, delimiter))
  {
    EndFieldContinues(d, Leaf(name), i, delimiter);
    assert (names + [name])[..|names|] == names;
    var after := AfterField(d, i, delimiter);
    if after.Ok? {
      assert AsLeaves(names) + ([Leaf(name)] + after.value.fields) == AsLeaves(names) + [Leaf(name)] + after.value.fields;
    }
  }

  lemma NothingBefore(r: Result<FieldList>, fields: seq<Field>)
    ensures Continue([], r) == r && fields + [] == fields
  {
    if r.Ok? {
      assert [] + r.value.fields == r.value.fields;
    }
  }

  lemma PairCounts(a: seq<Field>, b: seq<Field>)
    ensures TotalLeaves([a, b]) == Leaves(a) + Leaves(b) && TotalGroups([a, b]) == Groups(a) + Groups(b)
  {
    assert [a, b][..1] == [a] && [a][..0] == [];
    assert TotalLeaves([a]) == Leaves(a) && TotalGroups([a]) == Groups(a);
  }

  /** What the open lists come to when `r` is the rest of the innermost one. */
  ghost function Unwind(d: Document, stack: seq<seq<Field>>, names: seq<Span>, r: Result<FieldList>, delimiter: Byte): Result<FieldList>
    requires |stack| == |names| + 1
    requires d.Valid() && (r.Ok? ==> d.At(r.value.next))
    decreases |stack|
  {
    if r.Err? then r
    else
      var list := stack[|stack| - 1] + r.value.fields;
      if names == [] then Ok(FieldList(list, r.value.next))
      else
        var group := Group(names[|names| - 1], list);
        Unwind(d, stack[..|stack| - 1], names[..|names| - 1], d.EndField(group, r.value.next, delimiter), delimiter)
  }

  /** Storing an entry in the innermost list instead of carrying it in front of the rest. */
  lemma UnwindStore(d: Document, stack: seq<seq<Field>>, names: seq<Span>, field: Field, r: Result<FieldList>, delimiter: Byte)
    requires |stack| == |names| + 1 && d.Valid() && (r.Ok? ==> d.At(r.value.next))
    ensures Unwind(d, Store(stack, field), names, r, delimiter) == Unwind(d, stack, names, Continue([field], r), delimiter)
  {
    if r.Ok? {
      var top := stack[|stack| - 1];
      assert top + [field] + r.value.fields == top + ([field] + r.value.fields);
      assert Store(stack, field)[..|stack| - 1] == stack[..|stack| - 1];
    }
  }

  lemma NoNames()
    ensures AsLeaves([]) == []
  {
  }

  /** The first group of a list that was flat so far. */
  lemma UnwindFirst(d: Document, before: seq<Field>, name: Span, inner: Result<FieldList>, delimiter: Byte)
    requires d.Valid() && (inner.Ok? ==> d.At(inner.value.next))
    ensures Unwind(d, [before, []], [name], inner, delimiter)
         == Continue(before, CloseGroup(d, name, inner, delimiter))
  {
    assert [before, []] == [before] + [[]] && [name] == [] + [name];
    UnwindOpen(d, [before], [], name, inner, delimiter);
  }

  function Store(stack: seq<seq<Field>>, field: Field): (s: seq<seq<Field>>)
    requires stack != []
    ensures |s| == |stack|
  {
    stack[..|stack| - 1] + [stack[|stack| - 1] + [field]]
  }

  /** A group opens: its list becomes the innermost one and its name waits. */
  lemma UnwindOpen(d: Document, stack: seq<seq<Field>>, names: seq<Span>, name: Span, inner: Result<FieldList>, delimiter: Byte)
    requires |stack| == |names| + 1 && d.Valid() && (inner.Ok? ==> d.At(inner.value.next))
    ensures Unwind(d, stack + [[]], names + [name], inner, delimiter)
         == Unwind(d, stack, names, CloseGroup(d, name, inner, delimiter), delimiter)
  {
    assert (stack + [[]])[..|stack|] == stack;
    assert (names + [name])[..|names|] == names;
    if inner.Ok? {
      assert [] + inner.value.fields == inner.value.fields;
    }
  }

  ghost function TotalLeaves(stack: seq<seq<Field>>): nat {
    if stack == [] then 0 else TotalLeaves(stack[..|stack| - 1]) + Leaves(stack[|stack| - 1])
  }

  ghost function TotalGroups(stack: seq<seq<Field>>): nat {
    if stack == [] then 0 else TotalGroups(stack[..|stack| - 1]) + Groups(stack[|stack| - 1])
  }

  lemma StoreCounts(stack: seq<seq<Field>>, field: Field)
    requires stack != []
    ensures TotalLeaves(Store(stack, field)) == TotalLeaves(stack) + Leaves([field])
    ensures TotalGroups(Store(stack, field)) == TotalGroups(stack) + Groups([field])
  {
    assert Store(stack, field)[..|stack| - 1] == stack[..|stack| - 1];
    CountAppend(stack[|stack| - 1], [field]);
  }

  class Cursor {
    const d: Document
    var i: nat    // structurals read so far
    var idx: nat  // byte offset of the current one
    var c: Byte   // and the byte there

    ghost predicate Valid()
      reads this
    {
      d.At(i) && idx == d.Pos(i) && c == d.Char(i)
    }

    constructor (d: Document)
      requires d.Valid()
      ensures this.d == d && i == 0
    {
      this.d := d;
      i, idx, c := 0, 0, 0;
    }

    method UpdateChar() returns (r: Result<()>)
      requires d.Valid() && i <= |d.indexes|
      modifies this
      ensures match d.Next(old(i))
              case Err(e) => r == Err(e)
              case Ok(j) => r.Ok? && i == j && Valid()
    {
      if i < |d.indexes| {
        idx := d.indexes[i];
        i := i + 1;
        c := d.input[idx];
        return Ok(());
      } else {
        return Err(Syntax);
      }
    }

    /** The span of the token at the cursor, up to the first of `stops`, on which the cursor is left. */
    method GetValueEnd(stops: set<Byte>) returns (r: Result<Span>)
      requires Valid()
      modifies this
      ensures match d.ReadToken(old(i), stops)
              case Err(e) => r == Err(e)
              case Ok(t) => r == Ok(t.span) && i == t.next && Valid()
    {
      var tokenStart := idx;
      while c !in stops
        invariant Valid()
        invariant d.Seek(i, stops) == d.Seek(old(i), stops)
        decreases |d.indexes| - i
      {
        if c == NEWLINE {
          return Err(Syntax);
        }
        var _ :- UpdateChar();
      }
      var end := TrimTrailingSpaces(tokenStart, idx);
      return Ok(Span(tokenStart, end));
    }

    method TrimTrailingSpaces(start: nat, hardEnd: nat) returns (end: nat)
      requires hardEnd <= |d.input|
      ensures end == d.Trim(start, hardEnd)
    {
      end := hardEnd;
      while end > start
        invariant end <= |d.input| && d.Trim(start, end) == d.Trim(start, hardEnd)
      {
        if d.input[end - 1] == SPACE || d.input[end - 1] == RETURN {
          end := end - 1;
        } else {
          break;
        }
      }
    }

    method ParseStringNumber(start: nat, end: nat) returns (r: Result<nat>)
      requires start <= end <= |d.input|
      ensures r == d.ReadCount(start, end, 0)
    {
      var acc: nat := 0;
      var k := start;
      while k < end
        invariant start <= k <= end && acc <= U32_MAX
        invariant d.ReadCount(k, end, acc) == d.ReadCount(start, end, 0)
      {
        if !IsDigit(d.input[k]) || 10 * acc + (d.input[k] - ZERO) > U32_MAX {
          return Err(Syntax);
        }
        acc := 10 * acc + (d.input[k] - ZERO);
        k := k + 1;
      }
      return Ok(acc);
    }

    /** Classifies a line; the cursor is left on the structural that ended its header. */
    method ReadHeader() returns (r: Result<Header>)
      requires Valid()
      modifies this
      ensures match d.ReadHeader(old(i))
              case Err(e) => r == Err(e)
              case Ok(line) => r == Ok(line.header) && i == line.next && Valid()
    {
      var keySpan :- GetValueEnd({COLON, OPEN_BRACKET, NEWLINE});
      var key := if keySpan.end > keySpan.start then Some(keySpan) else None;
      if c == COLON {
        return if key.Some? then Ok(ObjectStart(keySpan)) else Err(Syntax);
      } else if c == NEWLINE {
        return Ok(if key.Some? then PrimitiveValue(keySpan) else EmptyObject);
      }
      var shape :- ReadShape();
      return Ok(Declared(key, shape));
    }

    /** `[N]` or `[N:]`, from the `[` on; the cursor is left behind the `]`. */
    method ReadBracket() returns (r: Result<Bracket>)
      requires Valid()
      modifies this
      ensures r == d.ReadBracket(old(i))
      ensures r.Ok? ==> i == r.value.next && Valid()
    {
      var delimiter := COMMA;
      var _ :- UpdateChar();
      var rowsCountStart := idx;
      var _ :- UpdateChar();
      var rowsCount :- ParseStringNumber(rowsCountStart, idx);
      // The colon in front of the `]` says that each row brings its own key.
      var keyed := c == COLON;
      if keyed {
        var _ :- UpdateChar();
      }
      if c == PIPE || c == TAB {
        delimiter := c;
        var _ :- UpdateChar();
      }
      if c != CLOSE_BRACKET {
        return Err(Syntax);
      }
      var _ :- UpdateChar();
      return Ok(Bracket(rowsCount, keyed, delimiter, i));
    }

    /** A declared row count with its field list, from the `[` on. */
    method ReadShape() returns (r: Result<Shape>)
      requires Valid()
      modifies this
      ensures match d.ReadShape(old(i))
              case Err(e) => r == Err(e)
              case Ok((shape, next)) => r == Ok(shape) && i == next && Valid()
    {
      var b :- ReadBracket();
      if c != OPEN_BRACE {
        return Ok(if b.keyed then KeyedRows([], b.rows, b.delimiter)
                  else if b.rows == 0 then Empty
                  else Simple(b.rows, b.delimiter));
      }
      var fields :- ReadFieldList(b.delimiter);
      r := ChooseShape(fields, b.keyed, b.rows, b.delimiter);
    }

    /** Groups are not supported in keyed headers. */
    method ChooseShape(fields: Fields, keyed: bool, rowsCount: nat, delimiter: Byte) returns (r: Result<Shape>)
      ensures forall list :: fields.Reads(list) ==> r == d.ShapeOf(list, keyed, rowsCount, delimiter)
    {
      match fields
      case NestedFields(entries, leafCount, nestedCount) =>
        return if keyed then Err(NoStructure) else Ok(GroupedRows(entries, leafCount, nestedCount, rowsCount, delimiter));
      case Flat(names) =>
        FlatCounts(names);
        return Ok(if keyed then KeyedRows(names, rowsCount, delimiter) else Rows(names, rowsCount, delimiter));
    }

    /** The name of the next field: what the list comes to from here is settled by what follows the name. */
    method ReadName(delimiter: Byte) returns (r: Result<Span>)
      requires Valid()
      modifies this
      ensures r.Err? ==> d.ReadFields(old(i), delimiter) == Err(r.error)
      ensures r.Ok? ==> Valid() && old(i) < i
      ensures r.Ok? && c == OPEN_BRACE ==> d.ReadFields(old(i), delimiter) == ReadGroup(d, r.value, i, delimiter)
      ensures r.Ok? && c != OPEN_BRACE ==> d.ReadFields(old(i), delimiter) == d.EndField(Leaf(r.value), i, delimiter)
    {
      var _ :- UpdateChar();
      r := GetValueEnd({delimiter, CLOSE_BRACE, OPEN_BRACE});
    }

    /** A field list from its `{` on: names while it stays flat, a tree from the first group on. */
    method ReadFieldList(delimiter: Byte) returns (r: Result<Fields>)
      requires Valid()
      modifies this
      ensures match d.ReadFields(old(i), delimiter)
              case Err(e) => r == Err(e)
              case Ok(list) => r.Ok? && Valid() && i == list.next && r.value.Reads(list.fields)
    {
      hide AsLeaves;
      var fields: seq<Span> := [];
      NothingBefore(d.ReadFields(i, delimiter), []);
      NoNames();
      ghost var goal := d.ReadFields(i, delimiter);
      while true
        invariant Valid()
        invariant Continue(AsLeaves(fields), d.ReadFields(i, delimiter)) == goal
        decreases |d.indexes| - i
      {
        var span :- ReadName(delimiter);
        if c == OPEN_BRACE {
          UnwindFirst(d, AsLeaves(fields), span, d.ReadFields(i, delimiter), delimiter);
          r := ReadNestedFields(fields, span, delimiter);
          return;
        }
        FlatContinues(d, fields, span, i, delimiter);
        fields := fields + [span];
        if c == CLOSE_BRACE {
          var _ :- UpdateChar();
          NothingBefore(goal, AsLeaves(fields));
          return Ok(Flat(fields));
        }
      }
    }

    /**
     * The field list once its first group has been met behind `fields`: one open list per level and, one fewer,
     * the names of the groups those lists belong to.
     */
    method ReadNestedFields(fields: seq<Span>, name: Span, delimiter: Byte) returns (r: Result<Fields>)
      requires Valid()
      modifies this
      ensures match Unwind(d, [AsLeaves(fields), []], [name], d.ReadFields(old(i), delimiter), delimiter)
              case Err(e) => r == Err(e)
              case Ok(list) => r.Ok? && Valid() && i == list.next && r.value.Reads(list.fields)
    {
      hide AsLeaves, Unwind, AfterField, TotalLeaves, TotalGroups, CloseGroup;
      var lists := Lists([AsLeaves(fields), []], [name], |fields|, 0, false);
      FlatCounts(fields);
      PairCounts(AsLeaves(fields), []);
      ghost var goal := Unwind(d, lists.stack, lists.names, d.ReadFields(i, delimiter), delimiter);
      while true
        invariant Valid() && lists.Valid()
        invariant Unwind(d, lists.stack, lists.names, d.ReadFields(i, delimiter), delimiter) == goal
        decreases |d.indexes| - i
      {
        var read := ReadName(delimiter);
        if read.Err? {
          UnwindError(d, lists.stack, lists.names, read.error, delimiter);
          return Err(read.error);
        }
        var span := read.value;
        if c == OPEN_BRACE {
          UnwindOpen(d, lists.stack, lists.names, span, d.ReadFields(i, delimiter), delimiter);
          lists := lists.Open(span);
        } else {
          EndFieldContinues(d, Leaf(span), i, delimiter);
          UnwindStore(d, lists.stack, lists.names, Leaf(span), AfterField(d, i, delimiter), delimiter);
          lists :- CloseLists(lists.StoreLeaf(span), delimiter);
          if lists.complete {
            return Ok(NestedFields(lists.stack[0], lists.leafCount, lists.nestedCount));
          }
        }
      }
    }

    /** A leaf can close several lists at once: pop until a separator is left, or no list. */
    method CloseLists(from: Lists, delimiter: Byte) returns (r: Result<Lists>)
      requires Valid() && from.Valid()
      modifies this
      ensures var whole := Unwind(d, from.stack, from.names, AfterField(d, old(i), delimiter), delimiter);
        && (r.Err? ==> whole == Err(r.error))
        && (r.Ok? ==> Valid() && i >= old(i))
        && (r.Ok? && r.value.complete ==> r.value.Complete() && whole == Ok(FieldList(r.value.stack[0], i)))
        && (r.Ok? && !r.value.complete ==>
              r.value.Valid() && whole == Unwind(d, r.value.stack, r.value.names, d.ReadFields(i, delimiter), delimiter))
    {
      var lists := from;
      while c == CLOSE_BRACE
        invariant Valid() && lists.Valid() && i >= old(i)
        invariant Unwind(d, lists.stack, lists.names, AfterField(d, i, delimiter), delimiter)
               == Unwind(d, from.stack, from.names, AfterField(d, old(i), delimiter), delimiter)
        decreases |d.indexes| - i
      {
        var children := lists.stack[|lists.stack| - 1];
        assert children + [] == children;
        if lists.names == [] {
          var _ :- UpdateChar();
          lists.LastCounts();
          return Ok(lists.(complete := true));
        }
        var group := Group(lists.names[|lists.names| - 1], children);
        ghost var outer := lists;
        lists := lists.StoreGroup();
        var _ :- UpdateChar();
        EndFieldContinues(d, group, i, delimiter);
        UnwindStore(d, outer.stack[..|outer.stack| - 1], outer.names[..|outer.names| - 1], group, AfterField(d, i, delimiter), delimiter);
      }
      return Ok(lists);
    }
  }

  /** The open field lists, innermost last, the names of the groups they belong to and what was counted so far. */
  datatype Lists = Lists(stack: seq<seq<Field>>, names: seq<Span>, leafCount: nat, nestedCount: nat, complete: bool) {
    ghost predicate Valid() {
      && |stack| == |names| + 1
      && (nestedCount > 0 || names != [])
      && leafCount == TotalLeaves(stack) && nestedCount == TotalGroups(stack)
      && !complete
    }

    /** All lists are closed: the one left is the header's. */
    ghost predicate Complete() {
      complete && |stack| == 1 && leafCount == Leaves(stack[0]) && nestedCount == Groups(stack[0]) > 0
    }

    function Open(name: Span): (r: Lists)
      requires Valid()
      ensures r.Valid() && r.stack == stack + [[]] && r.names == names + [name]
    {
      assert (stack + [[]])[..|stack|] == stack;
      Lists(stack + [[]], names + [name], leafCount, nestedCount, false)
    }

    function StoreLeaf(name: Span): (r: Lists)
      requires Valid()
      ensures r.Valid() && r.stack == Store(stack, Leaf(name)) && r.names == names
    {
      StoreCounts(stack, Leaf(name));
      Lists(Store(stack, Leaf(name)), names, leafCount + 1, nestedCount, false)
    }

    /** The innermost list becomes a group of the list around it. */
    function StoreGroup(): (r: Lists)
      requires Valid() && names != []
      ensures r.Valid() && r.names == names[..|names| - 1]
      ensures r.stack == Store(stack[..|stack| - 1], Group(names[|names| - 1], stack[|stack| - 1]))
    {
      var group := Group(names[|names| - 1], stack[|stack| - 1]);
      StoreCounts(stack[..|stack| - 1], group);
      Lists(Store(stack[..|stack| - 1], group), names[..|names| - 1], leafCount, nestedCount + 1, false)
    }

    lemma LastCounts()
      requires Valid() && names == []
      ensures this.(complete := true).Complete()
    {
      assert TotalLeaves(stack[..0]) == 0 && TotalGroups(stack[..0]) == 0;
    }
  }
}
