/**
 * `build_tape`: one loop over an explicit state, a stack of saved frames, an indentation stack and a list of
 * pending counts, with container headers filled in when the container ends. It is proved to compute what the
 * recursive grammar does.
 */
module Stage2 {
  import opened Common
  import opened Tape
  import opened Layout
  import opened Grammar
  import opened Cursors
  import opened Spines
  import opened Worklist
  import opened States
  import opened Nesting
  import opened Moments
  import Counts
  import WellFormed

  class TapeBuilder {
    const d: Document
    const cursor: Cursor
    var tape: seq<Node>
    var stack: seq<StackState>
    var depth: nat
    var lastStart: nat
    var cnt: nat
    var contentWs: seq<nat>
    var pendingCounts: seq<(nat, nat)>
    var lastDedentWs: nat
    ghost var spine: Spine
    ghost var base: seq<nat>

    /** The concrete state is the one the spine stands for. */
    ghost predicate Holds()
      reads `tape, `stack, `depth, `lastStart, `cnt, `contentWs, `pendingCounts, `spine, `base
    {
      && tape == OnTape(spine.All())
      && stack == Frames(spine.outer)
      && depth == Height(spine.All())
      && lastStart == |OnTape(spine.outer)|
      && cnt == spine.top.cnt
      && contentWs == base + Indents(spine.All())
      && pendingCounts == Pending(spine.All())
      && Nondecreasing(spine.All())
      && (base == [] || (base == [0] && (pendingCounts != [] ==> pendingCounts[0].0 == 1)))
    }

    ghost function Indent(): nat
      reads `spine
    {
      spine.top.indent
    }

    ghost function CurrentFloor(): Option<nat>
      reads `spine, `base
    {
      Floor(base, spine.top, spine.outer)
    }

    constructor (d: Document)
      requires d.Valid()
      ensures this.d == d && cursor.d == d && cursor.i == 0 && fresh(cursor)
    {
      this.d := d;
      cursor := new Cursor(d);
      tape, stack, depth, lastStart, cnt := [], [], 0, 0, 0;
      contentWs, pendingCounts, lastDedentWs := [], [], 0;
      spine, base := Spine(Fresh(true, 0), Nil), [];
    }

    // ----- Writing the tape -----

    method InsertRes(node: Node)
      requires Holds()
      modifies `tape, `spine
      ensures Holds() && spine == old(spine).Add([node], 0)
    {
      tape := tape + [node];
      spine := spine.Add([node], 0);
    }

    method InsertStr(s: Span) returns (r: Result<()>)
      requires Holds()
      modifies `tape, `spine
      ensures match d.Quote(s)
              case Err(e) => r == Err(e)
              case Ok(node) => r.Ok? && Holds() && spine == old(spine).Add([node], 0)
    {
      var text :- d.text(s);
      InsertRes(String(Str(text, s)));
      return Ok(());
    }

    method CountMember()
      requires Holds()
      modifies `cnt, `spine
      ensures Holds() && spine == old(spine).Add([], 1)
    {
      cnt := cnt + 1;
      spine := spine.Add([], 1);
      assert old(spine).top.body + [] == old(spine).top.body;
    }

    /** A member's key: it is counted and put on the tape. */
    method InsertKey(s: Span) returns (r: Result<()>)
      requires Holds()
      modifies `tape, `cnt, `spine
      ensures match d.Quote(s)
              case Err(e) => r == Err(e)
              case Ok(node) => r.Ok? && Holds() && spine == old(spine).Add([node], 1)
    {
      CountMember();
      r := InsertStr(s);
      assert old(spine).top.body + [] == old(spine).top.body;
    }

    /** A primitive: a number or literal where the token is one, a string otherwise. */
    method InferNode(s: Span) returns (r: Result<Node>)
      requires d.Spans(s)
      ensures r == d.Infer(s)
    {
      if IsDigit(d.input[s.start]) || d.input[s.start] == HYPHEN {
        var number := d.number(s);
        if number.Some? {
          return Ok(Scalar(number.value));
        }
      } else if d.input[s.start..s.end] == [116, 114, 117, 101] {
        return Ok(Scalar(Bool(true)));
      } else if d.input[s.start..s.end] == [102, 97, 108, 115, 101] {
        return Ok(Scalar(Bool(false)));
      } else if d.input[s.start..s.end] == [110, 117, 108, 108] {
        return Ok(Scalar(Null));
      }
      var text :- d.text(s);
      return Ok(String(Str(text, s)));
    }

    method InsertInferredValue(s: Span) returns (r: Result<()>)
      requires Holds() && d.Spans(s)
      modifies `tape, `spine
      ensures match d.Infer(s)
              case Err(e) => r == Err(e)
              case Ok(node) => r.Ok? && Holds() && spine == old(spine).Add([node], 0)
    {
      var node :- InferNode(s);
      InsertRes(node);
      return Ok(());
    }

    method OpenScope(isObject: bool, keyed: bool, indent: nat)
      requires Holds() && Indent() <= indent && depth < cursor.i
      modifies `tape, `stack, `depth, `lastStart, `cnt, `contentWs, `spine
      ensures Holds() && spine == old(spine).Open(isObject, keyed, indent) && depth == old(depth) + 1 <= cursor.i
    {
      stack := stack + [if keyed then InObject(lastStart, cnt) else InArray(lastStart, cnt)];
      depth := depth + 1;
      contentWs := contentWs + [indent];
      lastStart := |tape|;
      tape := tape + [Container(isObject, 0, 0)];
      cnt := 0;
      spine := spine.Open(isObject, keyed, indent);
      assert contentWs == base + Indents(spine.All());
      assert [Container(isObject, 0, 0)] + [] == [Container(isObject, 0, 0)];
    }

    /** Fills in the header of the current container. */
    method Backfill()
      requires Holds()
      modifies `tape
      ensures tape == OnTape(spine.outer) + Closed(spine.top.isObject, spine.top.body, spine.top.cnt)
      ensures spine.top.expected.None? ==> Closing()
    {
      match tape[lastStart]
      case Object(_, _) => tape := tape[lastStart := Object(cnt, |tape| - lastStart - 1)];
      case Array(_, _) => tape := tape[lastStart := Array(cnt, |tape| - lastStart - 1)];
    }

    /** Ends a row's object without leaving the loop over the rows. */
    method CloseAndPopState()
      requires Holds() && spine.outer.Frame? && spine.top.isObject && spine.top.expected.None?
      modifies `tape, `stack, `depth, `lastStart, `cnt, `contentWs, `spine
      ensures Holds() && spine == old(spine).Close() && depth == old(depth) - 1
    {
      Backfill();
      Pop();
    }

    /** Goes back to the container around a closed one, as its frame saved it. */
    method Pop()
      requires spine.outer.Frame? && Closing()
      modifies `stack, `depth, `lastStart, `cnt, `contentWs, `spine
      ensures Holds() && spine == old(spine).Close() && depth == old(depth) - 1
    {
      hide OnTape, Frames, Indents, Pending, Nondecreasing, Height;
      Uncover(base, spine);
      contentWs := contentWs[..|contentWs| - 1];
      depth := depth - 1;
      match stack[depth] {
        case InObject(parentLastStart, parentCnt) => lastStart, cnt := parentLastStart, parentCnt;
        case InArray(parentLastStart, parentCnt) => lastStart, cnt := parentLastStart, parentCnt;
      }
      stack := stack[..depth];
      spine := spine.Close();
    }

    // ----- Line breaks -----

    method EolStateFromWs(actual: nat) returns (r: Result<EOLState>)
      requires Holds()
      ensures r == d.Compare(actual, Indent())
    {
      var sibling := contentWs[|contentWs| - 1];
      if actual == sibling {
        return Ok(Sibling);
      } else if actual < sibling {
        return Ok(CloseScope);
      } else if actual == sibling + d.indentSize {
        return Ok(Nested);
      } else {
        return Err(Syntax);
      }
    }

    /** Reads past newlines and returns the last one's offset and whether there was more than one. */
    method SkipNewlines() returns (lastNewline: nat, blank: bool)
      requires cursor.Valid() && cursor.d == d && cursor.i < |d.indexes| && cursor.c == NEWLINE
      modifies cursor
      ensures cursor.Valid()
      ensures var (last, j) := d.SkipBlank(old(cursor.i));
        cursor.i == j && lastNewline == d.Pos(last) && (blank <==> last > old(cursor.i))
    {
      lastNewline, blank := cursor.idx, false;
      var _ := cursor.UpdateChar();
      while cursor.c == NEWLINE
        invariant cursor.Valid() && old(cursor.i) < cursor.i
        invariant lastNewline == d.Pos(cursor.i - 1) && d.Char(cursor.i - 1) == NEWLINE
        invariant blank <==> cursor.i - 1 > old(cursor.i)
        invariant d.SkipBlank(cursor.i - 1) == d.SkipBlank(old(cursor.i))
        decreases |d.indexes| - cursor.i
      {
        blank := true;
        lastNewline := cursor.idx;
        if cursor.i >= |d.indexes| {
          break;
        }
        var _ := cursor.UpdateChar();
      }
    }

    /** Whether the line is indented as far as the items of the outermost open block array. */
    method InPendingArray() returns (b: bool)
      requires Holds()
      ensures b <==> CurrentFloor().Some? && lastDedentWs >= CurrentFloor().value
    {
      FloorIsFirstPending(base, spine.All());
      b := pendingCounts != [] && lastDedentWs >= contentWs[pendingCounts[0].0 - 1];
    }

    /** Classifies the line break at the cursor and measures the indentation behind it. */
    method GetEolState(noBlank: bool) returns (r: Result<EOLState>)
      requires Holds() && cursor.Valid() && cursor.d == d
      modifies cursor, `lastDedentWs
      ensures match d.ReadEol(old(cursor.i), old(lastDedentWs), Indent(), CurrentFloor(), noBlank)
              case Err(e) => r == Err(e)
              case Ok(eol) => r == Ok(eol.state) && cursor.i == eol.i && lastDedentWs == eol.ws && cursor.Valid()
      ensures r.Ok? ==> BreakOrLine(d, cursor.i, lastDedentWs)
      ensures r.Ok? && r.value != CloseScope ==> AtLine(d, cursor.i, lastDedentWs)
    {
      hide TapeBuilder.Holds, Floor, Document.SkipBlank, AtLine, BreakOrLine;
      ghost var eol := d.ReadEol(cursor.i, lastDedentWs, Indent(), CurrentFloor(), noBlank);
      if eol.Ok? {
        EolMeasures(d, cursor.i, lastDedentWs, Indent(), CurrentFloor(), noBlank);
      }
      if cursor.i >= |d.indexes| {
        return Ok(CloseScope);
      }
      if cursor.c != NEWLINE {
        return Err(Syntax);
      }
      var lastNewline, blank := SkipNewlines();
      if cursor.i >= |d.indexes| {
        return Ok(CloseScope);
      }
      lastDedentWs := cursor.idx - lastNewline - 1;
      var inPendingArray := InPendingArray();
      if blank && d.strict && (noBlank || inPendingArray) {
        return Err(Syntax);
      }
      r := EolStateFromWs(lastDedentWs);
    }

    // ----- Rows and inline items -----

    /** A token and its value, then the step past what ended it. */
    method InsertCell(stops: set<Byte>) returns (r: Result<Span>)
      requires Holds() && cursor.Valid() && cursor.d == d
      modifies cursor, `tape, `spine
      ensures match d.ReadToken(old(cursor.i), stops)
              case Err(e) => r == Err(e)
              case Ok(t) =>
                (match d.Infer(t.span)
                 case Err(e) => r == Err(e)
                 case Ok(v) =>
                   (r == Ok(t.span) && cursor.i == t.next && cursor.Valid() && Holds() && spine == old(spine).Add([v], 0)))
    {
      var value :- cursor.GetValueEnd(stops);
      var _ :- InsertInferredValue(value);
      return Ok(value);
    }

    /** One item of an inline array. */
    method InlineItem(stops: set<Byte>) returns (r: Result<()>)
      requires Holds() && cursor.Valid() && cursor.d == d
      modifies cursor, `tape, `cnt, `spine
      ensures match d.ReadToken(old(cursor.i), stops)
              case Err(e) => r == Err(e)
              case Ok(t) =>
                (match d.Infer(t.span)
                 case Err(e) => r == Err(e)
                 case Ok(v) => r.Ok? && cursor.i == t.next && cursor.Valid() && Holds() && spine == old(spine).Add([v], 1))
    {
      hide TapeBuilder.Holds;
      CountMember();
      var _ :- InsertCell(stops);
      assert old(spine).top.body + [] == old(spine).top.body;
      return Ok(());
    }

    method InlineItems(count: nat, delimiter: Byte) returns (r: Result<()>)
      requires Holds() && cursor.Valid() && cursor.d == d
      modifies cursor, `tape, `cnt, `spine
      ensures match ReadItems(d, count, old(cursor.i), delimiter)
              case Err(e) => r == Err(e)
              case Ok(items) =>
                (r.Ok? && Holds() && cursor.Valid() && cursor.i == items.next
                 && spine == old(spine).Add(items.nodes, |items.nodes|))
    {
      hide TapeBuilder.Holds, Document.ReadToken, Document.Infer, Spine.Add;
      var k := 1;
      ghost var done: seq<Node> := [];
      ghost var goal := ReadItems(d, count, cursor.i, delimiter);
      NothingDone(old(spine), goal);
      while k < count
        invariant 1 <= k && Holds() && cursor.Valid()
        invariant spine == old(spine).Add(done, |done|)
        invariant goal == AfterItems(done, ReadItems(d, if count > k then count - k + 1 else 1, cursor.i, delimiter))
      {
        ghost var i0 := cursor.i;
        var _ :- InlineItem({delimiter});
        var _ :- cursor.UpdateChar();
        ghost var v := d.Infer(d.ReadToken(i0, {delimiter}).value.span).value;
        ItemsContinue(old(spine), done, v, ReadItems(d, count - k, cursor.i, delimiter));
        done := done + [v];
        k := k + 1;
      }
      ghost var i0 := cursor.i;
      var _ :- InlineItem({NEWLINE});
      ghost var v := d.Infer(d.ReadToken(i0, {NEWLINE}).value.span).value;
      ItemsContinue(old(spine), done, v, Ok(Nodes([], cursor.i)));
      assert [v] + [] == [v];
      return Ok(());
    }

    /** A field's name and its value up to one of `stops`. */
    method InsertField(name: Span, stops: set<Byte>) returns (r: Result<()>)
      requires Holds() && cursor.Valid() && cursor.d == d
      modifies cursor, `tape, `cnt, `spine
      ensures match ReadNamed(d, name, old(cursor.i), stops)
              case Err(e) => r == Err(e)
              case Ok(n) => r.Ok? && Holds() && cursor.Valid() && cursor.i == n.next && spine == old(spine).Add(n.nodes, 1)
    {
      hide TapeBuilder.Holds;
      var _ :- InsertKey(name);
      ghost var key := d.Quote(name).value;
      ghost var i0 := cursor.i;
      var _ :- InsertCell(stops);
      ghost var v := d.Infer(d.ReadToken(i0, stops).value.span).value;
      assert old(spine).top.body + [key] + [v] == old(spine).top.body + [key, v];
      return Ok(());
    }

    /** The last field of a row; a keyed row of one field must not leave it empty. */
    method InsertLastField(name: Span, rejectEmpty: bool) returns (r: Result<()>)
      requires Holds() && cursor.Valid() && cursor.d == d
      modifies cursor, `tape, `cnt, `spine
      ensures match ReadCells(d, [name], 0, old(cursor.i), COMMA, rejectEmpty)
              case Err(e) => r == Err(e)
              case Ok(n) => r.Ok? && Holds() && cursor.Valid() && cursor.i == n.next && spine == old(spine).Add(n.nodes, 1)
    {
      hide TapeBuilder.Holds;
      var _ :- InsertKey(name);
      ghost var key := d.Quote(name).value;
      var value :- cursor.GetValueEnd({NEWLINE});
      if rejectEmpty && value.start == value.end {
        return Err(ExpectedArrayContent);
      }
      var _ :- InsertInferredValue(value);
      ghost var v := d.Infer(value).value;
      assert old(spine).top.body + [key] + [v] == old(spine).top.body + [key, v];
      return Ok(());
    }

    /** The cells of a flat row. */
    method InsertCells(headers: seq<Span>, delimiter: Byte, keyed: bool) returns (r: Result<()>)
      requires Holds() && cursor.Valid() && cursor.d == d && headers != []
      modifies cursor, `tape, `cnt, `spine
      ensures match ReadCells(d, headers, 0, old(cursor.i), delimiter, keyed)
              case Err(e) => r == Err(e)
              case Ok(n) =>
                (r.Ok? && Holds() && cursor.Valid() && cursor.i == n.next && spine == old(spine).Add(n.nodes, |headers|))
    {
      hide TapeBuilder.Holds, ReadNamed, ReadCells;
      ghost var goal := ReadCells(d, headers, 0, cursor.i, delimiter, keyed);
      ghost var done: seq<Node> := [];
      var k := 0;
      NothingDone(spine, goal);
      while k < |headers| - 1
        invariant 0 <= k <= |headers| - 1 && Holds() && cursor.Valid()
        invariant spine == old(spine).Add(done, k)
        invariant goal == AfterItems(done, ReadCells(d, headers, k, cursor.i, delimiter, keyed))
      {
        ghost var i0 := cursor.i;
        CellsStep(d, headers, k, i0, delimiter, keyed);
        var _ :- InsertField(headers[k], {delimiter});
        ghost var first := ReadNamed(d, headers[k], i0, {delimiter}).value;
        var _ :- cursor.UpdateChar();
        NodesContinue(old(spine), done, k, first.nodes, 1, ReadCells(d, headers, k + 1, cursor.i, delimiter, keyed));
        done := done + first.nodes;
        k := k + 1;
      }
      CellsLast(d, headers, cursor.i, delimiter, keyed);
      ghost var last := ReadCells(d, [headers[k]], 0, cursor.i, COMMA, keyed && |headers| == 1);
      var _ :- InsertLastField(headers[k], keyed && |headers| == 1);
      NodesContinue(old(spine), done, k, last.value.nodes, 1, Ok(Nodes([], cursor.i)));
      return Ok(());
    }

    method CurrIndent() returns (ws: nat)
      requires Holds()
      ensures ws == Indent()
    {
      ws := contentWs[|contentWs| - 1];
    }

    /** The object of a flat row; behind a row key the `:` comes first. */
    method InsertRowObject(headers: seq<Span>, delimiter: Byte, keyed: bool) returns (r: Result<()>)
      requires Holds() && cursor.Valid() && cursor.d == d && depth < cursor.i
      modifies cursor, `tape, `stack, `depth, `lastStart, `cnt, `contentWs, `spine
      ensures r.Ok? ==> cursor.c == NEWLINE && cursor.i >= old(cursor.i) && depth == old(depth)
      ensures match if keyed then d.Next(old(cursor.i)) else Ok(old(cursor.i))
              case Err(e) => r == Err(e)
              case Ok(j) =>
                (match ReadFlatRow(d, headers, j, delimiter, keyed)
                 case Err(e) => r == Err(e)
                 case Ok(n) => r.Ok? && Holds() && cursor.Valid() && cursor.i == n.next && spine == old(spine).Add(n.nodes, 0))
    {
      hide TapeBuilder.Holds;
      var indent := CurrIndent();
      OpenScope(true, keyed, indent);
      if keyed {
        var _ :- cursor.UpdateChar();
      }
      if headers == [] {
        return Err(TapeError);
      }
      ghost var cells := ReadCells(d, headers, 0, cursor.i, delimiter, keyed);
      var _ :- InsertCells(headers, delimiter, keyed);
      RowCloses(old(spine), keyed, indent, cells.value.nodes, |headers|);
      CloseAndPopState();
      return Ok(());
    }

    /** Puts the entries of a group on the worklist, the first one on top. */
    method PushChildren(work: seq<WorkItem>, children: seq<Field>) returns (r: seq<WorkItem>)
      ensures r == work + Queue(children)
    {
      r := work;
      var k := |children|;
      assert children[k..] == [];
      while k > 0
        invariant 0 <= k <= |children| && r == work + Queue(children[k..])
      {
        k := k - 1;
        assert children[k..][1..] == children[k + 1..];
        r := r + [Process(children[k])];
      }
      assert children[0..] == children;
    }

    /** A leaf of a row: only the last one ends on a newline. */
    method InsertLeaf(name: Span, last: bool, delimiter: Byte) returns (r: Result<()>)
      requires Holds() && cursor.Valid() && cursor.d == d
      modifies cursor, `tape, `cnt, `spine
      ensures forall seen: nat, leaves :: last == (seen + 1 == leaves) ==>
        match ReadEntry(d, Leaf(name), seen, leaves, old(cursor.i), delimiter)
        case Err(e) => r == Err(e)
        case Ok(b) => (r.Ok? && Holds() && cursor.Valid() && cursor.i == b.next && spine == old(spine).Add(b.nodes, 1)
                       && b.seen == seen + 1)
    {
      hide TapeBuilder.Holds;
      ghost var i0 := cursor.i;
      var _ :- InsertField(name, if last then {NEWLINE} else {delimiter});
      if !last {
        var _ :- cursor.UpdateChar();
      }
      return Ok(());
    }

    /** A group's key and object are opened and its entries queued in front of the end of that object. */
    method EnterGroup(rest: seq<WorkItem>, group: Field) returns (r: Result<seq<WorkItem>>)
      requires Holds() && group.Group? && depth + Reach(rest + [Process(group)]) <= cursor.i
      modifies `tape, `stack, `depth, `lastStart, `cnt, `contentWs, `spine
      ensures match d.Quote(group.name)
              case Err(e) => r == Err(e)
              case Ok(key) =>
                && r == Ok(rest + [EndScope] + Queue(group.children))
                && Holds() && spine == old(spine).Add([key], 1).Open(true, true, old(Indent()))
                && depth == old(depth) + 1 && depth + Reach(r.value) <= cursor.i
    {
      hide TapeBuilder.Holds, Reach;
      ReachGroup(rest, group);
      var indent := CurrIndent();
      var _ :- InsertKey(group.name);
      OpenScope(true, true, indent);
      var work := PushChildren(rest + [EndScope], group.children);
      return Ok(work);
    }

    /** One field of a row with everything below it, by a worklist in place of recursion. */
    method InsertEntry(field: Field, seen: nat, leaves: nat, delimiter: Byte) returns (r: Result<nat>)
      requires Holds() && cursor.Valid() && cursor.d == d && depth + NestOf(field) <= cursor.i
      modifies cursor, `tape, `stack, `depth, `lastStart, `cnt, `contentWs, `spine
      ensures r.Ok? ==> cursor.i >= old(cursor.i) && depth == old(depth)
      ensures match ReadEntry(d, field, seen, leaves, old(cursor.i), delimiter)
              case Err(e) => r == Err(e)
              case Ok(b) => r == Ok(b.seen) && Holds() && cursor.Valid() && cursor.i == b.next && spine == old(spine).Add(b.nodes, 1)
    {
      hide TapeBuilder.Holds, CanClose, ReadEntry, Work, Weight, Scopes, Reach, NestOf;
      ReachStarts(field);
      var entryStack := [Process(field)];
      var currLeafCount := seen;
      EntryStarts(d, spine, field, seen, leaves, cursor.i, delimiter);
      ghost var goal := Work(d, spine, entryStack, seen, leaves, cursor.i, delimiter);
      while entryStack != []
        invariant Holds() && cursor.Valid() && CanClose(spine, Scopes(entryStack))
        invariant Work(d, spine, entryStack, currLeafCount, leaves, cursor.i, delimiter) == goal
        invariant depth + Reach(entryStack) <= cursor.i && cursor.i >= old(cursor.i)
        invariant depth == old(depth) + Scopes(entryStack)
        decreases Weight(entryStack)
      {
        var item, rest := entryStack[|entryStack| - 1], entryStack[..|entryStack| - 1];
        assert entryStack == rest + [item];
        WorkPop(d, spine, rest, item, currLeafCount, leaves, cursor.i, delimiter);
        PopMeasures(rest, item);
        ReachPop(rest, item);
        match item {
          case Process(Leaf(name)) =>
            ghost var nodes := ReadEntry(d, Leaf(name), currLeafCount, leaves, cursor.i, delimiter);
            CanCloseAdd(spine, if nodes.Ok? then nodes.value.nodes else [], 1, Scopes(rest));
            var _ :- InsertLeaf(name, currLeafCount + 1 == leaves, delimiter);
            currLeafCount := currLeafCount + 1;
            entryStack := rest;
          case Process(Group(name, children)) =>
            ghost var key := d.Quote(name);
            QuoteFails(d, item.field, currLeafCount, leaves, cursor.i, delimiter);
            GroupMeasures(rest, item.field);
            if key.Ok? {
              CanCloseOpen(spine, [key.value], Indent(), Scopes(rest));
              WorkGroup(d, spine, rest, item.field, key.value, Indent(), currLeafCount, leaves, cursor.i, delimiter);
            }
            entryStack :- EnterGroup(rest, item.field);
          case EndScope =>
            CanCloseClose(spine, Scopes(rest));
            CloseAndPopState();
            entryStack := rest;
        }
      }
      WorkDone(d, spine, currLeafCount, leaves, cursor.i, delimiter);
      return Ok(currLeafCount);
    }

    /** The object of a row with nested field groups. */
    method InsertGroupedRow(fields: seq<Field>, leafCount: nat, delimiter: Byte) returns (r: Result<()>)
      requires Holds() && cursor.Valid() && cursor.d == d && depth + 1 + Nest(fields) <= cursor.i
      modifies cursor, `tape, `stack, `depth, `lastStart, `cnt, `contentWs, `spine
      ensures r.Ok? ==> cursor.i >= old(cursor.i) && depth == old(depth)
      ensures match ReadBranch(d, fields, 0, leafCount, old(cursor.i), delimiter)
              case Err(e) => r == Err(e)
              case Ok(b) => (r.Ok? && Holds() && cursor.Valid() && cursor.i == b.next
                             && spine == old(spine).Add(Closed(true, b.nodes, |fields|), 0))
    {
      hide TapeBuilder.Holds, ReadEntry, ReadBranch, Nest, NestOf;
      var indent := CurrIndent();
      OpenScope(true, false, indent);
      ghost var inside := spine;
      ghost var goal := ReadBranch(d, fields, 0, leafCount, cursor.i, delimiter);
      var currLeafCount := 0;
      var k := 0;
      ghost var done: seq<Node> := [];
      BranchStarts(spine, goal);
      assert fields[0..] == fields;
      while k < |fields|
        invariant k <= |fields| && Holds() && cursor.Valid()
        invariant cursor.i >= old(cursor.i) && depth == old(depth) + 1
        invariant spine == inside.Add(done, k)
        invariant goal == AfterBranch(done, ReadBranch(d, fields[k..], currLeafCount, leafCount, cursor.i, delimiter))
      {
        ghost var b := ReadEntry(d, fields[k], currLeafCount, leafCount, cursor.i, delimiter);
        BranchStep(d, fields[k..], currLeafCount, leafCount, cursor.i, delimiter);
        EntryNests(fields, k);
        currLeafCount :- InsertEntry(fields[k], currLeafCount, leafCount, delimiter);
        assert fields[k..][1..] == fields[k + 1..];
        BranchContinues(inside, done, k, b.value.nodes,
                        ReadBranch(d, fields[k + 1..], currLeafCount, leafCount, cursor.i, delimiter));
        done := done + b.value.nodes;
        k := k + 1;
      }
      BranchEnds(d, currLeafCount, leafCount, cursor.i, delimiter);
      assert done + [] == done;
      RowCloses(old(spine), false, indent, done, |fields|);
      CloseAndPopState();
      return Ok(());
    }

    /** One row of a tabular format, counted as a member. */
    method InsertRow(form: Form) returns (r: Result<()>)
      requires Holds() && cursor.Valid() && cursor.d == d && form.HasRows() && form.Counted()
      requires depth + 1 + FormNest(form) <= cursor.i && AtLine(d, cursor.i, lastDedentWs)
      modifies cursor, `tape, `stack, `depth, `lastStart, `cnt, `contentWs, `spine
      ensures r.Ok? ==> cursor.i >= old(cursor.i) && depth == old(depth)
      ensures r.Ok? ==> cursor.Valid() && BreakOrLine(d, cursor.i, lastDedentWs)
      ensures match ReadRow(d, form, old(cursor.i))
              case Err(e) => r == Err(e)
              case Ok(n) => r.Ok? && Holds() && cursor.Valid() && cursor.i == n.next && spine == old(spine).Add(n.nodes, 1)
    {
      hide TapeBuilder.Holds, ReadFlatRow, ReadBranch, Document.ReadToken, Nest, AtLine;
      match form {
        case TabularObjects(headers, _, delimiter) =>
          var rowKey :- cursor.GetValueEnd({COLON});
          var _ :- InsertKey(rowKey);
          AddTwice(old(spine), [d.Quote(rowKey).value], 1, 0);
          r := InsertRowObject(headers, delimiter, true);
        case TabularArrayStrict(headers, _, delimiter) =>
          CountMember();
          AddTwice(old(spine), [], 1, 0);
          r := InsertRowObject(headers, delimiter, false);
        case NestedFieldGroups(fields, leafCount, _, delimiter) =>
          CountMember();
          AddTwice(old(spine), [], 1, 0);
          RowEndsLine(d, fields, leafCount, cursor.i, delimiter);
          r := InsertGroupedRow(fields, leafCount, delimiter);
      }
    }

    /** A row and the line break behind it, which leads to the next row. */
    method InsertRowAndBreak(form: Form) returns (r: Result<()>)
      requires Holds() && cursor.Valid() && cursor.d == d && form.HasRows() && form.Counted()
      requires depth + 1 + FormNest(form) <= cursor.i && AtLine(d, cursor.i, lastDedentWs)
      modifies cursor, `tape, `stack, `depth, `lastStart, `cnt, `contentWs, `spine, `lastDedentWs
      ensures r.Ok? ==> cursor.i >= old(cursor.i) && depth == old(depth)
      ensures match ReadRow(d, form, old(cursor.i))
              case Err(e) => r == Err(e)
              case Ok(row) =>
                (match d.ReadEol(row.next, old(lastDedentWs), old(Indent()), old(CurrentFloor()), true)
                 case Err(e) => r == Err(e)
                 case Ok(eol) =>
                   if eol.state != Sibling then r == Err(Syntax)
                   else (r.Ok? && Holds() && cursor.Valid() && cursor.i == eol.i && lastDedentWs == eol.ws
                         && spine == old(spine).Add(row.nodes, 1) && CurrentFloor() == old(CurrentFloor())
                         && AtLine(d, cursor.i, lastDedentWs)))
    {
      hide TapeBuilder.Holds, ReadRow, Floor, Document.ReadEol, AtLine, BreakOrLine, FormNest;
      ghost var row := ReadRow(d, form, cursor.i);
      FloorAdd(base, spine, if row.Ok? then row.value.nodes else [], 1);
      var _ :- InsertRow(form);
      var state :- GetEolState(true);
      return if state == Sibling then Ok(()) else Err(Syntax);
    }

    /** The declared rows; the line break behind the last one is left for the end of the scope. */
    method InsertRows(form: Form, rows: nat) returns (r: Result<()>)
      requires Holds() && cursor.Valid() && cursor.d == d && form.HasRows() && form.Counted() && rows > 0
      requires depth + 1 + FormNest(form) <= cursor.i && AtLine(d, cursor.i, lastDedentWs)
      modifies cursor, `tape, `stack, `depth, `lastStart, `cnt, `contentWs, `spine, `lastDedentWs
      ensures r.Ok? ==> cursor.Valid() && cursor.i >= old(cursor.i) && depth == old(depth) && BreakOrLine(d, cursor.i, lastDedentWs)
      ensures match ReadRows(d, form, rows, old(cursor.i), old(lastDedentWs), old(Indent()), old(CurrentFloor()))
              case Err(e) => r == Err(e)
              case Ok(b) => (r.Ok? && Holds() && cursor.Valid() && cursor.i == b.i && lastDedentWs == b.ws
                             && spine == old(spine).Add(b.nodes, b.n))
    {
      hide TapeBuilder.Holds, ReadRow, ReadRows, Floor, Document.ReadEol, AtLine, FormNest, Height, BreakOrLine;
      ghost var indent, floor := Indent(), CurrentFloor();
      ghost var goal := ReadRows(d, form, rows, cursor.i, lastDedentWs, indent, floor);
      ghost var done: seq<Node> := [];
      var k := 1;
      RowsStart(spine, goal);
      while k < rows
        invariant 1 <= k <= rows && Holds() && cursor.Valid()
        invariant cursor.i >= old(cursor.i) && depth == old(depth) && AtLine(d, cursor.i, lastDedentWs)
        invariant spine == old(spine).Add(done, k - 1) && Indent() == indent && CurrentFloor() == floor
        invariant goal == AfterRows(done, k - 1, ReadRows(d, form, rows - k + 1, cursor.i, lastDedentWs, indent, floor))
      {
        ghost var row := ReadRow(d, form, cursor.i);
        RowsStep(d, form, rows - k + 1, cursor.i, lastDedentWs, indent, floor);
        var _ :- InsertRowAndBreak(form);
        RowsContinue(old(spine), done, k - 1, row.value.nodes,
                     ReadRows(d, form, rows - k, cursor.i, lastDedentWs, indent, floor));
        done := done + row.value.nodes;
        k := k + 1;
      }
      ghost var row := ReadRow(d, form, cursor.i);
      RowsStep(d, form, 1, cursor.i, lastDedentWs, indent, floor);
      var _ :- InsertRow(form);
      RowsContinue(old(spine), done, k - 1, row.value.nodes, Ok(Body([], 0, cursor.i, lastDedentWs)));
      return Ok(());
    }

    /** Rows until the indentation closes, for a root header read leniently. */
    method InsertAnyRows(headers: seq<Span>, delimiter: Byte) returns (r: Result<()>)
      requires Holds() && cursor.Valid() && cursor.d == d && depth < cursor.i
      modifies cursor, `tape, `stack, `depth, `lastStart, `cnt, `contentWs, `spine, `lastDedentWs
      ensures r.Ok? ==> cursor.Valid() && cursor.i >= old(cursor.i) && depth == old(depth) && BreakOrLine(d, cursor.i, lastDedentWs)
      ensures match ReadAnyRows(d, headers, delimiter, old(cursor.i), old(lastDedentWs), old(Indent()), old(CurrentFloor()))
              case Err(e) => r == Err(e)
              case Ok(b) => (r.Ok? && Holds() && cursor.Valid() && cursor.i == b.i && lastDedentWs == b.ws
                             && spine == old(spine).Add(b.nodes, b.n))
    {
      hide TapeBuilder.Holds, ReadFlatRow, ReadAnyRows, Floor, Document.ReadEol, AtLine, BreakOrLine;
      ghost var indent, floor := Indent(), CurrentFloor();
      ghost var goal := ReadAnyRows(d, headers, delimiter, cursor.i, lastDedentWs, indent, floor);
      ghost var done: seq<Node> := [];
      ghost var k := 0;
      RowsStart(spine, goal);
      while true
        invariant Holds() && cursor.Valid() && cursor.i >= old(cursor.i) && depth == old(depth)
        invariant spine == old(spine).Add(done, k) && Indent() == indent && CurrentFloor() == floor
        invariant goal == AfterRows(done, k, ReadAnyRows(d, headers, delimiter, cursor.i, lastDedentWs, indent, floor))
        decreases |d.indexes| - cursor.i
      {
        ghost var row := ReadFlatRow(d, headers, cursor.i, delimiter, false);
        AnyRowsStep(d, headers, delimiter, cursor.i, lastDedentWs, indent, floor);
        CountMember();
        AddTwice(spine, [], 0, 0);
        AddTwice(old(spine), done, k, 1);
        var _ :- InsertRowObject(headers, delimiter, false);
        AddTwice(old(spine), done, k + 1, 0);
        FloorAdd(base, old(spine), done + row.value.nodes, k + 1);
        assert done + [] == done;
        var state :- GetEolState(true);
        match state {
          case Sibling =>
            RowsContinue(old(spine), done, k, row.value.nodes,
                         ReadAnyRows(d, headers, delimiter, cursor.i, lastDedentWs, indent, floor));
          case Nested => return Err(Syntax);
          case CloseScope =>
            RowsContinue(old(spine), done, k, row.value.nodes, Ok(Body([], 0, cursor.i, lastDedentWs)));
            return Ok(());
        }
        done := done + row.value.nodes;
        k := k + 1;
      }
    }

    // ----- States -----

    ghost predicate Ready(state: State)
      reads this, cursor
    {
      && cursor.d == d && cursor.Valid() && Holds()
      && Suits(state, spine, base, cursor.c, lastDedentWs)
      && LineKnown(d, state, cursor.i, lastDedentWs)
      && depth + Spare(state) <= cursor.i
    }

    /** What the whole document comes to from here. */
    ghost function Goal(state: State): Result<Parsed>
      requires Ready(state)
      reads this, cursor
    {
      Finish(d, base, spine, Remaining(d, state, spine, base, cursor.i, lastDedentWs))
    }

    ghost function Now(state: State): Moment
      reads this, cursor
    {
      Moment(state, tape, stack, depth, lastStart, contentWs, pendingCounts, lastDedentWs, cursor.i)
    }

    /** What holds of the concrete state whenever a state is entered, in a run that comes to the state's goal. */
    lemma {:induction false} StateIsSound(state: State)
      requires Ready(state)
      ensures Sound(d, Now(state), Goal(state))
    {
      hide TapeBuilder.Holds, Stacked, Framed, Awaited, Tallies, Lengthy, Finish, Remaining, Settled, Tagged, Shows, Pending, AtLine;
      ghost var m := Now(state);
      HoldsShows(state);
      ShownStacked(d, m, spine, base);
      ShownFramed(d, m, spine, base);
      ShownAwaited(d, m, spine, base);
      if Goal(state).Ok? {
        if state.ParseDeclared? {
          EnteredLengthy(d, m, spine, base);
        } else {
          NotEntered(d, m, Goal(state).value.tape);
        }
        if Goal(state).value.clean {
          CleanIsUnspoilt(d, base, spine, Remaining(d, state, spine, base, cursor.i, lastDedentWs));
        }
      }
    }

    lemma HoldsShows(state: State)
      requires Ready(state)
      ensures Shows(Now(state), spine, base) && depth <= cursor.i <= |d.indexes| && Tagged(spine.outer)
      ensures Reads(state) ==> Settled(spine.top)
    {
      hide OnTape, Frames, Indents, Pending, Nondecreasing, Tagged;
    }

    /** How a declared container is written, from the structural behind its header. */
    method ChooseForm(shape: Shape) returns (r: Result<Form>)
      requires cursor.d == d && cursor.Valid()
      modifies cursor
      ensures match Choose(d, shape, old(cursor.i))
              case Err(e) => r == Err(e)
              case Ok(choice) => r == Ok(choice.form) && cursor.Valid() && cursor.i == choice.next
      ensures r.Ok? ==> (r.value.BlockArray? ==> cursor.c == NEWLINE) && (r.value.InlineArray? ==> cursor.c != NEWLINE)
      ensures r.Ok? ==> FormNest(r.value) == ShapeNest(shape) && cursor.i >= old(cursor.i)
    {
      match shape {
        case Simple(count, delimiter) =>
          var _ :- cursor.UpdateChar();
          return Ok(if cursor.c == NEWLINE then BlockArray(count) else InlineArray(count, delimiter));
        case Empty => return Ok(EmptyArray);
        case KeyedRows(headers, rows, delimiter) => return Ok(TabularObjects(headers, rows, delimiter));
        case Rows(headers, rows, delimiter) => return Ok(TabularArrayStrict(headers, rows, delimiter));
        case GroupedRows(fields, leafCount, _, rows, delimiter) =>
          return Ok(NestedFieldGroups(fields, leafCount, rows, delimiter));
      }
    }

    method DoParseHeader() returns (r: Result<State>)
      requires Ready(ParseHeader)
      modifies this, cursor
      ensures r.Err? ==> old(Goal(ParseHeader)) == Err(r.error)
      ensures r.Ok? ==> Ready(r.value) && Goal(r.value) == old(Goal(ParseHeader)) && cursor.i > old(cursor.i)
      ensures r.Ok? ==> Spotless(spine) == (old(Spotless(spine)) && !Spoils(d, ParseHeader, old(cursor.i), old(Indent())))
    {
      hide TapeBuilder.Holds, Finish, Floor, ReadFieldsOf, ReadPair, ReadPairValue, ReadDeclared, Document.ReadHeader, Choose, Tagged, Pending;
      ghost var s0, ws := spine, lastDedentWs;
      FinishFail(d, base, s0);
      FieldsStep(d, cursor.i, ws, s0.top.indent, Floor(base, s0.top, s0.outer));
      HeaderNests(d, cursor.i);
      var header :- cursor.ReadHeader();
      match header {
        case ObjectStart(name) =>
          PairStep(d, name, cursor.i, ws, s0.top.indent, Floor(base, s0.top, s0.outer));
          var _ :- InsertKey(name);
          ghost var key := d.Quote(name).value;
          FloorAdd(base, s0, [key], 1);
          var _ :- cursor.UpdateChar();
          FinishAdd(d, base, s0, [key], 1, Remaining(d, ParseSimpleObjectValue, spine, base, cursor.i, ws));
          return Ok(ParseSimpleObjectValue);
        case Declared(key, shape) =>
          var form :- ChooseForm(shape);
          ghost var rest := ReadDeclared(d, form, key, cursor.i, ws, s0.top.indent, Floor(base, s0.top, s0.outer), None);
          if key.None? {
            Taint(rest);
          } else {
            NothingFirst(rest);
          }
          return Ok(ParseDeclared(form, key, false));
        case _ => return Err(NoStructure);
      }
    }

    method DoParseSimpleObjectValue() returns (r: Result<State>)
      requires Ready(ParseSimpleObjectValue)
      modifies this, cursor
      ensures r.Err? ==> old(Goal(ParseSimpleObjectValue)) == Err(r.error)
      ensures r.Ok? ==> Ready(r.value) && Goal(r.value) == old(Goal(ParseSimpleObjectValue))
      ensures r.Ok? ==> cursor.i > old(cursor.i) || (cursor.i == old(cursor.i) && depth == old(depth) && r.value.ScopeEnd?)
      ensures r.Ok? ==> Spotless(spine) == (old(Spotless(spine)) && !Spoils(d, ParseSimpleObjectValue, old(cursor.i), old(Indent())))
    {
      if cursor.c == NEWLINE {
        r := ValueBelow();
      } else {
        r := ValueInline();
      }
    }

    /** The value of a key that ends its line: an object on the lines below, or an empty one. */
    method ValueBelow() returns (r: Result<State>)
      requires Ready(ParseSimpleObjectValue) && cursor.c == NEWLINE
      modifies this, cursor
      ensures r.Err? ==> old(Goal(ParseSimpleObjectValue)) == Err(r.error)
      ensures r.Ok? ==> Ready(r.value) && Goal(r.value) == old(Goal(ParseSimpleObjectValue))
      ensures r.Ok? ==> cursor.i > old(cursor.i) || (cursor.i == old(cursor.i) && depth == old(depth) && r.value.ScopeEnd?)
      ensures r.Ok? ==> Spotless(spine) == (old(Spotless(spine)) && !Spoils(d, ParseSimpleObjectValue, old(cursor.i), old(Indent())))
    {
      hide TapeBuilder.Holds, Finish, Floor, ReadFieldsOf, ReadPairValue, Document.ReadEol, Tagged, Pending, Resume;
      hide AtLine, BareKey, Unspoilt, Document.SkipBlank;
      ghost var s0 := spine;
      FinishFail(d, base, s0);
      FloorAdd(base, s0, [Object(0, 0)], 0);
      BareNewline(d, cursor.i, lastDedentWs, Indent(), CurrentFloor());
      if cursor.i >= |d.indexes| {
        InsertRes(Object(0, 0));
        PairLast(d, lastDedentWs, s0.top.indent, FloorOf(base, s0));
        FinishAdd(d, base, s0, [Object(0, 0)], 0, Done([], 0, cursor.i, lastDedentWs, true));
        return Ok(ScopeEnd);
      }
      PairBelow(d, base, s0, cursor.i, lastDedentWs);
      var state :- GetEolState(false);
      match state {
        case Nested =>
          OpenBelow();
          return Ok(ParseHeader);
        case Sibling =>
          ghost var rest := ReadFieldsOf(d, cursor.i, lastDedentWs, Indent(), FloorOf(base, s0));
          InsertRes(Object(0, 0));
          FinishAdd(d, base, s0, [Object(0, 0)], 0, rest);
          return Ok(ParseHeader);
        case CloseScope =>
          // The key is left without a value.
          Taint(Done([], 0, cursor.i, lastDedentWs, true));
          NothingFirst(Done([], 0, cursor.i, lastDedentWs, true));
          return Ok(ScopeEnd);
      }
    }

    /** The object on the lines below its key. */
    method OpenBelow()
      requires cursor.d == d && cursor.Valid() && Holds() && depth < cursor.i
      requires Tagged(spine.outer) && spine.top.isObject && Settled(spine.top) && (base != [] ==> Pending(spine.All()) != [])
      requires lastDedentWs == Indent() + d.indentSize && AtLine(d, cursor.i, lastDedentWs)
      modifies `tape, `stack, `depth, `lastStart, `cnt, `contentWs, `spine
      ensures Ready(ParseHeader) && Spotless(spine) == old(Spotless(spine))
      ensures Goal(ParseHeader) == old(Finish(d, base, spine, Resume(d, base, spine.top, true, spine.outer, true,
        ReadFieldsOf(d, cursor.i, lastDedentWs, lastDedentWs, CurrentFloor()))))
    {
      hide TapeBuilder.Holds, Finish, Floor, ReadFieldsOf, Tagged, Pending, Resume, AtLine;
      var indent := CurrIndent();
      ghost var inner := ReadFieldsOf(d, cursor.i, lastDedentWs, indent + d.indentSize, CurrentFloor());
      OpenKeeps(base, spine, true, true, indent + d.indentSize);
      FinishOpen(d, base, spine, true, true, indent + d.indentSize, inner);
      OpenScope(true, true, indent + d.indentSize);
    }

    /** The value on the line of its key. */
    method ValueInline() returns (r: Result<State>)
      requires Ready(ParseSimpleObjectValue) && cursor.c != NEWLINE
      modifies this, cursor
      ensures r.Err? ==> old(Goal(ParseSimpleObjectValue)) == Err(r.error)
      ensures r.Ok? ==> Ready(r.value) && Goal(r.value) == old(Goal(ParseSimpleObjectValue)) && cursor.i > old(cursor.i)
      ensures r.Ok? ==> Spotless(spine) == old(Spotless(spine))
    {
      hide TapeBuilder.Holds, Finish, Floor, ReadFieldsOf, Document.ReadEol, Tagged, Pending, ReadPairValue;
      ghost var s0 := spine;
      FinishFail(d, base, s0);
      PairInline(d, cursor.i, lastDedentWs, Indent(), FloorOf(base, s0));
      var span :- cursor.GetValueEnd({NEWLINE});
      if d.input[span.start..span.end] == [OPEN_BRACKET, CLOSE_BRACKET] {
        // An empty array is written `key: []`.
        InsertRes(Array(0, 0));
      } else {
        var _ :- InsertInferredValue(span);
      }
      ghost var v := InferValue(d, span).value;
      FloorAdd(base, s0, [v], 0);
      FinishAdd(d, base, s0, [v], 0, PairEnd(d, cursor.i, lastDedentWs, Indent(), FloorOf(base, s0)));
      FinishFail(d, base, spine);
      if cursor.i >= |d.indexes| {
        return Ok(ScopeEnd);
      }
      var state :- GetEolState(false);
      match state {
        case Sibling => return Ok(ParseHeader);
        case CloseScope => return Ok(ScopeEnd);
        case Nested => return Err(NoStructure);
      }
    }

    method DoExpectBlockArrayItem() returns (r: Result<State>)
      requires Ready(ExpectBlockArrayItem)
      modifies this, cursor
      ensures r.Err? ==> old(Goal(ExpectBlockArrayItem)) == Err(r.error)
      ensures r.Ok? ==> Ready(r.value) && Goal(r.value) == old(Goal(ExpectBlockArrayItem)) && cursor.i > old(cursor.i)
      ensures r.Ok? ==> Spotless(spine) == old(Spotless(spine))
    {
      hide TapeBuilder.Holds, Finish, Floor, ReadArrayItems, ReadItem, Document.ReadHeader, Tagged, Pending;
      ghost var s0 := spine;
      FinishFail(d, base, s0);
      ArrayItemsStep(d, cursor.i, lastDedentWs, Indent(), FloorOf(base, s0), s0.top.Room());
      if cursor.c != HYPHEN {
        return Err(ExpectedArray);
      }
      LastPending();
      if d.strict && pendingCounts != [] {
        var (level, expected) := pendingCounts[|pendingCounts| - 1];
        if level == depth && cnt >= expected {
          return Err(Syntax);
        }
      }
      var _ :- cursor.UpdateChar();
      CountMember();
      FloorAdd(base, s0, [], 1);
      HeaderNests(d, cursor.i);
      var header :- cursor.ReadHeader();
      r := DoItem(s0, header);
    }

    /** The last pending count belongs to the current container exactly if it is a block array. */
    lemma LastPending()
      requires Holds()
      ensures spine.top.expected.Some? <==> pendingCounts != [] && pendingCounts[|pendingCounts| - 1].0 == depth
      ensures spine.top.expected.Some? ==> pendingCounts[|pendingCounts| - 1].1 == spine.top.expected.value
      ensures cnt == spine.top.cnt
    {
      PendingDepths(spine.outer);
      assert Pending(spine.outer) + [] == Pending(spine.outer);
    }

    /** The item behind a `- `, already counted as a member of `s0`. */
    method DoItem(ghost s0: Spine, header: Header) returns (r: Result<State>)
      requires cursor.d == d && cursor.Valid() && Holds()
      requires Suits(ExpectBlockArrayItem, s0, base, HYPHEN, lastDedentWs) && spine == s0.Add([], 1)
      requires header.PrimitiveValue? ==> d.Spans(header.val)
      requires header.Declared? ==> header.shape.Counted()
      requires depth + 1 <= cursor.i && (header.Declared? ==> depth + 4 + ShapeNest(header.shape) <= cursor.i)
      modifies this, cursor
      ensures var goal := Finish(d, old(base), s0, ReadItem(d, header, old(cursor.i), old(lastDedentWs), s0.top.indent, FloorOf(old(base), s0), s0.top.Add([], 1).Room()));
        && (r.Err? ==> goal == Err(r.error))
        && (r.Ok? ==> Ready(r.value) && Goal(r.value) == goal && cursor.i >= old(cursor.i))
      ensures r.Ok? ==> Spotless(spine) == old(Spotless(spine))
    {
      hide TapeBuilder.Holds, Finish, Floor, ReadDeclared, Choose, Tagged, Pending, NextItem, EndItem, ReadPair;
      FinishFail(d, base, s0);
      FloorAdd(base, s0, [], 1);
      match header {
        case PrimitiveValue(val) =>
          var _ :- InsertInferredValue(val);
          ghost var v := d.Infer(val).value;
          AddTwice(s0, [], 1, 0);
          r := EndSimpleItem(s0, v);
        case EmptyObject =>
          InsertRes(Object(0, 0));
          AddTwice(s0, [], 1, 0);
          r := EndSimpleItem(s0, Object(0, 0));
        case ObjectStart(name) =>
          r := DoObjectItem(s0, name);
        case Declared(key, shape) =>
          if key.Some? {
            r := DoKeyedItem(s0, key, shape);
          } else {
            var form :- ChooseForm(shape);
            FinishAdd(d, base, s0, [], 1,
                      ReadDeclared(d, form, None, cursor.i, lastDedentWs, Indent(), FloorOf(base, s0), spine.top.Room()));
            return Ok(ParseDeclared(form, None, false));
          }
      }
    }

    /** The line break behind an item on one line. */
    method EndSimpleItem(ghost s0: Spine, ghost item: Node) returns (r: Result<State>)
      requires cursor.d == d && cursor.Valid() && Holds()
      requires Suits(ExpectBlockArrayItem, s0, base, HYPHEN, lastDedentWs) && spine == s0.Add([item], 1)
      requires depth <= cursor.i
      modifies this, cursor
      ensures var goal := Finish(d, old(base), s0, NextItem(d, item, old(cursor.i), old(lastDedentWs), s0.top.indent, FloorOf(old(base), s0), s0.top.Add([], 1).Room()));
        && (r.Err? ==> goal == Err(r.error))
        && (r.Ok? ==> Ready(r.value) && Goal(r.value) == goal && cursor.i >= old(cursor.i))
      ensures r.Ok? ==> Spotless(spine) == old(Spotless(spine))
    {
      hide TapeBuilder.Holds, Finish, Floor, ReadArrayItems, NextItem, Tagged, Pending, Document.ReadEol;
      FinishFail(d, base, s0);
      FinishFail(d, base, spine);
      FloorAdd(base, s0, [item], 1);
      ghost var left := s0.top.Add([], 1).Room();
      NextItemStep(d, item, cursor.i, lastDedentWs, s0.top.indent, FloorOf(base, s0), left);
      FinishAdd(d, base, s0, [item], 1, ItemEnd(d, cursor.i, lastDedentWs, s0.top.indent, FloorOf(base, s0), left));
      var state :- GetEolState(false);
      match state {
        case Sibling => return Ok(ExpectBlockArrayItem);
        case CloseScope => return Ok(ScopeEnd);
        case Nested => return Err(NoStructure);
      }
    }

    /** `- key: ...`: an object of its own, two spaces further in. */
    method DoObjectItem(ghost s0: Spine, name: Span) returns (r: Result<State>)
      requires cursor.d == d && cursor.Valid() && Holds()
      requires Suits(ExpectBlockArrayItem, s0, base, HYPHEN, lastDedentWs) && spine == s0.Add([], 1)
      requires depth + 1 <= cursor.i
      modifies this, cursor
      ensures var inner := ReadPair(d, name, old(cursor.i), old(lastDedentWs), s0.top.indent + 2, FloorOf(old(base), s0));
        var goal := Finish(d, old(base), s0, EndItem(d, inner, s0.top.indent, FloorOf(old(base), s0), s0.top.Add([], 1).Room()));
        && (r.Err? ==> goal == Err(r.error))
        && (r.Ok? ==> Ready(r.value) && Goal(r.value) == goal && cursor.i >= old(cursor.i))
      ensures r.Ok? ==> Spotless(spine) == old(Spotless(spine))
    {
      hide TapeBuilder.Holds, Finish, Floor, ReadPair, ReadPairValue, EndItem, Tagged, Pending, Resume;
      ghost var inner := ReadPair(d, name, cursor.i, lastDedentWs, Indent() + 2, FloorOf(base, s0));
      OpenItem(s0, Indent() + 2, inner);
      PairStep(d, name, cursor.i, lastDedentWs, Indent() + 2, FloorOf(base, s0));
      var indent := CurrIndent();
      OpenScope(true, false, indent + 2);
      ghost var s2 := spine;
      FinishFail(d, base, s2);
      var _ :- InsertKey(name);
      ghost var key := d.Quote(name).value;
      FloorAdd(base, s2, [key], 1);
      var _ :- cursor.UpdateChar();
      FinishAdd(d, base, s2, [key], 1, ReadPairValue(d, cursor.i, lastDedentWs, indent + 2, FloorOf(base, s0)));
      return Ok(ParseSimpleObjectValue);
    }

    /** `- key[N]...: ...`: an object of its own whose first member is a declared container. */
    method DoKeyedItem(ghost s0: Spine, key: Option<Span>, shape: Shape) returns (r: Result<State>)
      requires cursor.d == d && cursor.Valid() && Holds() && key.Some? && shape.Counted()
      requires Suits(ExpectBlockArrayItem, s0, base, HYPHEN, lastDedentWs) && spine == s0.Add([], 1)
      requires depth + 4 + ShapeNest(shape) <= cursor.i
      modifies this, cursor
      ensures match Choose(d, shape, old(cursor.i))
        case Err(e) => r == Err(e)
        case Ok(c) =>
          (var inner := ReadDeclared(d, c.form, key, c.next, old(lastDedentWs), s0.top.indent + d.indentSize, FloorOf(old(base), s0), None);
           var goal := Finish(d, old(base), s0, EndItem(d, inner, s0.top.indent, FloorOf(old(base), s0), s0.top.Add([], 1).Room()));
           && r.Ok? && Ready(r.value) && Goal(r.value) == goal && cursor.i >= old(cursor.i))
      ensures r.Ok? ==> Spotless(spine) == old(Spotless(spine))
    {
      hide TapeBuilder.Holds, Finish, Floor, ReadDeclared, EndItem, Tagged, Pending, Resume;
      var indent := CurrIndent();
      OpenScope(true, false, indent + d.indentSize);
      var form :- ChooseForm(shape);
      ghost var inner := ReadDeclared(d, form, key, cursor.i, lastDedentWs, indent + d.indentSize, FloorOf(base, s0), None);
      OpenItem(s0, indent + d.indentSize, inner);
      return Ok(ParseDeclared(form, key, false));
    }

    /** An object opened for an item, counted as a member of `s0`. */
    lemma OpenItem(s0: Spine, indent: nat, inner: Rest)
      requires Within(d, inner) && Tagged(s0.outer) && Settled(s0.top) && (s0.top.clean ==> !s0.top.isObject)
      ensures var s2 := s0.Add([], 1).Open(true, false, indent);
        && Finish(d, base, s2, inner) == Finish(d, base, s0, EndItem(d, inner, s0.top.indent, FloorOf(base, s0), s0.top.Add([], 1).Room()))
        && FloorOf(base, s2) == FloorOf(base, s0) && Pending(s2.All()) == Pending(s0.All()) && Tagged(s2.outer)
    {
      hide Finish, EndItem, Resume;
      var s1 := s0.Add([], 1);
      FloorAdd(base, s0, [], 1);
      OpenKeeps(base, s1, true, false, indent);
      FinishOpen(d, base, s1, true, false, indent, inner);
      EndItemStep(d, base, s0, inner);
      FinishAdd(d, base, s0, [], 1, Resume(d, base, s1.top, false, s1.outer, true, inner));
    }

    method DoParseDeclared(form: Form, key: Option<Span>, isRoot: bool) returns (r: Result<State>)
      requires Ready(ParseDeclared(form, key, isRoot))
      modifies this, cursor
      ensures r.Err? ==> old(Goal(ParseDeclared(form, key, isRoot))) == Err(r.error)
      ensures r.Ok? ==> Ready(r.value) && Goal(r.value) == old(Goal(ParseDeclared(form, key, isRoot)))
      ensures r.Ok? ==> cursor.i > old(cursor.i)
      ensures r.Ok? ==> Spotless(spine) == old(Spotless(spine))
    {
      hide TapeBuilder.Holds, Finish, Floor, ReadContents, ReadDeclared, ReadRoot, Tagged, Pending, Resume;
      ghost var s0 := spine;
      FinishFail(d, base, s0);
      DeclaredStep(d, base, s0, form, key, isRoot, cursor.i, lastDedentWs);
      if form.EmptyArray? {
        var _ :- cursor.UpdateChar();
      }
      ghost var k: seq<Node> := [];
      if key.Some? {
        var _ :- InsertKey(key.value);
        k := [d.Quote(key.value).value];
      } else {
        assert s0.top.body + [] == s0.top.body;
      }
      FloorAdd(base, s0, k, |k|);
      ghost var inner := ReadContents(d, form, cursor.i, lastDedentWs, s0.top.indent, FloorOf(base, s0), isRoot);
      FinishAdd(d, base, s0, k, |k|, Inside(d, base, spine, form, key.Some?, isRoot, inner));
      r := DoContents(form, key.Some?, isRoot);
    }

    /** What a declared container's parsing may rely on once its key is on the tape. */
    ghost predicate Entered(form: Form, keyed: bool, isRoot: bool)
      reads this, cursor
    {
      && Behind(form, keyed, isRoot)
      && (form.BlockArray? ==> cursor.c == NEWLINE)
      && (form.InlineArray? ==> cursor.c != NEWLINE)
    }

    /** And what of it remains once the header's line has been read to its end. */
    ghost predicate Behind(form: Form, keyed: bool, isRoot: bool)
      reads this, cursor
    {
      && cursor.d == d && cursor.Valid() && Holds() && form.Counted() && depth + 2 + FormNest(form) <= cursor.i
      && Tagged(spine.outer) && (base != [] ==> Pending(spine.All()) != [])
      && (keyed ==> spine.top.isObject && spine.top.expected.None?)
      && (!keyed && !isRoot ==> Settled(spine.top) && (spine.top.clean ==> !spine.top.isObject))
      && (isRoot ==> !keyed && spine == Spine(Fresh(form.IsObject(), 0), Nil) && base == [])
    }

    ghost function ContentsGoal(form: Form, keyed: bool, isRoot: bool): Result<Parsed>
      requires Entered(form, keyed, isRoot)
      reads this, cursor
    {
      Finish(d, base, spine, Inside(d, base, spine, form, keyed, isRoot,
        ReadContents(d, form, cursor.i, lastDedentWs, Indent(), CurrentFloor(), isRoot)))
    }

    method DoContents(form: Form, keyed: bool, isRoot: bool) returns (r: Result<State>)
      requires Entered(form, keyed, isRoot)
      modifies this, cursor
      ensures r.Err? ==> old(ContentsGoal(form, keyed, isRoot)) == Err(r.error)
      ensures r.Ok? ==> Ready(r.value) && Goal(r.value) == old(ContentsGoal(form, keyed, isRoot))
      ensures r.Ok? ==> cursor.i > old(cursor.i) || (form.EmptyArray? && cursor.i == old(cursor.i))
      ensures r.Ok? ==> Spotless(spine) == old(Spotless(spine))
    {
      match form {
        case EmptyArray => r := DoEmptyArray(keyed, isRoot);
        case InlineArray(count, delimiter) => r := DoInlineArray(count, delimiter, keyed, isRoot);
        case BlockArray(count) => r := DoBlockArray(count, keyed, isRoot);
        case _ => r := DoTable(form, keyed, isRoot);
      }
    }

    method DoEmptyArray(keyed: bool, isRoot: bool) returns (r: Result<State>)
      requires Entered(EmptyArray, keyed, isRoot)
      modifies this, cursor
      ensures r.Err? ==> old(ContentsGoal(EmptyArray, keyed, isRoot)) == Err(r.error)
      ensures r.Ok? ==> Ready(r.value) && Goal(r.value) == old(ContentsGoal(EmptyArray, keyed, isRoot))
      ensures r.Ok? ==> cursor.i >= old(cursor.i)
      ensures r.Ok? ==> Spotless(spine) == old(Spotless(spine))
    {
      hide TapeBuilder.Holds, Finish, Floor, Tagged, Pending, Resume, EndOfLine;
      ghost var inner := ReadContents(d, EmptyArray, cursor.i, lastDedentWs, Indent(), CurrentFloor(), isRoot);
      OpenContainer(EmptyArray, keyed, isRoot, inner);
      NoNodes(spine);
      r := EndLine(spine, [], 0, false);
    }

    method DoInlineArray(count: nat, delimiter: Byte, keyed: bool, isRoot: bool) returns (r: Result<State>)
      requires Entered(InlineArray(count, delimiter), keyed, isRoot)
      modifies this, cursor
      ensures r.Err? ==> old(ContentsGoal(InlineArray(count, delimiter), keyed, isRoot)) == Err(r.error)
      ensures r.Ok? ==> Ready(r.value) && Goal(r.value) == old(ContentsGoal(InlineArray(count, delimiter), keyed, isRoot))
      ensures r.Ok? ==> cursor.i > old(cursor.i)
      ensures r.Ok? ==> Spotless(spine) == old(Spotless(spine))
    {
      hide TapeBuilder.Holds, Finish, Floor, Tagged, Pending, Resume, EndOfLine, ReadItems;
      ghost var inner := ReadContents(d, InlineArray(count, delimiter), cursor.i, lastDedentWs, Indent(), CurrentFloor(), isRoot);
      OpenContainer(InlineArray(count, delimiter), keyed, isRoot, inner);
      ghost var s1 := spine;
      FinishFail(d, base, s1);
      ItemsAdvance(d, count, cursor.i, delimiter);
      ghost var items := ReadItems(d, count, cursor.i, delimiter);
      var _ :- InlineItems(count, delimiter);
      FloorAdd(base, s1, items.value.nodes, |items.value.nodes|);
      r := EndLine(s1, items.value.nodes, |items.value.nodes|, true);
    }

    /** The line break behind an array written on one line, whose items have been added to `s1`. */
    method EndLine(ghost s1: Spine, ghost nodes: seq<Node>, ghost n: nat, noBlank: bool) returns (r: Result<State>)
      requires cursor.d == d && cursor.Valid() && Holds() && depth <= cursor.i
      requires spine == s1.Add(nodes, n) && Tagged(s1.outer) && FloorOf(base, spine) == FloorOf(base, s1)
      requires base != [] ==> Pending(spine.All()) != [] || spine.outer.Nil?
      modifies cursor, `lastDedentWs
      ensures var goal := Finish(d, base, s1,
          EndOfLine(d, Nodes(nodes, old(cursor.i)), n, old(lastDedentWs), s1.top.indent, FloorOf(base, s1), noBlank));
        && (r.Err? ==> goal == Err(r.error))
        && (r.Ok? ==> Ready(r.value) && Goal(r.value) == goal && cursor.i >= old(cursor.i))
    {
      hide TapeBuilder.Holds, Finish, Floor, Tagged, Pending, Document.ReadEol;
      FinishFail(d, base, s1);
      var state :- GetEolState(noBlank);
      if state == Nested {
        return Err(NoStructure);
      }
      FinishAdd(d, base, s1, nodes, n, Done([], 0, cursor.i, lastDedentWs, true));
      assert nodes + [] == nodes;
      return Ok(ScopeEnd);
    }

    /** The line break under a block header must open the next indentation. */
    method ExpectNested() returns (r: Result<()>)
      requires cursor.d == d && cursor.Valid() && Holds()
      modifies cursor, `lastDedentWs
      ensures match ReadEol(d, old(cursor.i), old(lastDedentWs), Indent(), CurrentFloor())
              case Err(e) => r == Err(e)
              case Ok(eol) => r.Ok? && cursor.Valid() && cursor.i == eol.i && lastDedentWs == eol.ws
      ensures r.Ok? ==> AtLine(d, cursor.i, lastDedentWs)
    {
      hide TapeBuilder.Holds, Floor, Document.ReadEol, AtLine;
      var state :- GetEolState(false);
      return if state == Nested then Ok(()) else Err(ExpectedArrayContent);
    }

    method DoBlockArray(count: nat, keyed: bool, isRoot: bool) returns (r: Result<State>)
      requires Entered(BlockArray(count), keyed, isRoot)
      modifies this, cursor
      ensures r.Err? ==> old(ContentsGoal(BlockArray(count), keyed, isRoot)) == Err(r.error)
      ensures r.Ok? ==> Ready(r.value) && Goal(r.value) == old(ContentsGoal(BlockArray(count), keyed, isRoot))
      ensures r.Ok? ==> cursor.i > old(cursor.i)
      ensures r.Ok? ==> Spotless(spine) == old(Spotless(spine))
    {
      hide TapeBuilder.Holds, Finish, Floor, Tagged, Pending, Resume, ReadArrayItems, Document.ReadEol, CheckCount;
      ghost var inner := ReadContents(d, BlockArray(count), cursor.i, lastDedentWs, Indent(), CurrentFloor(), isRoot);
      FinishFail(d, base, spine);
      var _ :- ExpectNested();
      OpenContainer(BlockArray(count), keyed, isRoot, inner);
      ghost var s1 := spine;
      ExpectCount(count);
      FinishBlock(d, base, s1, count,
                  ReadArrayItems(d, cursor.i, lastDedentWs, s1.top.indent, BlockFloor(FloorOf(base, s1), s1.top.indent, isRoot), Some(count)));
      return Ok(ExpectBlockArrayItem);
    }

    /** Only block arrays carry their declared count across states. */
    method ExpectCount(count: nat)
      requires Holds() && spine.top.expected.None?
      requires base != [] ==> Pending(spine.All()) != [] || spine.outer.Nil?
      modifies `pendingCounts, `spine
      ensures Holds() && spine == old(spine).(top := old(spine).top.(expected := Some(count)))
      ensures FloorOf(base, spine) == BlockFloor(FloorOf(base, old(spine)), spine.top.indent, base != [] && spine.outer.Nil?)
      ensures Pending(spine.All()) != []
    {
      FloorIsFirstPending(base, spine.All());
      assert Pending(spine.outer) + [] == Pending(spine.outer);
      pendingCounts := pendingCounts + [(depth, count)];
      spine := spine.(top := spine.top.(expected := Some(count)));
    }

    /** The formats that are read row by row, from the header's `:` on. */
    method DoTable(form: Form, keyed: bool, isRoot: bool) returns (r: Result<State>)
      requires Entered(form, keyed, isRoot) && (form.HasRows() || form.TabularArrayLenient?)
      modifies this, cursor
      ensures r.Err? ==> old(ContentsGoal(form, keyed, isRoot)) == Err(r.error)
      ensures r.Ok? ==> Ready(r.value) && Goal(r.value) == old(ContentsGoal(form, keyed, isRoot))
      ensures r.Ok? ==> cursor.i > old(cursor.i)
      ensures r.Ok? ==> Spotless(spine) == old(Spotless(spine))
    {
      hide TapeBuilder.Holds, Finish, Floor, Tagged, Pending, Resume, Document.ReadEol, ReadTableRows, Height;
      ghost var inner := ReadContents(d, form, cursor.i, lastDedentWs, Indent(), CurrentFloor(), isRoot);
      FinishFail(d, base, spine);
      var _ :- cursor.UpdateChar();
      var _ :- ExpectNested();
      OpenContainer(form, keyed, isRoot, inner);
      r := DoRows(form);
    }

    ghost predicate AtRows(form: Form)
      reads this, cursor
    {
      && cursor.d == d && cursor.Valid() && Holds() && form.Counted() && (form.HasRows() || form.TabularArrayLenient?)
      && Tagged(spine.outer) && (base != [] ==> Pending(spine.All()) != [] || spine.outer.Nil?)
      && depth + 1 + FormNest(form) <= cursor.i && AtLine(d, cursor.i, lastDedentWs)
    }

    ghost function RowsGoal(form: Form): Result<Parsed>
      requires AtRows(form)
      reads this, cursor
    {
      Finish(d, base, spine, Lift(ReadTableRows(d, form, cursor.i, lastDedentWs, Indent(), CurrentFloor())))
    }

    /** The rows of a table that has been opened. */
    method DoRows(form: Form) returns (r: Result<State>)
      requires AtRows(form)
      modifies cursor, `tape, `stack, `depth, `lastStart, `cnt, `contentWs, `spine, `lastDedentWs
      ensures r.Err? ==> old(RowsGoal(form)) == Err(r.error)
      ensures r.Ok? ==> r.value == ScopeEnd && Ready(ScopeEnd) && Goal(ScopeEnd) == old(RowsGoal(form))
      ensures r.Ok? ==> cursor.i >= old(cursor.i)
      ensures r.Ok? ==> Spotless(spine) == old(Spotless(spine))
    {
      hide TapeBuilder.Holds, Finish, Floor, Tagged, Pending, ReadTableRows, Height, AtLine, BreakOrLine, FormNest;
      ghost var s1 := spine;
      FinishFail(d, base, s1);
      DepthIs();
      ghost var rows := ReadTableRows(d, form, cursor.i, lastDedentWs, Indent(), CurrentFloor());
      var _ :- InsertTableRows(form);
      DepthIs();
      FloorAdd(base, s1, rows.value.nodes, rows.value.n);
      FinishAdd(d, base, s1, rows.value.nodes, rows.value.n, Done([], 0, cursor.i, lastDedentWs, true));
      assert rows.value.nodes + [] == rows.value.nodes;
      return Ok(ScopeEnd);
    }

    lemma DepthIs()
      requires Holds()
      ensures depth == 1 + Height(spine.outer) && contentWs != []
    {
    }

    method InsertTableRows(form: Form) returns (r: Result<()>)
      requires Holds() && cursor.Valid() && cursor.d == d && form.Counted() && (form.HasRows() || form.TabularArrayLenient?)
      requires depth + 1 + FormNest(form) <= cursor.i && AtLine(d, cursor.i, lastDedentWs)
      modifies cursor, `tape, `stack, `depth, `lastStart, `cnt, `contentWs, `spine, `lastDedentWs
      ensures r.Ok? ==> cursor.Valid() && cursor.i >= old(cursor.i) && depth == old(depth) && BreakOrLine(d, cursor.i, lastDedentWs)
      ensures match ReadTableRows(d, form, old(cursor.i), old(lastDedentWs), old(Indent()), old(CurrentFloor()))
              case Err(e) => r == Err(e)
              case Ok(b) => (r.Ok? && Holds() && cursor.Valid() && cursor.i == b.i && lastDedentWs == b.ws
                             && spine == old(spine).Add(b.nodes, b.n))
    {
      hide TapeBuilder.Holds, Floor, ReadRows, ReadAnyRows, AtLine, FormNest;
      if form.TabularArrayLenient? {
        r := InsertAnyRows(form.headers, form.delimiter);
      } else if RowCount(form) > 0 {
        r := InsertRows(form, RowCount(form));
      } else {
        NoNodes(spine);
        return Ok(());
      }
    }

    /** Opens a declared container; the root container is on the tape already and only takes its indentation. */
    method OpenContainer(form: Form, keyed: bool, isRoot: bool, ghost rest: Rest)
      requires Behind(form, keyed, isRoot) && Within(d, rest)
      modifies `tape, `stack, `depth, `lastStart, `cnt, `contentWs, `spine, `base
      ensures Holds() && depth <= old(depth) + 1 && Tagged(spine.outer)
      ensures spine.top == Fresh(form.IsObject(), MemberIndent(d, form, old(Indent()), isRoot))
      ensures CurrentFloor() == old(CurrentFloor()) && Pending(spine.All()) == old(Pending(spine.All()))
      ensures isRoot ==> spine.outer.Nil? && base == [0] && depth == 1
      ensures !isRoot ==> spine.outer.Frame?
      ensures !isRoot ==> base == old(base)
      ensures Finish(d, base, spine, rest) == Finish(d, old(base), old(spine), Inside(d, old(base), old(spine), form, keyed, isRoot, rest))
      ensures Spotless(spine) == old(Spotless(spine))
    {
      hide Finish, Floor, Resume;
      var indent := CurrIndent();
      if isRoot {
        IndentRoot(d, base, [0], spine, indent + d.indentSize, rest);
        assert Indents(spine.All()) == [0] && Pending(spine.All()) == [];
        contentWs := contentWs + [indent + d.indentSize];
        base := [0];
        spine := spine.(top := spine.top.(indent := indent + d.indentSize));
        assert Indents(spine.All()) == [d.indentSize];
      } else {
        var inside := if form.InlineArray? then indent else indent + d.indentSize;
        OpenKeeps(base, spine, form.IsObject(), keyed, inside);
        FinishOpen(d, base, spine, form.IsObject(), keyed, inside, rest);
        OpenScope(form.IsObject(), keyed, inside);
      }
    }

    /** The end of the current container; no state is left behind the end of the root. */
    method DoScopeEnd() returns (r: Result<Option<State>>)
      requires Ready(ScopeEnd)
      modifies this, cursor
      ensures r.Err? ==> old(Goal(ScopeEnd)) == Err(r.error)
      ensures r.Ok? && r.value.None? ==>
        old(Goal(ScopeEnd)).Ok? && tape == old(Goal(ScopeEnd)).value.tape && cursor.i == |d.indexes|
      ensures r.Ok? && r.value.Some? ==>
        Ready(r.value.value) && Goal(r.value.value) == old(Goal(ScopeEnd)) && cursor.i >= old(cursor.i)
        && (cursor.i == old(cursor.i) ==> depth < old(depth))
      ensures r.Ok? && r.value.Some? ==> Spotless(spine) == old(Spotless(spine))
      ensures r.Ok? && r.value.None? ==> old(Goal(ScopeEnd)).value.clean == old(Spotless(spine))
    {
      hide TapeBuilder.Holds, TapeBuilder.Closing, Finish, Tagged, Pending, AtEnd, OnTape, Frames;
      FinishCounted(d, base, spine, cursor.i, lastDedentWs);
      var _ :- PopPending();
      DepthIs();
      Backfill();
      TopFrame();
      if stack[depth - 1].Start? {
        var _ :- EndRoot();
        return Ok(None);
      }
      var state :- EndInner();
      return Ok(Some(state));
    }

    /** A container whose header has been filled in and which is still on the stacks. */
    ghost predicate Closing()
      reads `tape, `stack, `depth, `contentWs, `pendingCounts, `spine, `base
    {
      && spine.top.expected.None?
      && tape == OnTape(spine.outer) + Closed(spine.top.isObject, spine.top.body, spine.top.cnt)
      && stack == Frames(spine.outer) && depth == Height(spine.All())
      && contentWs == base + Indents(spine.All()) && pendingCounts == Pending(spine.All())
      && Nondecreasing(spine.All())
      && (base == [] || (base == [0] && (pendingCounts != [] ==> pendingCounts[0].0 == 1)))
    }

    method EndRoot() returns (r: Result<()>)
      requires cursor.d == d && cursor.Valid() && Closing() && spine.outer.Nil?
      modifies cursor, `depth, `contentWs
      ensures match old(Finish(d, base, spine, Done([], 0, cursor.i, lastDedentWs, true)))
              case Err(e) => r == Err(e)
              case Ok(p) => r.Ok? && tape == p.tape && cursor.i == |d.indexes|
      ensures r.Ok? ==> old(Finish(d, base, spine, Done([], 0, cursor.i, lastDedentWs, true))).value.clean == Spotless(spine)
    {
      hide Finish, AtEnd, Indents, Nondecreasing;
      FinishRoot(d, base, spine, cursor.i, lastDedentWs);
      depth := depth - 1;
      contentWs := contentWs[..|contentWs| - 1];
      r := SkipToEnd();
    }

    method EndInner() returns (r: Result<State>)
      requires cursor.d == d && cursor.Valid() && Closing() && spine.outer.Frame? && depth <= cursor.i
      requires Tagged(spine.outer) && (base != [] ==> Pending(spine.All()) != [])
      requires BreakOrLine(d, cursor.i, lastDedentWs)
      modifies this, cursor
      ensures var goal := old(Finish(d, base, spine, Done([], 0, cursor.i, lastDedentWs, true)));
        && (r.Err? ==> goal == Err(r.error))
        && (r.Ok? ==> Ready(r.value) && Goal(r.value) == goal && cursor.i >= old(cursor.i) && depth < old(depth))
      ensures r.Ok? ==> Spotless(spine) == old(Spotless(spine))
    {
      hide TapeBuilder.Holds, TapeBuilder.Closing, Finish, Floor, Tagged, Pending, ReadOn, OnTape, Frames;
      TopFrame();
      var keyed := stack[depth - 1].InObject?;
      CloseKeeps(spine);
      FinishClose(d, base, spine, cursor.i, lastDedentWs);
      Pop();
      r := ResumeOuter(keyed);
    }

    /** The frame on top tells what kind of container goes on, or that the root has ended. */
    lemma TopFrame()
      requires Closing()
      ensures 1 <= depth == |stack| && spine.top.expected.None?
      ensures stack[depth - 1].Start? <==> spine.outer.Nil?
      ensures spine.outer.Frame? ==> (stack[depth - 1].InObject? <==> spine.outer.keyed)
    {
    }

    /** The pending count of a block array that ends is dropped; in strict mode it must have been met. */
    method PopPending() returns (r: Result<()>)
      requires Ready(ScopeEnd)
      modifies `pendingCounts, `spine
      ensures Holds() && spine == old(spine).(top := old(spine).top.(expected := None))
      ensures spine.outer.Frame? && base != [] ==> Pending(spine.All()) != []
      ensures var top := old(spine).top;
        r == if d.strict && top.expected.Some? && top.cnt != top.expected.value then Err(Syntax) else Ok(())
    {
      hide Suits, Nondecreasing, Tagged, OnTape, Frames, Indents, Height, Pending;
      LastPending();
      EndSuits();
      DropExpected(spine);
      if pendingCounts != [] {
        var (level, expected) := pendingCounts[|pendingCounts| - 1];
        if level == depth {
          pendingCounts := pendingCounts[..|pendingCounts| - 1];
          spine := spine.(top := spine.top.(expected := None));
          if d.strict && cnt != expected {
            return Err(Syntax);
          }
        }
      }
      return Ok(());
    }

    lemma EndSuits()
      requires Ready(ScopeEnd)
      ensures spine.outer.Frame? && base != [] ==> Pending(spine.All()) != []
    {
    }

    /** Only newlines may follow the root. */
    method SkipToEnd() returns (r: Result<()>)
      requires cursor.d == d && cursor.Valid()
      modifies cursor
      ensures if AtEnd(d, old(cursor.i)) then r.Ok? && cursor.i == |d.indexes| else r == Err(TapeError)
    {
      while cursor.i < |d.indexes| && cursor.c == NEWLINE
        invariant cursor.Valid() && AtEnd(d, cursor.i) == AtEnd(d, old(cursor.i))
        decreases |d.indexes| - cursor.i
      {
        var _ := cursor.UpdateChar();
      }
      return if cursor.i == |d.indexes| then Ok(()) else Err(TapeError);
    }

    /** The container around a closed one goes on, ends too, or cannot follow. */
    method ResumeOuter(keyed: bool) returns (r: Result<State>)
      requires cursor.d == d && cursor.Valid() && Holds() && depth <= cursor.i
      requires Tagged(spine.outer) && (base != [] ==> Pending(spine.All()) != [])
      requires keyed ==> spine.top.isObject
      requires !keyed ==> spine.top.clean ==> !spine.top.isObject
      requires Settled(spine.top) && BreakOrLine(d, cursor.i, lastDedentWs)
      modifies cursor, `lastDedentWs
      ensures var goal := Finish(d, base, spine,
          ReadOn(d, keyed, old(cursor.i), old(lastDedentWs), Indent(), CurrentFloor(), spine.top.Room()));
        && (r.Err? ==> goal == Err(r.error))
        && (r.Ok? ==> Ready(r.value) && Goal(r.value) == goal && cursor.i >= old(cursor.i))
    {
      hide TapeBuilder.Holds, Finish, Floor, Tagged, Pending, ReadFieldsOf, ReadArrayItems, Document.ReadEol;
      FinishFail(d, base, spine);
      if !keyed && cursor.i >= |d.indexes| {
        return Ok(ScopeEnd);
      }
      // A newline that an inner container has consumed is judged by the indentation measured then.
      var state;
      if cursor.c == NEWLINE {
        state :- GetEolState(false);
      } else {
        state :- EolStateFromWs(lastDedentWs);
      }
      match state {
        case CloseScope => return Ok(ScopeEnd);
        case Nested => return Err(NoStructure);
        case Sibling => return Ok(if keyed then ParseHeader else ExpectBlockArrayItem);
      }
    }

    // ----- The whole document -----

    /** The first token, behind a leading `#` and blank lines. */
    method SkipToStart() returns (r: Result<()>)
      requires d.Valid() && cursor.d == d && cursor.i == 0
      modifies cursor
      ensures match Grammar.Start(d)
              case Err(e) => r == Err(e)
              case Ok(i) => r.Ok? && cursor.Valid() && cursor.i == i
    {
      var _ :- cursor.UpdateChar();
      if cursor.c == HASH {
        var _ :- cursor.UpdateChar();
      }
      ghost var i0 := cursor.i;
      while cursor.c == NEWLINE
        invariant cursor.Valid() && Grammar.SkipNewlines(d, cursor.i) == Grammar.SkipNewlines(d, i0)
        decreases |d.indexes| - cursor.i
      {
        var _ :- cursor.UpdateChar();
      }
      return Ok(());
    }

    /** The root container is put on the tape before anything is read into it. */
    method OpenRoot(isObject: bool)
      requires cursor.d == d && cursor.Valid() && tape == [] && lastDedentWs == 0
      modifies `tape, `stack, `depth, `lastStart, `cnt, `contentWs, `pendingCounts, `spine, `base
      ensures Holds() && spine == Spine(Fresh(isObject, 0), Nil) && base == [] && depth == 1
      ensures CurrentFloor() == None && Pending(spine.All()) == []
      ensures forall rest :: Within(d, rest) ==> Finish(d, base, spine, rest) == CloseRoot(d, isObject, rest)
    {
      stack, depth, lastStart, cnt := [Start], 1, 0, 0;
      contentWs, pendingCounts := [0], [];
      InsertRoot(isObject);
      forall rest | Within(d, rest)
        ensures Finish(d, base, spine, rest) == CloseRoot(d, isObject, rest)
      {
        assert rest.Done? ==> [] + rest.nodes == rest.nodes;
      }
    }

    method InsertRoot(isObject: bool)
      modifies `tape, `spine, `base
      ensures tape == old(tape) + [Container(isObject, 0, 0)]
      ensures spine == Spine(Fresh(isObject, 0), Nil) && base == []
    {
      tape := tape + [Container(isObject, 0, 0)];
      spine, base := Spine(Fresh(isObject, 0), Nil), [];
    }

    /** The root's header decides what the document is put into. */
    method DoRoot(header: Header) returns (r: Result<State>)
      requires cursor.d == d && cursor.Valid() && tape == [] && lastDedentWs == 0
      requires header.ObjectStart? || header.Declared?
      requires header.Declared? ==> header.shape.Counted() && cursor.i >= 3 + ShapeNest(header.shape)
      modifies this, cursor
      ensures var goal := ParseRoot(d, header, old(cursor.i));
        && (r.Err? ==> goal == Err(r.error))
        && (r.Ok? ==> Ready(r.value) && Goal(r.value) == goal)
      ensures r.Ok? ==> Spotless(spine)
    {
      hide Finish, Floor, ReadPair, ReadPairValue, ReadDeclared, ReadRoot, CloseRoot, Choose;
      match header {
        case ObjectStart(name) =>
          PairStep(d, name, cursor.i, 0, 0, None);
          OpenRoot(true);
          FinishFail(d, base, spine);
          ghost var s0 := spine;
          var _ :- InsertKey(name);
          ghost var key := d.Quote(name).value;
          FloorAdd(base, s0, [key], 1);
          var _ :- cursor.UpdateChar();
          FinishAdd(d, base, s0, [key], 1, ReadPairValue(d, cursor.i, 0, 0, None));
          return Ok(ParseSimpleObjectValue);
        case Declared(key, shape) =>
          if shape.Rows? && !d.strict {
            // Only a header at the root is read leniently.
            r := EnterRoot(TabularArrayLenient(shape.headers, shape.delimiter), key);
          } else {
            var form :- ChooseForm(shape);
            r := EnterRoot(form, key);
          }
      }
    }

    method EnterRoot(form: Form, key: Option<Span>) returns (r: Result<State>)
      requires cursor.d == d && cursor.Valid() && tape == [] && lastDedentWs == 0 && cursor.i >= 3 + FormNest(form) && form.Counted()
      requires (form.BlockArray? ==> cursor.c == NEWLINE) && (form.InlineArray? ==> cursor.c != NEWLINE)
      modifies this
      ensures r.Ok? && Ready(r.value) && Goal(r.value) == EnterGoal(d, form, key, cursor.i)
      ensures Spotless(spine)
    {
      hide Finish, Floor, ReadDeclared, ReadRoot, CloseRoot;
      OpenRoot(key.Some? || form.IsObject());
      return Ok(ParseDeclared(form, key, key.None?));
    }

    /**
     * Builds the tape of the document: the tape and the error are those of the recursive grammar. Every moment of the
     * run is sound, and the tape is a well-formed value exactly if none of them is on a line that spoils it.
     */
    method BuildTape() returns (r: Result<()>, ghost run: seq<Moment>)
      requires d.Valid() && cursor.d == d && cursor.i == 0
      modifies this, cursor
      ensures match Grammar.Parse(d)
              case Err(e) => r == Err(e)
              case Ok(p) => r.Ok? && tape == p.tape
      ensures r.Ok? ==> cursor.i == |d.indexes|
      ensures forall m :: m in run ==> Sound(d, m, Grammar.Parse(d))
      ensures r.Ok? ==> (IsValue(tape) <==> forall m :: m in run ==> !Spoiling(d, m))
    {
      hide Finish, Floor, ReadPair, ReadDeclared, ReadRoot, CloseRoot, Choose, Document.ReadHeader, Grammar.Start, TapeBuilder.Goal;
      hide Sound, Spoiling, IsValue;
      run := [];
      WellFormed.ParsedIsValue(d);
      tape, lastDedentWs := [], 0;
      var _ :- SkipToStart();
      HeaderNests(d, cursor.i);
      var header :- cursor.ReadHeader();
      if header.PrimitiveValue? {
        if cursor.i < |d.indexes| {
          return Err(Syntax), run;
        }
        var node :- InferNode(header.val);
        tape := [node];
        return Ok(()), run;
      }
      if header.EmptyObject? {
        return Err(NoStructure), run;
      }
      var state :- DoRoot(header);
      r, run := Run(state);
    }

    method Run(start: State) returns (r: Result<()>, ghost run: seq<Moment>)
      requires Ready(start) && Spotless(spine)
      modifies this, cursor
      ensures match old(Goal(start))
              case Err(e) => r == Err(e)
              case Ok(p) => r.Ok? && tape == p.tape && cursor.i == |d.indexes|
      ensures run != [] && run[0] == old(Now(start))
      ensures forall m :: m in run ==> Sound(d, m, old(Goal(start)))
      ensures r.Ok? ==> (old(Goal(start)).value.clean <==> forall m :: m in run ==> !Spoiling(d, m))
    {
      hide TapeBuilder.Goal, Sound, Spotless, Spoiling;
      var state := start;
      run := [];
      while true
        invariant Ready(state) && Goal(state) == old(Goal(start))
        invariant if run == [] then Now(state) == old(Now(start)) else run[0] == old(Now(start))
        invariant forall m :: m in run ==> Sound(d, m, old(Goal(start)))
        invariant Spotless(spine) <==> forall m :: m in run ==> !Spoiling(d, m)
        decreases |d.indexes| - cursor.i, depth, Rank(state)
      {
        StateIsSound(state);
        NowSpoils(state);
        run := run + [Now(state)];
        match state {
          case ParseHeader => state :- DoParseHeader();
          case ParseSimpleObjectValue => state :- DoParseSimpleObjectValue();
          case ExpectBlockArrayItem => state :- DoExpectBlockArrayItem();
          case ParseDeclared(form, key, isRoot) => state :- DoParseDeclared(form, key, isRoot);
          case ScopeEnd =>
            var next :- DoScopeEnd();
            if next.None? {
              return Ok(()), run;
            }
            state := next.value;
        }
      }
    }

    lemma NowSpoils(state: State)
      requires Ready(state)
      ensures Spoiling(d, Now(state)) <==> Spoils(d, state, cursor.i, Indent())
    {
      hide Spoils, Nondecreasing, Pending, OnTape, Frames;
      ContentAscends(base, spine);
    }

    /** A member without a key is not sound in an object. */
    ghost method Taint(rest: Rest)
      requires Holds() && Within(d, rest)
      modifies `spine
      ensures Holds() && spine == old(spine).(top := old(spine).top.(clean := false))
      ensures Floor(base, spine.top, spine.outer) == Floor(base, old(spine).top, spine.outer)
      ensures Pending(spine.All()) == Pending(old(spine).All())
      ensures Finish(d, base, spine, rest) == Finish(d, base, old(spine), rest.Prepend([], 0, false))
    {
      FinishTaint(d, base, spine, rest);
      spine := spine.(top := spine.top.(clean := false));
    }
  }

  /** A row of nested groups ends on a newline, or has nothing to read. */
  lemma {:induction false} RowEndsLine(d: Document, fields: seq<Field>, leaves: nat, i: nat, delimiter: Byte)
    requires d.At(i) && leaves == Leaves(fields)
    ensures var r := ReadBranch(d, fields, 0, leaves, i, delimiter);
      r.Ok? ==> d.Char(r.value.next) == NEWLINE || r.value.next == i
  {
    hide ReadBranch;
    if leaves > 0 {
      Counts.OnlyLastLeafEndsLine(d, fields, 0, leaves, i, delimiter);
    } else {
      Counts.NoLeavesNoMove(d, fields, 0, leaves, i, delimiter);
    }
  }

  /** Entries of a row that have been put on the tape already. */
  function AfterBranch(done: seq<Node>, r: Result<Branch>): Result<Branch> {
    if r.Err? then r else Ok(Branch(done + r.value.nodes, r.value.seen, r.value.next))
  }

  lemma BranchStarts(s: Spine, r: Result<Branch>)
    ensures s.Add([], 0) == s && AfterBranch([], r) == r
  {
    assert s.top.body + [] == s.top.body;
    if r.Ok? {
      assert [] + r.value.nodes == r.value.nodes;
    }
  }

  lemma {:induction false} BranchStep(d: Document, fields: seq<Field>, seen: nat, leaves: nat, i: nat, delimiter: Byte)
    requires d.At(i) && fields != []
    ensures ReadBranch(d, fields, seen, leaves, i, delimiter)
         == match ReadEntry(d, fields[0], seen, leaves, i, delimiter)
            case Err(e) => Err(e)
            case Ok(b) => AfterBranch(b.nodes, ReadBranch(d, fields[1..], b.seen, leaves, b.next, delimiter))
  {
  }

  lemma {:induction false} BranchEnds(d: Document, seen: nat, leaves: nat, i: nat, delimiter: Byte)
    requires d.At(i)
    ensures ReadBranch(d, [], seen, leaves, i, delimiter) == Ok(Branch([], seen, i))
  {
  }

  lemma BranchContinues(s: Spine, done: seq<Node>, k: nat, nodes: seq<Node>, r: Result<Branch>)
    ensures s.Add(done, k).Add(nodes, 1) == s.Add(done + nodes, k + 1)
    ensures AfterBranch(done, AfterBranch(nodes, r)) == AfterBranch(done + nodes, r)
  {
    assert s.top.body + done + nodes == s.top.body + (done + nodes);
    if r.Ok? {
      assert done + (nodes + r.value.nodes) == done + nodes + r.value.nodes;
    }
  }

  lemma AddTwice(s: Spine, nodes: seq<Node>, k: nat, m: nat)
    ensures forall more :: s.Add(nodes, k).Add(more, m) == s.Add(nodes + more, k + m)
    ensures forall more: seq<Node> :: [] + more == more
  {
    forall more: seq<Node>
      ensures s.Add(nodes, k).Add(more, m) == s.Add(nodes + more, k + m)
    {
      assert s.top.body + nodes + more == s.top.body + (nodes + more);
    }
  }

  /** Rows that have been put on the tape already. */
  function AfterRows(done: seq<Node>, k: nat, r: Result<Body>): Result<Body> {
    if r.Err? then r else Ok(Body(done + r.value.nodes, k + r.value.n, r.value.i, r.value.ws))
  }

  lemma RowsStart(s: Spine, r: Result<Body>)
    ensures s.Add([], 0) == s && AfterRows([], 0, r) == r
  {
    assert s.top.body + [] == s.top.body;
    if r.Ok? {
      assert [] + r.value.nodes == r.value.nodes;
    }
  }

  lemma RowsContinue(s: Spine, done: seq<Node>, k: nat, row: seq<Node>, r: Result<Body>)
    ensures s.Add(done, k).Add(row, 1) == s.Add(done + row, k + 1)
    ensures AfterRows(done, k, AfterRows(row, 1, r)) == AfterRows(done + row, k + 1, r)
    ensures row + [] == row
  {
    assert s.top.body + done + row == s.top.body + (done + row);
    if r.Ok? {
      assert done + (row + r.value.nodes) == done + row + r.value.nodes;
    }
  }

  lemma {:induction false} RowsStep(d: Document, form: Form, rows: nat, i: nat, ws: nat, indent: nat, floor: Option<nat>)
    requires d.At(i) && form.HasRows() && rows > 0
    ensures ReadRows(d, form, rows, i, ws, indent, floor)
         == match ReadRow(d, form, i)
            case Err(e) => Err(e)
            case Ok(row) =>
              if rows == 1 then AfterRows(row.nodes, 1, Ok(Body([], 0, row.next, ws)))
              else match d.ReadEol(row.next, ws, indent, floor, true)
                case Err(e) => Err(e)
                case Ok(eol) =>
                  if eol.state != Sibling then Err(Syntax)
                  else AfterRows(row.nodes, 1, ReadRows(d, form, rows - 1, eol.i, eol.ws, indent, floor))
  {
    hide ReadRow, Document.ReadEol;
    var row := ReadRow(d, form, i);
    if row.Ok? {
      assert row.value.nodes + [] == row.value.nodes;
    }
  }

  lemma {:induction false} AnyRowsStep(d: Document, headers: seq<Span>, delimiter: Byte, i: nat, ws: nat, indent: nat, floor: Option<nat>)
    requires d.At(i)
    ensures ReadAnyRows(d, headers, delimiter, i, ws, indent, floor)
         == match ReadFlatRow(d, headers, i, delimiter, false)
            case Err(e) => Err(e)
            case Ok(row) =>
              match d.ReadEol(row.next, ws, indent, floor, true)
              case Err(e) => Err(e)
              case Ok(eol) =>
                match eol.state
                case CloseScope => AfterRows(row.nodes, 1, Ok(Body([], 0, eol.i, eol.ws)))
                case Nested => Err(Syntax)
                case Sibling => AfterRows(row.nodes, 1, ReadAnyRows(d, headers, delimiter, eol.i, eol.ws, indent, floor))
  {
    hide ReadFlatRow, Document.ReadEol;
    var row := ReadFlatRow(d, headers, i, delimiter, false);
    if row.Ok? {
      assert row.value.nodes + [] == row.value.nodes;
    }
  }

  /** What is put into a container changes neither its indentation nor its floor. */
  lemma FloorAdd(base: seq<nat>, s: Spine, nodes: seq<Node>, k: nat)
    ensures s.Add(nodes, k).top.indent == s.top.indent
    ensures Floor(base, s.Add(nodes, k).top, s.Add(nodes, k).outer) == Floor(base, s.top, s.outer)
    ensures Pending(s.Add(nodes, k).All()) == Pending(s.All())
  {
  }

  /** A name and the token behind it. */
  function ReadNamed(d: Document, name: Span, i: nat, stops: set<Byte>): (r: Result<Nodes>)
    requires d.At(i)
    ensures r.Ok? ==> i <= r.value.next <= |d.indexes|
  {
    var key :- d.Quote(name);
    var t :- d.ReadToken(i, stops);
    var v :- d.Infer(t.span);
    Ok(Nodes([key, v], t.next))
  }

  lemma {:induction false} CellsStep(d: Document, headers: seq<Span>, k: nat, i: nat, delimiter: Byte, keyed: bool)
    requires d.At(i) && k + 1 < |headers|
    ensures var first := ReadNamed(d, headers[k], i, {delimiter});
      var r := ReadCells(d, headers, k, i, delimiter, keyed);
      if first.Err? then r == Err(first.error)
      else match d.Next(first.value.next)
        case Err(e) => r == Err(e)
        case Ok(j) => r == AfterItems(first.value.nodes, ReadCells(d, headers, k + 1, j, delimiter, keyed))
  {
  }

  /** The last cell of a row is the only cell of the row that consists of it. */
  lemma {:induction false} CellsLast(d: Document, headers: seq<Span>, i: nat, delimiter: Byte, keyed: bool)
    requires d.At(i) && headers != []
    ensures var k := |headers| - 1;
      ReadCells(d, headers, k, i, delimiter, keyed) == ReadCells(d, [headers[k]], 0, i, COMMA, keyed && |headers| == 1)
  {
  }

  lemma NodesContinue(s: Spine, done: seq<Node>, k: nat, nodes: seq<Node>, m: nat, r: Result<Nodes>)
    ensures s.Add(done, k).Add(nodes, m) == s.Add(done + nodes, k + m)
    ensures AfterItems(done, AfterItems(nodes, r)) == AfterItems(done + nodes, r)
    ensures done + nodes + [] == done + nodes
  {
    assert s.top.body + done + nodes == s.top.body + (done + nodes);
    if r.Ok? {
      assert done + (nodes + r.value.nodes) == done + nodes + r.value.nodes;
    }
  }

  /** Items that have been put on the tape already. */
  function AfterItems(done: seq<Node>, r: Result<Nodes>): Result<Nodes> {
    if r.Err? then r else Ok(Nodes(done + r.value.nodes, r.value.next))
  }

  lemma NothingDone(s: Spine, r: Result<Nodes>)
    ensures s.Add([], 0) == s && AfterItems([], r) == r
  {
    assert s.top.body + [] == s.top.body;
    if r.Ok? {
      assert [] + r.value.nodes == r.value.nodes;
    }
  }

  lemma ItemsContinue(s: Spine, done: seq<Node>, v: Node, r: Result<Nodes>)
    ensures s.Add(done, |done|).Add([v], 1) == s.Add(done + [v], |done + [v]|)
    ensures AfterItems(done, AfterItems([v], r)) == AfterItems(done + [v], r)
    ensures done + [v] + [] == done + [v]
  {
    assert s.top.body + done + [v] == s.top.body + (done + [v]);
    if r.Ok? {
      assert done + ([v] + r.value.nodes) == done + [v] + r.value.nodes;
    }
  }

  lemma NothingFirst(rest: Rest)
    ensures rest.Prepend([], 0, true) == rest
  {
    if rest.Done? {
      assert [] + rest.nodes == rest.nodes;
    }
  }

  lemma NoNodes(s: Spine)
    ensures s.Add([], 0) == s
  {
    assert s.top.body + [] == s.top.body;
  }

  /** An inline array takes up at least one structural unless it starts on a newline. */
  lemma ItemsAdvance(d: Document, count: nat, i: nat, delimiter: Byte)
    requires d.At(i) && d.Char(i) != NEWLINE
    ensures var r := ReadItems(d, count, i, delimiter); r.Ok? ==> r.value.next > i
  {
  }

  /** The document under a root header that is not a primitive. */
  ghost function ParseRoot(d: Document, header: Header, i: nat): Result<Parsed>
    requires d.At(i) && (header.ObjectStart? || header.Declared?)
  {
    match header
    case ObjectStart(name) => CloseRoot(d, true, ReadPair(d, name, i, 0, 0, None))
    case Declared(key, shape) =>
      var c :- ChooseRoot(d, shape, i);
      EnterGoal(d, c.form, key, c.next)
  }

  ghost function EnterGoal(d: Document, form: Form, key: Option<Span>, i: nat): Result<Parsed>
    requires d.At(i)
  {
    if key.Some? then CloseRoot(d, true, ReadDeclared(d, form, key, i, 0, 0, None, None))
    else CloseRoot(d, form.IsObject(), ReadRoot(d, form, i, 0, 0, None))
  }
}
