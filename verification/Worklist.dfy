/**
 * The worklist that replaces recursion over nested field groups: what a queue of entries and scope ends comes to,
 * and that queueing a group's fields comes to reading them by recursion.
 */
module Worklist {
  import opened Common
  import opened Tape
  import opened Layout
  import opened Grammar
  import opened Cursors
  import opened Spines

  datatype WorkItem = Process(field: Field) | EndScope

  /** The items that process `fields` in order when popped from the end. */
  function Queue(fields: seq<Field>): seq<WorkItem> {
    if fields == [] then [] else Queue(fields[1..]) + [Process(fields[0])]
  }

  /** What the worklist comes to: each entry adds what recursion reads for it, each scope end closes a container. */
  ghost function Work(d: Document, s: Spine, work: seq<WorkItem>, seen: nat, leaves: nat, i: nat, delimiter: Byte): Result<(Spine, nat, nat)>
    requires d.At(i)
    decreases |work|
  {
    if work == [] then Ok((s, seen, i))
    else
      var rest := work[..|work| - 1];
      match work[|work| - 1]
      case EndScope => Work(d, if s.outer.Frame? then s.Close() else s, rest, seen, leaves, i, delimiter)
      case Process(field) =>
        var b :- ReadEntry(d, field, seen, leaves, i, delimiter);
        Work(d, s.Add(b.nodes, 1), rest, b.seen, leaves, b.next, delimiter)
  }

  lemma {:induction false} WorkQueue(d: Document, s: Spine, rest: seq<WorkItem>, fields: seq<Field>, seen: nat, leaves: nat, i: nat, delimiter: Byte)
    requires d.At(i)
    ensures Work(d, s, rest + Queue(fields), seen, leaves, i, delimiter)
         == match ReadBranch(d, fields, seen, leaves, i, delimiter)
            case Err(e) => Err(e)
            case Ok(b) => Work(d, s.Add(b.nodes, |fields|), rest, b.seen, leaves, b.next, delimiter)
    decreases |fields|
  {
    if fields == [] {
      assert rest + Queue(fields) == rest;
      assert s.Add([], 0) == s by {
        assert s.top.body + [] == s.top.body;
      }
    } else {
      hide ReadEntry, Work;
      QueueStep(d, s, rest, fields, seen, leaves, i, delimiter);
      var first := ReadEntry(d, fields[0], seen, leaves, i, delimiter);
      if first.Ok? {
        var b := first.value;
        WorkQueue(d, s.Add(b.nodes, 1), rest, fields[1..], b.seen, leaves, b.next, delimiter);
        var more := ReadBranch(d, fields[1..], b.seen, leaves, b.next, delimiter);
        if more.Ok? {
          assert s.top.body + b.nodes + more.value.nodes == s.top.body + (b.nodes + more.value.nodes);
        }
      }
    }
  }

  /** The queue of a field and more starts with reading the field. */
  lemma {:induction false} QueueStep(d: Document, s: Spine, rest: seq<WorkItem>, fields: seq<Field>, seen: nat, leaves: nat, i: nat, delimiter: Byte)
    requires d.At(i) && fields != []
    ensures Work(d, s, rest + Queue(fields), seen, leaves, i, delimiter)
         == match ReadEntry(d, fields[0], seen, leaves, i, delimiter)
            case Err(e) => Err(e)
            case Ok(b) => Work(d, s.Add(b.nodes, 1), rest + Queue(fields[1..]), b.seen, leaves, b.next, delimiter)
  {
    hide ReadEntry;
    var work := rest + Queue(fields);
    assert work == rest + Queue(fields[1..]) + [Process(fields[0])];
    assert work[..|work| - 1] == rest + Queue(fields[1..]);
  }

  /** A row that is opened, filled and closed again is one chunk of the container around it. */
  lemma RowCloses(s: Spine, keyed: bool, indent: nat, nodes: seq<Node>, n: nat)
    ensures s.Open(true, keyed, indent).Add(nodes, n).Close() == s.Add(Closed(true, nodes, n), 0)
    ensures s.Open(true, keyed, indent).Add(nodes, n).top == Level(true, nodes, n, indent, None, true)
    ensures s.Open(true, keyed, indent).Add(nodes, n).outer.Frame?
  {
    assert [] + nodes == nodes;
  }

  lemma WorkPop(d: Document, s: Spine, rest: seq<WorkItem>, item: WorkItem, seen: nat, leaves: nat, i: nat, delimiter: Byte)
    requires d.At(i)
    ensures Work(d, s, rest + [item], seen, leaves, i, delimiter)
         == match item
            case EndScope => Work(d, if s.outer.Frame? then s.Close() else s, rest, seen, leaves, i, delimiter)
            case Process(field) =>
              match ReadEntry(d, field, seen, leaves, i, delimiter)
              case Err(e) => Err(e)
              case Ok(b) => Work(d, s.Add(b.nodes, 1), rest, b.seen, leaves, b.next, delimiter)
  {
    assert (rest + [item])[..|rest|] == rest;
  }

  /** A group: its key, an object opened for it, its fields queued in front of the end of that object. */
  lemma WorkGroup(d: Document, s: Spine, rest: seq<WorkItem>, group: Field, key: Node, indent: nat, seen: nat, leaves: nat, i: nat, delimiter: Byte)
    requires d.At(i) && group.Group? && d.Quote(group.name) == Ok(key)
    ensures Work(d, s, rest + [Process(group)], seen, leaves, i, delimiter)
         == Work(d, s.Add([key], 1).Open(true, true, indent), rest + [EndScope] + Queue(group.children), seen, leaves, i, delimiter)
  {
    hide Work, ReadBranch, ReadEntry;
    var fields := group.children;
    var inside := s.Add([key], 1).Open(true, true, indent);
    WorkPop(d, s, rest, Process(group), seen, leaves, i, delimiter);
    GroupEntry(d, group, key, seen, leaves, i, delimiter);
    WorkQueue(d, inside, rest + [EndScope], fields, seen, leaves, i, delimiter);
    var inner := ReadBranch(d, fields, seen, leaves, i, delimiter);
    if inner.Ok? {
      var b := inner.value;
      WorkPop(d, inside.Add(b.nodes, |fields|), rest, EndScope, b.seen, leaves, b.next, delimiter);
      GroupCloses(s, key, indent, b.nodes, |fields|);
    }
  }

  /** A group is read as its key and an object of its fields. */
  lemma {:induction false} GroupEntry(d: Document, group: Field, key: Node, seen: nat, leaves: nat, i: nat, delimiter: Byte)
    requires d.At(i) && group.Group? && d.Quote(group.name) == Ok(key)
    ensures ReadEntry(d, group, seen, leaves, i, delimiter)
         == match ReadBranch(d, group.children, seen, leaves, i, delimiter)
            case Err(e) => Err(e)
            case Ok(b) => Ok(Branch([key] + Closed(true, b.nodes, |group.children|), b.seen, b.next))
  {
    hide ReadBranch;
  }

  /** A group that is opened behind its key, filled and closed again is one member of the container around it. */
  lemma {:induction false} GroupCloses(s: Spine, key: Node, indent: nat, nodes: seq<Node>, n: nat)
    ensures var t := s.Add([key], 1).Open(true, true, indent).Add(nodes, n);
      t.outer.Frame? && t.Close() == s.Add([key] + Closed(true, nodes, n), 1)
  {
    hide Spine.Open, Spine.Close, Spine.Add, Closed;
    RowCloses(s.Add([key], 1), true, indent, nodes, n);
    KeyThenObject(s, key, Closed(true, nodes, n));
  }

  lemma {:induction false} KeyThenObject(s: Spine, key: Node, chunk: seq<Node>)
    ensures s.Add([key], 1).Add(chunk, 0) == s.Add([key] + chunk, 1)
  {
    assert s.top.body + [key] + chunk == s.top.body + ([key] + chunk);
  }

  /** Objects the worklist still has to close, all of them open on the spine. */
  ghost predicate CanClose(s: Spine, k: nat)
    decreases k
  {
    k > 0 ==>
      && s.outer.Frame? && s.top.isObject && s.top.expected.None?
      && CanClose(Spine(s.outer.level, s.outer.below), k - 1)
  }

  ghost function Scopes(work: seq<WorkItem>): nat {
    if work == [] then 0
    else Scopes(work[..|work| - 1]) + (if work[|work| - 1].EndScope? then 1 else 0)
  }

  /** The total size of the queued entries, which every step makes smaller. */
  ghost function Weight(work: seq<WorkItem>): nat {
    if work == [] then 0
    else
      Weight(work[..|work| - 1])
      + match work[|work| - 1]
        case EndScope => 1
        case Process(field) => Leaves([field]) + 2 * Groups([field])
  }

  lemma {:induction false} QueueMeasures(rest: seq<WorkItem>, fields: seq<Field>)
    ensures Weight(rest + Queue(fields)) == Weight(rest) + Leaves(fields) + 2 * Groups(fields)
    ensures Scopes(rest + Queue(fields)) == Scopes(rest)
    decreases |fields|
  {
    if fields == [] {
      assert rest + Queue(fields) == rest;
    } else {
      var work := rest + Queue(fields);
      assert work == rest + Queue(fields[1..]) + [Process(fields[0])];
      assert work[..|work| - 1] == rest + Queue(fields[1..]);
      QueueMeasures(rest, fields[1..]);
      CountAppend([fields[0]], fields[1..]);
      assert [fields[0]] + fields[1..] == fields;
    }
  }

  lemma GroupMeasures(rest: seq<WorkItem>, group: Field)
    requires group.Group?
    ensures Weight(rest + [EndScope] + Queue(group.children)) < Weight(rest + [Process(group)])
    ensures Scopes(rest + [EndScope] + Queue(group.children)) == Scopes(rest + [Process(group)]) + 1
  {
    QueueMeasures(rest + [EndScope], group.children);
    assert (rest + [Process(group)])[..|rest|] == rest && (rest + [EndScope])[..|rest|] == rest;
  }

  lemma {:induction false} CanCloseAdd(s: Spine, nodes: seq<Node>, n: nat, k: nat)
    requires CanClose(s, k)
    ensures CanClose(s.Add(nodes, n), k)
  {
    if k > 0 {
      assert s.Add(nodes, n).outer == s.outer;
    }
  }

  lemma {:induction false} CanCloseClose(s: Spine, k: nat)
    requires CanClose(s, k + 1)
    ensures s.outer.Frame? && s.top.isObject && s.top.expected.None? && CanClose(s.Close(), k)
  {
    CanCloseAdd(Spine(s.outer.level, s.outer.below), Closed(s.top.isObject, s.top.body, s.top.cnt), 0, k);
  }

  lemma {:induction false} CanCloseOpen(s: Spine, nodes: seq<Node>, indent: nat, k: nat)
    requires CanClose(s, k)
    ensures CanClose(s.Add(nodes, 1).Open(true, true, indent), k + 1)
  {
    CanCloseAdd(s, nodes, 1, k);
  }

  lemma {:induction false} PopMeasures(rest: seq<WorkItem>, item: WorkItem)
    ensures Weight(rest) < Weight(rest + [item])
    ensures Scopes(rest + [item]) == Scopes(rest) + (if item.EndScope? then 1 else 0)
  {
    assert (rest + [item])[..|rest|] == rest;
  }

  lemma {:induction false} QuoteFails(d: Document, field: Field, seen: nat, leaves: nat, i: nat, delimiter: Byte)
    requires d.At(i)
    ensures d.Quote(field.name).Err? ==> ReadEntry(d, field, seen, leaves, i, delimiter) == Err(d.Quote(field.name).error)
  {
  }

  /** A worklist of one entry is the reading of that entry; an empty one is what has been read. */
  lemma {:induction false} EntryStarts(d: Document, s: Spine, field: Field, seen: nat, leaves: nat, i: nat, delimiter: Byte)
    requires d.At(i)
    ensures Scopes([Process(field)]) == 0 && CanClose(s, 0)
    ensures Work(d, s, [Process(field)], seen, leaves, i, delimiter)
         == match ReadEntry(d, field, seen, leaves, i, delimiter)
            case Err(e) => Err(e)
            case Ok(b) => Ok((s.Add(b.nodes, 1), b.seen, b.next))
  {
    WorkPop(d, s, [], Process(field), seen, leaves, i, delimiter);
    assert [] + [Process(field)] == [Process(field)];
    PopMeasures([], Process(field));
  }

  lemma {:induction false} WorkDone(d: Document, s: Spine, seen: nat, leaves: nat, i: nat, delimiter: Byte)
    requires d.At(i)
    ensures Work(d, s, [], seen, leaves, i, delimiter) == Ok((s, seen, i)) && Scopes([]) == 0
  {
  }
}
