/**
 * The containers that are open while the tape is built, and what the tape comes to once they have all been
 * closed. The tape, the saved frames, the indentation stack and the pending counts of `TapeBuilder` are
 * functions of this spine.
 */
module Spines {
  import opened Common
  import opened Tape
  import opened Layout
  import opened Grammar

  /** What `build_tape` saves of a container when it opens one inside it. */
  datatype StackState =
    | Start
    | InObject(lastStart: nat, cnt: nat)
    | InArray(lastStart: nat, cnt: nat)

  /**
   * One open container: its nodes so far, how many members they count for, the indentation of its members, the
   * declared count if it is a block array, and whether all its members are sound so far.
   */
  datatype Level = Level(isObject: bool, body: seq<Node>, cnt: nat, indent: nat, expected: Option<nat>, clean: bool) {
    function Add(nodes: seq<Node>, k: nat): Level {
      this.(body := body + nodes, cnt := cnt + k)
    }

    function Room(): Option<int> {
      if expected.Some? then Some(expected.value - cnt) else None
    }
  }

  function Fresh(isObject: bool, indent: nat): Level {
    Level(isObject, [], 0, indent, None, true)
  }

  /** The containers around an open one, the innermost first; `keyed` says whether they go on with keys. */
  datatype Outer = Nil | Frame(level: Level, keyed: bool, below: Outer)

  datatype Spine = Spine(top: Level, outer: Outer) {
    function Add(nodes: seq<Node>, k: nat): Spine {
      this.(top := top.Add(nodes, k))
    }

    function Open(isObject: bool, keyed: bool, indent: nat): Spine {
      Spine(Fresh(isObject, indent), Frame(top, keyed, outer))
    }

    /** The innermost container is closed and becomes part of the one around it. */
    function Close(): Spine
      requires outer.Frame?
    {
      var level := outer.level.Add(Closed(top.isObject, top.body, top.cnt), 0);
      Spine(level.(clean := level.clean && top.clean), outer.below)
    }

    function All(): Outer {
      Frame(top, true, outer)
    }
  }

  function Height(o: Outer): nat {
    if o.Nil? then 0 else 1 + Height(o.below)
  }

  /** The nodes of the open containers, each behind a header that is still to be filled in. */
  function OnTape(o: Outer): seq<Node> {
    if o.Nil? then [] else OnTape(o.below) + ([Container(o.level.isObject, 0, 0)] + o.level.body)
  }

  function Frames(o: Outer): (s: seq<StackState>)
    ensures |s| == Height(o) + 1
  {
    match o
    case Nil => [Start]
    case Frame(l, keyed, below) =>
      Frames(below) + [if keyed then InObject(|OnTape(below)|, l.cnt) else InArray(|OnTape(below)|, l.cnt)]
  }

  function Indents(o: Outer): (s: seq<nat>)
    ensures |s| == Height(o)
  {
    if o.Nil? then [] else Indents(o.below) + [o.level.indent]
  }

  /** Each open block array with its depth and declared count. */
  function Pending(o: Outer): seq<(nat, nat)> {
    match o
    case Nil => []
    case Frame(l, _, below) => Pending(below) + (if l.expected.Some? then [(Height(o), l.expected.value)] else [])
  }

  /** Each container's members are indented at least as far as the container is. */
  predicate Nondecreasing(o: Outer) {
    o.Frame? && o.below.Frame? ==> o.below.level.indent <= o.level.indent && Nondecreasing(o.below)
  }

  /**
   * The indentation blank lines are judged by: that of the outermost open block array. `base` is `[0]` when the
   * root array has one more indentation on the stack than the depth tells.
   */
  function Floor(base: seq<nat>, level: Level, below: Outer): Option<nat>
    decreases below
  {
    var outside := if below.Nil? then None else Floor(base, below.level, below.below);
    if outside.Some? then outside
    else if level.expected.Some? then Some(if base != [] then 0 else level.indent)
    else None
  }

  lemma {:induction false} PendingDepths(o: Outer)
    ensures forall k :: 0 <= k < |Pending(o)| ==> 1 <= Pending(o)[k].0 <= Height(o)
    ensures forall k, l :: 0 <= k < l < |Pending(o)| ==> Pending(o)[k].0 < Pending(o)[l].0
  {
    if o.Frame? {
      PendingDepths(o.below);
    }
  }

  function LevelAt(o: Outer, depth: nat): Level
    requires 1 <= depth <= Height(o)
  {
    if depth == Height(o) then o.level else LevelAt(o.below, depth)
  }

  /** A count is pending for a depth exactly if the container open there is a block array that declares it. */
  lemma {:induction false} PendingIffBlockArray(o: Outer, depth: nat, n: nat)
    requires 1 <= depth <= Height(o)
    ensures (depth, n) in Pending(o) <==> LevelAt(o, depth).expected == Some(n)
  {
    PendingDepths(o.below);
    if depth < Height(o) {
      PendingIffBlockArray(o.below, depth, n);
    }
  }

  lemma {:induction false} IndentsAscend(o: Outer)
    requires Nondecreasing(o)
    ensures forall j, k :: 0 <= j < k < Height(o) ==> Indents(o)[j] <= Indents(o)[k]
    ensures o.Frame? ==> Indents(o)[Height(o) - 1] == o.level.indent
  {
    if o.Frame? {
      IndentsAscend(o.below);
    }
  }

  /** No container that is open has been given a member that is unsound. */
  predicate Unspoilt(o: Outer) {
    o.Frame? ==> o.level.clean && Unspoilt(o.below)
  }

  ghost predicate Spotless(s: Spine) { s.top.clean && Unspoilt(s.outer) }

  /** A frame saves where a container starts, and its tag is the kind of that container. */
  predicate FrameFits(tape: seq<Node>, frame: StackState, unspoilt: bool) {
    match frame
    case Start => false
    case InObject(start, _) => start < |tape| && tape[start].Object?
    case InArray(start, _) => start < |tape| && (unspoilt ==> tape[start].Array?)
  }

  predicate TagsFit(o: Outer) {
    o.Frame? ==>
      && (o.keyed ==> o.level.isObject)
      && (!o.keyed && o.level.clean ==> !o.level.isObject)
      && TagsFit(o.below)
  }

  lemma {:induction false} FramesFit(o: Outer, tape: seq<Node>)
    requires TagsFit(o) && OnTape(o) <= tape
    ensures Frames(o)[0] == Start
    ensures forall k :: 1 <= k <= Height(o) ==> FrameFits(tape, Frames(o)[k], Unspoilt(o))
  {
    if o.Frame? {
      var below := OnTape(o.below);
      assert OnTape(o)[|below|] == Container(o.level.isObject, 0, 0);
      assert below <= OnTape(o) <= tape;
      FramesFit(o.below, tape);
    }
  }

  /** The indentation stack, which has one more entry under a root array. */
  lemma {:induction false} ContentAscends(base: seq<nat>, s: Spine)
    requires Nondecreasing(s.All()) && (base == [] || base == [0])
    ensures var c := base + Indents(s.All());
      c[|c| - 1] == s.top.indent && forall j, k :: 0 <= j < k < |c| ==> c[j] <= c[k]
  {
    IndentsAscend(s.All());
  }

  /** The header of the innermost container lies behind the nodes of the others. */
  lemma {:induction false} OpenOnTape(s: Spine)
    ensures var tape, start := OnTape(s.All()), |OnTape(s.outer)|;
      OnTape(s.outer) <= tape && start < |tape| && tape[start] == Container(s.top.isObject, 0, 0)
  {
  }

  /** The source finds the floor through the first pending count and the indentation stack. */
  lemma {:induction false} FloorIsFirstPending(base: seq<nat>, o: Outer)
    requires o.Frame?
    requires base == [] || (base == [0] && (Pending(o) != [] ==> Pending(o)[0].0 == 1))
    ensures Floor(base, o.level, o.below).None? <==> Pending(o) == []
    ensures Pending(o) != [] ==>
      1 <= Pending(o)[0].0 <= Height(o) && Floor(base, o.level, o.below) == Some((base + Indents(o))[Pending(o)[0].0 - 1])
  {
    if o.below.Frame? {
      if Pending(o.below) != [] {
        assert Pending(o)[0] == Pending(o.below)[0];
        PendingDepths(o.below);
      }
      FloorIsFirstPending(base, o.below);
    }
  }

  /** What the concrete stacks hold when the innermost container is closed. */
  lemma Uncover(base: seq<nat>, s: Spine)
    requires s.outer.Frame? && s.top.expected.None?
    ensures Height(s.All()) - 1 == Height(s.outer) == Height(s.Close().All()) == Height(s.outer.below) + 1
    ensures OnTape(s.outer) + Closed(s.top.isObject, s.top.body, s.top.cnt) == OnTape(s.Close().All())
    ensures (base + Indents(s.All()))[..|base| + Height(s.outer)] == base + Indents(s.Close().All())
    ensures Pending(s.Close().All()) == Pending(s.All())
    ensures Nondecreasing(s.All()) ==> Nondecreasing(s.Close().All())
    ensures Frames(s.outer)[..Height(s.outer)] == Frames(s.outer.below)
    ensures var l, start := s.outer.level, |OnTape(s.outer.below)|;
      Frames(s.outer)[Height(s.outer)] == if s.outer.keyed then InObject(start, l.cnt) else InArray(start, l.cnt)
  {
    var o, chunk := s.outer, Closed(s.top.isObject, s.top.body, s.top.cnt);
    assert OnTape(o) + chunk == OnTape(o.below) + ([Container(o.level.isObject, 0, 0)] + (o.level.body + chunk));
    assert Nondecreasing(s.All()) ==> Nondecreasing(o);
    assert base + Indents(s.All()) == base + Indents(s.Close().All()) + [s.top.indent];
  }

  /** Dropping the count that is pending for the innermost container changes nothing else. */
  lemma {:induction false} DropExpected(s: Spine)
    ensures var t := s.(top := s.top.(expected := None));
      && OnTape(t.All()) == OnTape(s.All()) && Height(t.All()) == Height(s.All()) && Indents(t.All()) == Indents(s.All())
      && (Nondecreasing(s.All()) ==> Nondecreasing(t.All()))
      && Pending(t.All()) == (if s.top.expected.Some? then Pending(s.All())[..|Pending(s.All())| - 1] else Pending(s.All()))
    ensures s.outer.Frame? && Pending(s.All()) != [] && Pending(s.All())[0].0 == 1 ==> Pending(s.outer) != []
    ensures Pending(s.(top := s.top.(expected := None)).All()) == Pending(s.outer)
  {
    assert Pending(s.outer) + [] == Pending(s.outer);
  }

  // ----- What is left to read -----

  ghost predicate Within(d: Document, r: Rest) { d.Valid() && (r.Done? ==> d.At(r.i)) }

  /** The document that `r`, the rest of the innermost container, completes. */
  ghost function Finish(d: Document, base: seq<nat>, s: Spine, r: Rest): Result<Parsed>
    requires Within(d, r)
    decreases s.outer
  {
    if r.Fail? then Err(r.error)
    else if d.strict && s.top.expected.Some? && s.top.cnt + r.n != s.top.expected.value then Err(Syntax)
    else
      var all := r.Prepend(s.top.body, s.top.cnt, s.top.clean);
      match s.outer
      case Nil => CloseRoot(d, s.top.isObject, all)
      case Frame(level, keyed, below) =>
        Finish(d, base, Spine(level, below), Resume(d, base, level, keyed, below, s.top.isObject, all))
  }

  /** A container of the frame's is closed and the frame's own rest is read behind it. */
  ghost function Resume(d: Document, base: seq<nat>, level: Level, keyed: bool, below: Outer, isObject: bool, r: Rest): (q: Rest)
    requires Within(d, r)
    ensures Within(d, q) && (r.Fail? ==> q == r)
  {
    if r.Fail? then r
    else
      ReadOn(d, keyed, r.i, r.ws, level.indent, Floor(base, level, below), level.Room())
        .Prepend(Closed(isObject, r.nodes, r.n), 0, r.clean)
  }

  lemma FinishFail(d: Document, base: seq<nat>, s: Spine)
    requires d.Valid()
    ensures forall e :: Finish(d, base, s, Fail(e)) == Err(e)
  {
  }

  lemma FinishAdd(d: Document, base: seq<nat>, s: Spine, nodes: seq<Node>, k: nat, r: Rest)
    requires Within(d, r)
    ensures Finish(d, base, s.Add(nodes, k), r) == Finish(d, base, s, r.Prepend(nodes, k, true))
  {
    if r.Done? {
      assert s.top.body + nodes + r.nodes == s.top.body + (nodes + r.nodes);
    }
  }

  lemma FinishTaint(d: Document, base: seq<nat>, s: Spine, r: Rest)
    requires Within(d, r)
    ensures Finish(d, base, s.(top := s.top.(clean := false)), r) == Finish(d, base, s, r.Prepend([], 0, false))
  {
    if r.Done? {
      assert [] + r.nodes == r.nodes;
    }
  }

  /** Opening a container: what is read inside it is closed and the rest of the container around it goes on. */
  lemma FinishOpen(d: Document, base: seq<nat>, s: Spine, isObject: bool, keyed: bool, indent: nat, r: Rest)
    requires Within(d, r)
    ensures Finish(d, base, s.Open(isObject, keyed, indent), r)
         == Finish(d, base, s, Resume(d, base, s.top, keyed, s.outer, isObject, r))
  {
    if r.Done? {
      assert [] + r.nodes == r.nodes;
    }
  }

  /** The same for a block array, whose declared count is checked when it closes. */
  lemma FinishBlock(d: Document, base: seq<nat>, s: Spine, count: nat, r: Rest)
    requires Within(d, r) && s.top.expected.None?
    ensures Finish(d, base, s.(top := s.top.(expected := Some(count))), r)
         == Finish(d, base, s, CheckCount(d, count, s.top.cnt, r))
  {
  }

  /** A block array that holds as many items as it declared is closed like any other container. */
  lemma FinishCounted(d: Document, base: seq<nat>, s: Spine, i: nat, ws: nat)
    requires d.At(i)
    ensures var r := Done([], 0, i, ws, true);
      Finish(d, base, s, r)
      == if d.strict && s.top.expected.Some? && s.top.cnt != s.top.expected.value then Err(Syntax)
         else Finish(d, base, s.(top := s.top.(expected := None)), r)
  {
  }

  /** Closing a container goes on with the rest of the one around it. */
  lemma FinishClose(d: Document, base: seq<nat>, s: Spine, i: nat, ws: nat)
    requires d.At(i) && s.outer.Frame? && s.top.expected.None?
    ensures var level := s.Close().top;
      Finish(d, base, s, Done([], 0, i, ws, true))
      == Finish(d, base, s.Close(), ReadOn(d, s.outer.keyed, i, ws, level.indent, Floor(base, level, s.outer.below), level.Room()))
  {
    hide ReadOn;
    var o, chunk := s.outer, Closed(s.top.isObject, s.top.body, s.top.cnt);
    assert s.top.body + [] == s.top.body;
    assert Floor(base, s.Close().top, o.below) == Floor(base, o.level, o.below);
    assert s.Close().top.Room() == o.level.Room();
    var rest := ReadOn(d, o.keyed, i, ws, o.level.indent, Floor(base, o.level, o.below), o.level.Room());
    FinishChunk(d, base, Spine(o.level, o.below), chunk, s.top.clean, rest);
  }

  lemma FinishChunk(d: Document, base: seq<nat>, s: Spine, chunk: seq<Node>, clean: bool, r: Rest)
    requires Within(d, r)
    ensures Finish(d, base, s, r.Prepend(chunk, 0, clean))
         == Finish(d, base, s.(top := s.top.Add(chunk, 0).(clean := s.top.clean && clean)), r)
  {
    if r.Done? {
      assert s.top.body + chunk + r.nodes == s.top.body + (chunk + r.nodes);
    }
  }

  lemma FinishRoot(d: Document, base: seq<nat>, s: Spine, i: nat, ws: nat)
    requires d.At(i) && s.outer.Nil? && s.top.expected.None?
    ensures Finish(d, base, s, Done([], 0, i, ws, true))
         == if AtEnd(d, i) then Ok(Parsed(Closed(s.top.isObject, s.top.body, s.top.cnt), s.top.clean)) else Err(TapeError)
  {
    assert s.top.body + [] == s.top.body;
  }

  /** A document that comes out clean has met nothing unsound so far. */
  lemma {:induction false} CleanIsUnspoilt(d: Document, base: seq<nat>, s: Spine, r: Rest)
    requires Within(d, r) && Finish(d, base, s, r).Ok? && Finish(d, base, s, r).value.clean
    ensures r.Done? && r.clean && Spotless(s)
    decreases s.outer
  {
    hide ReadOn;
    if s.outer.Frame? {
      var o, all := s.outer, r.Prepend(s.top.body, s.top.cnt, s.top.clean);
      CleanIsUnspoilt(d, base, Spine(o.level, o.below), Resume(d, base, o.level, o.keyed, o.below, s.top.isObject, all));
    }
  }

  /** What is read for the innermost container stands on the finished tape behind what was there before. */
  lemma {:induction false} FinishKeeps(d: Document, base: seq<nat>, s: Spine, r: Rest)
    requires Within(d, r) && Finish(d, base, s, r).Ok?
    ensures r.Done?
    ensures var tape, at := Finish(d, base, s, r).value.tape, |OnTape(s.All())|;
      at + |r.nodes| <= |tape| && tape[at..at + |r.nodes|] == r.nodes
    decreases s.outer
  {
    hide ReadOn;
    hide Finish, OnTape, Resume;
    var body := s.top.body;
    FinishStep(d, base, s, r);
    TapeSplits(s);
    var all := r.Prepend(body, s.top.cnt, s.top.clean);
    var header := Container(s.top.isObject, all.n, |all.nodes|);
    var tape := Finish(d, base, s, r).value.tape;
    if s.outer.Nil? {
      Stretch(tape, 0, tape, header, body, r.nodes);
    } else {
      var o := s.outer;
      var q := Resume(d, base, o.level, o.keyed, o.below, s.top.isObject, all);
      FinishKeeps(d, base, Spine(o.level, o.below), q);
      TapeSplits(Spine(o.level, o.below));
      Stretch(tape, |OnTape(o)|, q.nodes, header, body, r.nodes);
    }
  }

  /** One container is closed. */
  lemma {:induction false} FinishStep(d: Document, base: seq<nat>, s: Spine, r: Rest)
    requires Within(d, r) && Finish(d, base, s, r).Ok?
    ensures r.Done?
    ensures var all := r.Prepend(s.top.body, s.top.cnt, s.top.clean);
      if s.outer.Nil? then Finish(d, base, s, r).value.tape == Closed(s.top.isObject, all.nodes, all.n)
      else
        var o := s.outer;
        var q := Resume(d, base, o.level, o.keyed, o.below, s.top.isObject, all);
        && Finish(d, base, s, r) == Finish(d, base, Spine(o.level, o.below), q)
        && (q.Done? ==> Closed(s.top.isObject, all.nodes, all.n) <= q.nodes)
  {
    hide ReadOn;
  }

  lemma {:induction false} TapeSplits(s: Spine)
    ensures |OnTape(s.All())| == |OnTape(s.outer)| + 1 + |s.top.body|
    ensures s.outer.Nil? ==> OnTape(s.outer) == []
    ensures s.outer.Frame? ==> OnTape(s.outer) == OnTape(Spine(s.outer.level, s.outer.below).All())
  {
  }

  /** Behind the header and the body that were there before. */
  lemma {:induction false} Stretch(tape: seq<Node>, at: nat, nodes: seq<Node>, header: Node, body: seq<Node>, more: seq<Node>)
    requires at + |nodes| <= |tape| && tape[at..at + |nodes|] == nodes && [header] + (body + more) <= nodes
    ensures var from := at + 1 + |body|; from + |more| <= |tape| && tape[from..from + |more|] == more
  {
    var whole := [header] + (body + more);
    assert whole[1 + |body|..] == more;
    assert tape[at..at + |whole|] == nodes[..|whole|];
    assert tape[at + 1 + |body|..at + |whole|] == tape[at..at + |whole|][1 + |body|..];
  }
}
