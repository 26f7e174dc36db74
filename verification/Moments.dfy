/** The concrete state of `build_tape` as a value, and what is true of it at every turn of the loop. */
module Moments {
  import opened Common
  import opened Tape
  import opened Layout
  import opened Grammar
  import opened Spines
  import opened States
  import Counts

  /** What the loop finds when it enters a state: `i` structurals read and `ws` the last measured indentation. */
  datatype Moment = Moment(
    state: State, tape: seq<Node>, stack: seq<StackState>, depth: nat, lastStart: nat,
    contentWs: seq<nat>, pendingCounts: seq<(nat, nat)>, ws: nat, i: nat)

  /**
   * The frames are as many as the containers that are open, the indentations as many or one more; indentations never
   * decrease; no more containers are open than structurals have been read.
   */
  ghost predicate Stacked(d: Document, m: Moment) {
    && 1 <= m.depth == |m.stack| <= m.i <= |d.indexes|
    && m.depth <= |m.contentWs| <= m.depth + 1
    && (forall j, k :: 0 <= j < k < |m.contentWs| ==> m.contentWs[j] <= m.contentWs[k])
    && m.stack[0] == Start && forall k :: 1 <= k < m.depth ==> m.stack[k] != Start
  }

  /** A state that starts a line finds on top of the stack the indentation measured in front of that very line. */
  ghost predicate Indented(d: Document, m: Moment)
    requires Stacked(d, m)
  {
    m.state.ParseHeader? || m.state.ExpectBlockArrayItem? ==>
      m.ws == m.contentWs[|m.contentWs| - 1] && AtLine(d, m.i, m.ws)
  }

  /** Where the container that is open at depth `k` has its header. */
  function StartOf(m: Moment, k: nat): nat
    requires 1 <= k <= m.depth == |m.stack| && forall j :: 1 <= j < m.depth ==> m.stack[j] != Start
  {
    if k == m.depth then m.lastStart else m.stack[k].lastStart
  }

  /** Every open container has a header on the tape; a frame tagged with keys is that of an object. */
  ghost predicate Framed(d: Document, m: Moment)
    requires Stacked(d, m)
  {
    && (forall k :: 1 <= k <= m.depth ==> StartOf(m, k) < |m.tape| && (m.tape[StartOf(m, k)] == Array(0, 0) || m.tape[StartOf(m, k)] == Object(0, 0)))
    && forall k :: 1 <= k < m.depth && m.stack[k].InObject? ==> m.tape[StartOf(m, k)].Object?
  }

  /** And one tagged with items is that of an array. */
  ghost predicate Tallies(d: Document, m: Moment)
    requires Stacked(d, m) && Framed(d, m)
  {
    forall k :: 1 <= k < m.depth && m.stack[k].InArray? ==> m.tape[StartOf(m, k)].Array?
  }

  predicate IsPending(m: Moment, k: nat) { exists j :: 0 <= j < |m.pendingCounts| && m.pendingCounts[j].0 == k }

  /** Whether the innermost container is about to read a member, and not to end or to be entered. */
  predicate Reads(state: State) { !state.ScopeEnd? && (state.ParseDeclared? ==> !state.isRoot) }

  /** Counts are pending at increasing depths, exactly those at which an array is open between two of its items. */
  ghost predicate Awaited(d: Document, m: Moment)
    requires Stacked(d, m) && Framed(d, m)
  {
    && (forall k :: 0 <= k < |m.pendingCounts| ==> 1 <= m.pendingCounts[k].0 <= m.depth)
    && (forall j, k :: 0 <= j < k < |m.pendingCounts| ==> m.pendingCounts[j].0 < m.pendingCounts[k].0)
    && forall k :: 1 <= k <= m.depth && (k < m.depth || Reads(m.state)) ==>
         (IsPending(m, k) <==> m.tape[StartOf(m, k)].Array?)
  }

  /** The place on the finished tape of the container that is about to be entered. */
  function Place(m: Moment): nat
    requires m.state.ParseDeclared?
  {
    if m.state.isRoot then 0 else |m.tape| + (if m.state.key.Some? then 1 else 0)
  }

  /** A container that declares how many members it has is written with that length. */
  ghost predicate Lengthy(d: Document, m: Moment, tape: seq<Node>) {
    m.state.ParseDeclared? && Counts.Binding(d, m.state.form) ==>
      && Place(m) < |tape| && (tape[Place(m)].Array? || tape[Place(m)].Object?)
      && tape[Place(m)].len == Counts.FormCount(m.state.form)
  }

  /** All of this, in a run that comes to `goal`. */
  ghost predicate Sound(d: Document, m: Moment, goal: Result<Parsed>) {
    && Stacked(d, m) && Indented(d, m) && Framed(d, m) && Awaited(d, m)
    && (goal.Ok? ==> Lengthy(d, m, goal.value.tape) && (goal.value.clean ==> Tallies(d, m)))
  }

  /** The line that is being read here spoils the tape. */
  ghost predicate Spoiling(d: Document, m: Moment) {
    d.At(m.i) && m.contentWs != [] && Spoils(d, m.state, m.i, m.contentWs[|m.contentWs| - 1])
  }

  // ----- The spine seen through the concrete state -----

  function StartIn(o: Outer, k: nat): nat
    requires 1 <= k <= Height(o)
  {
    if k == Height(o) then |OnTape(o.below)| else StartIn(o.below, k)
  }

  lemma {:induction false} LevelOnTape(o: Outer, tape: seq<Node>, k: nat)
    requires OnTape(o) <= tape && 1 <= k <= Height(o)
    ensures StartIn(o, k) < |tape| && tape[StartIn(o, k)] == Container(LevelAt(o, k).isObject, 0, 0)
  {
    if k == Height(o) {
      assert OnTape(o)[|OnTape(o.below)|] == Container(o.level.isObject, 0, 0);
    } else {
      assert OnTape(o.below) <= OnTape(o);
      LevelOnTape(o.below, tape, k);
    }
  }

  lemma {:induction false} FrameStarts(o: Outer, k: nat)
    requires 1 <= k <= Height(o)
    ensures Frames(o)[k] != Start && Frames(o)[k].lastStart == StartIn(o, k)
  {
    if k < Height(o) {
      FrameStarts(o.below, k);
    }
  }

  lemma {:induction false} LevelSettled(o: Outer, k: nat)
    requires Tagged(o) && 1 <= k <= Height(o)
    ensures Settled(LevelAt(o, k))
  {
    if k < Height(o) {
      LevelSettled(o.below, k);
    }
  }

  lemma {:induction false} PendingAt(m: Moment, o: Outer, k: nat)
    requires m.pendingCounts == Pending(o) && 1 <= k <= Height(o)
    ensures IsPending(m, k) <==> LevelAt(o, k).expected.Some?
  {
    hide Pending, LevelAt;
    forall n: nat
      ensures (k, n) in m.pendingCounts <==> LevelAt(o, k).expected == Some(n)
    {
      PendingIffBlockArray(o, k, n);
    }
    if LevelAt(o, k).expected.Some? {
      assert (k, LevelAt(o, k).expected.value) in m.pendingCounts;
    }
    if j :| 0 <= j < |m.pendingCounts| && m.pendingCounts[j].0 == k {
      assert m.pendingCounts[j] == (k, m.pendingCounts[j].1);
    }
  }

  /** The moment at which the containers of `s` are open. */
  ghost predicate Shows(m: Moment, s: Spine, base: seq<nat>) {
    && m.tape == OnTape(s.All()) && m.stack == Frames(s.outer) && m.depth == Height(s.All())
    && m.lastStart == |OnTape(s.outer)| && m.contentWs == base + Indents(s.All())
    && m.pendingCounts == Pending(s.All()) && Nondecreasing(s.All()) && (base == [] || base == [0])
  }

  lemma {:induction false} ShownStacked(d: Document, m: Moment, s: Spine, base: seq<nat>)
    requires Shows(m, s, base) && m.depth <= m.i <= |d.indexes|
    ensures Stacked(d, m) && m.contentWs[|m.contentWs| - 1] == s.top.indent
    ensures m.depth == Height(s.All()) == Height(s.outer) + 1
    ensures forall k :: 1 <= k <= m.depth ==> StartOf(m, k) == StartIn(s.All(), k)
  {
    hide Nondecreasing, Pending, OnTape, Indents;
    ContentAscends(base, s);
    StartsWithStart(s.outer);
    forall k | 1 <= k < m.depth
      ensures m.stack[k] != Start && m.stack[k].lastStart == StartIn(s.All(), k)
    {
      FrameStarts(s.outer, k);
    }
  }

  lemma {:induction false} StartsWithStart(o: Outer)
    ensures Frames(o)[0] == Start
  {
    if o.Frame? {
      StartsWithStart(o.below);
    }
  }

  lemma {:induction false} ShownFramed(d: Document, m: Moment, s: Spine, base: seq<nat>)
    requires Shows(m, s, base) && m.depth <= m.i <= |d.indexes| && Tagged(s.outer)
    ensures Stacked(d, m) && Framed(d, m) && (Spotless(s) ==> Tallies(d, m))
    ensures forall k :: 1 <= k <= m.depth ==> m.tape[StartOf(m, k)] == Container(LevelAt(s.All(), k).isObject, 0, 0)
  {
    hide Nondecreasing, Pending, OnTape, Indents, Frames, Stacked, LevelAt, StartIn, StartOf;
    ShownStacked(d, m, s, base);
    StackedStarts(d, m);
    TagsAreTagged(s.outer);
    OpenOnTape(s);
    FramesFit(s.outer, m.tape);
    forall k | 1 <= k <= m.depth
      ensures StartOf(m, k) < |m.tape| && m.tape[StartOf(m, k)] == Container(LevelAt(s.All(), k).isObject, 0, 0)
    {
      LevelOnTape(s.All(), m.tape, k);
    }
    forall k | 1 <= k < m.depth
      ensures StartOf(m, k) == m.stack[k].lastStart && FrameFits(m.tape, m.stack[k], Unspoilt(s.outer))
    {
      SavedStart(d, m, k);
    }
  }

  lemma {:induction false} StackedStarts(d: Document, m: Moment)
    requires Stacked(d, m)
    ensures 1 <= m.depth == |m.stack| && forall k :: 1 <= k < m.depth ==> m.stack[k] != Start
  {
  }

  lemma {:induction false} SavedStart(d: Document, m: Moment, k: nat)
    requires Stacked(d, m) && 1 <= k < m.depth
    ensures m.stack[k] != Start && StartOf(m, k) == m.stack[k].lastStart
  {
  }

  lemma {:induction false} ShownAwaited(d: Document, m: Moment, s: Spine, base: seq<nat>)
    requires Shows(m, s, base) && m.depth <= m.i <= |d.indexes| && Tagged(s.outer) && (Reads(m.state) ==> Settled(s.top))
    ensures Stacked(d, m) && Framed(d, m) && Awaited(d, m)
  {
    hide Nondecreasing, Pending, OnTape, Indents, Frames, StartIn, StartOf;
    ShownStacked(d, m, s, base);
    ShownFramed(d, m, s, base);
    PendingDepths(s.All());
    forall k | 1 <= k <= m.depth && (k < m.depth || Reads(m.state))
      ensures IsPending(m, k) <==> m.tape[StartOf(m, k)].Array?
    {
      PendingAt(m, s.All(), k);
      if k < m.depth {
        LevelSettled(s.outer, k);
        assert LevelAt(s.All(), k) == LevelAt(s.outer, k);
      } else {
        assert LevelAt(s.All(), k) == s.top;
      }
    }
  }

  /** A container that is about to be entered and what of the document is left from there. */
  lemma {:induction false} EnteredLengthy(d: Document, m: Moment, s: Spine, base: seq<nat>)
    requires d.At(m.i) && Shows(m, s, base) && m.state.ParseDeclared? && Suits(m.state, s, base, d.Char(m.i), m.ws)
    ensures var goal := Finish(d, base, s, Remaining(d, m.state, s, base, m.i, m.ws));
      goal.Ok? ==> Lengthy(d, m, goal.value.tape)
  {
    hide ReadDeclared, ReadRoot, Finish, Floor, Tagged, Pending, OnTape, Frames, Indents, Nondecreasing;
    var form, key := m.state.form, m.state.key;
    var rest := Remaining(d, m.state, s, base, m.i, m.ws);
    var goal := Finish(d, base, s, rest);
    if goal.Ok? && Counts.Binding(d, form) {
      if m.state.isRoot {
        RootGoal(d, base, form.IsObject(), rest);
        Counts.RootFormLength(d, form, m.i, m.ws, s.top.indent);
      } else {
        Counts.FormLength(d, form, key, m.i, m.ws, s.top.indent, FloorOf(base, s), s.top.Room());
        FinishKeeps(d, base, s, rest);
        StandsAt(goal.value.tape, |m.tape|, rest.nodes, if key.Some? then 1 else 0);
      }
    }
  }

  lemma {:induction false} RootGoal(d: Document, base: seq<nat>, isObject: bool, rest: Rest)
    requires Within(d, rest)
    ensures Finish(d, base, Spine(Fresh(isObject, 0), Nil), rest) == CloseRoot(d, isObject, rest)
    ensures FloorOf(base, Spine(Fresh(isObject, 0), Nil)) == None
  {
    assert rest.Done? ==> [] + rest.nodes == rest.nodes;
  }

  lemma {:induction false} StandsAt(tape: seq<Node>, at: nat, nodes: seq<Node>, k: nat)
    requires at + |nodes| <= |tape| && tape[at..at + |nodes|] == nodes && k < |nodes|
    ensures tape[at + k] == nodes[k]
  {
    assert tape[at..at + |nodes|][k] == tape[at + k];
  }

  lemma {:induction false} NotEntered(d: Document, m: Moment, tape: seq<Node>)
    requires !m.state.ParseDeclared?
    ensures Lengthy(d, m, tape)
  {
  }
}
