/** The DOM builders, which walk the tape with a cursor, and lazy values, which put that off. */
module Deserializers {
  import opened Common
  import opened Tape
  import opened Dom

  /** The tape from `idx` on starts with `s`. */
  ghost predicate StartsAt(tape: seq<Node>, idx: nat, s: seq<Node>) {
    idx + |s| <= |tape| && tape[idx..idx + |s|] == s
  }

  lemma StartsSplit(tape: seq<Node>, idx: nat, a: seq<Node>, b: seq<Node>)
    requires StartsAt(tape, idx, a + b)
    ensures StartsAt(tape, idx, a) && StartsAt(tape, idx + |a|, b)
  {
    var s := tape[idx..idx + |a + b|];
    assert s[..|a|] == a && s[|a|..] == b;
  }

  lemma NoMembers()
    ensures EncodeMembers([]) == [] && MapOf([]) == map[]
  {
  }

  lemma NextMember(members: seq<(Str, Tree)>, i: nat)
    requires i < |members|
    ensures EncodeMembers(members[i..]) == [String(members[i].0)] + (Encode(members[i].1) + EncodeMembers(members[i + 1..]))
    ensures MapOf(members[..i + 1]) == MapOf(members[..i])[members[i].0.bytes := ValueOf(members[i].1)]
  {
    assert members[i..] == [(members[i].0, members[i].1)] + members[i + 1..];
    MemberFirst(members[i].0, members[i].1, members[i + 1..]);
    assert members[..i + 1][..i] == members[..i];
  }

  class BorrowDeserializer {
    const tape: seq<Node>
    var idx: nat

    constructor (tape: seq<Node>)
      ensures this.tape == tape && idx == 0
    {
      this.tape := tape;
      idx := 0;
    }

    method NextNode() returns (node: Node)
      requires idx < |tape|
      modifies this
      ensures node == tape[old(idx)] && idx == old(idx) + 1
    {
      node := tape[idx];
      idx := idx + 1;
    }

    /** Builds the value encoded at the cursor, which moves over exactly its nodes. */
    method Parse(ghost t: Tree) returns (v: Value)
      requires StartsAt(tape, idx, Encode(t))
      modifies this
      ensures v == ValueOf(t) && idx == old(idx) + |Encode(t)|
      decreases t, 0
    {
      assert tape[idx] == Encode(t)[0];
      ghost var s := Encode(t);
      assert s == [s[0]] + s[1..];
      StartsSplit(tape, idx, [s[0]], s[1..]);
      var node := NextNode();
      match node
      case Scalar(value) => v := StaticValue(value);
      case String(text) => v := StringValue(text.bytes);
      case Array(len, _) => v := ParseArray(len, t.items);
      case Object(len, _) => v := ParseMap(len, t.members);
    }

    method ParseArray(len: nat, ghost items: seq<Tree>) returns (v: Value)
      requires len == |items| && StartsAt(tape, idx, EncodeItems(items))
      modifies this
      ensures v == ArrayValue(ValuesOf(items)) && idx == old(idx) + |EncodeItems(items)|
      decreases items, 1
    {
      var res: seq<Value> := [];
      var i := 0;
      assert items[0..] == items;
      while i < len
        invariant 0 <= i <= len
        invariant idx + |EncodeItems(items[i..])| == old(idx) + |EncodeItems(items)|
        invariant StartsAt(tape, idx, EncodeItems(items[i..]))
        invariant res == ValuesOf(items[..i])
      {
        StartsSplit(tape, idx, Encode(items[i]), EncodeItems(items[i..][1..]));
        var value := Parse(items[i]);
        res := res + [value];
        assert items[i..][1..] == items[i + 1..];
        assert items[..i + 1][..i] == items[..i];
        i := i + 1;
      }
      assert items[..len] == items;
      v := ArrayValue(res);
    }

    method ParseMap(len: nat, ghost members: seq<(Str, Tree)>) returns (v: Value)
      requires len == |members| && StartsAt(tape, idx, EncodeMembers(members))
      modifies this
      ensures v == ObjectValue(MapOf(members)) && idx == old(idx) + |EncodeMembers(members)|
      decreases members, 1
    {
      hide EncodeMembers, MapOf, Encode;
      var res: map<Bytes, Value> := map[];
      var i := 0;
      assert members[0..] == members;
      NoMembers();
      while i < len
        invariant 0 <= i <= len
        invariant idx + |EncodeMembers(members[i..])| == old(idx) + |EncodeMembers(members)|
        invariant StartsAt(tape, idx, EncodeMembers(members[i..]))
        invariant res == MapOf(members[..i])
      {
        ghost var member := members[i];
        assert member.1 < member;
        ghost var rest := EncodeMembers(members[i + 1..]);
        NextMember(members, i);
        StartsSplit(tape, idx, [String(member.0)], Encode(member.1) + rest);
        StartsSplit(tape, idx + 1, Encode(member.1), rest);
        var key := NextNode();
        var value := Parse(member.1);
        res := res[key.text.bytes := value];
        i := i + 1;
      }
      assert members[..len] == members;
      v := ObjectValue(res);
    }
  }

  // ----- Lazy values -----

  datatype Representation = TapeForm(tape: seq<Node>) | ValueForm(value: Value)

  class LazyValue {
    var repr: Representation

    ghost predicate Valid()
      reads this
    {
      repr.TapeForm? ==> IsValue(repr.tape)
    }

    /** The DOM value that is meant, whichever way it is kept. */
    ghost function Meaning(): Value
      requires Valid()
      reads this
    {
      match repr
      case TapeForm(tape) => ValueOf(Decode(tape))
      case ValueForm(value) => value
    }

    constructor FromTape(tape: seq<Node>)
      requires IsValue(tape)
      ensures Valid() && repr == TapeForm(tape)
    {
      repr := TapeForm(tape);
    }

    method IntoValue() returns (v: Value)
      requires Valid()
      ensures v == Meaning()
    {
      match repr
      case TapeForm(tape) => v := BuildValue(tape);
      case ValueForm(value) => v := value;
    }

    /** Replaces a tape by its DOM value; what is meant stays the same. */
    method Upgrade()
      requires Valid()
      modifies this
      ensures Valid() && repr.ValueForm? && Meaning() == old(Meaning())
      ensures old(repr).ValueForm? ==> repr == old(repr)
    {
      if repr.ValueForm? {
        return;
      }
      var value := BuildValue(repr.tape);
      repr := ValueForm(value);
    }

    /** Gives the value to be changed; only then is a tape given up. */
    method AsMut() returns (v: Value)
      requires Valid()
      modifies this
      ensures Valid() && repr == ValueForm(v) && v == old(Meaning())
    {
      if repr.TapeForm? {
        Upgrade();
      }
      v := repr.value;
    }
  }

  method BuildValue(tape: seq<Node>) returns (v: Value)
    requires IsValue(tape)
    ensures v == ValueOf(Decode(tape))
  {
    var de := new BorrowDeserializer(tape);
    assert tape[0..|tape|] == tape;
    v := de.Parse(Decode(tape));
  }
}
