/** Arrays and objects read straight off the tape, skipping each value by its node count. */
module Views {
  import opened Common
  import opened Tape
  import opened Dom

  /** The array or object at the start of `tape`, header included. */
  function AsContainer(tape: seq<Node>): (r: Option<seq<Node>>)
    requires tape != [] && tape[0].Count() <= |tape|
  {
    if tape[0].Array? || tape[0].Object? then Some(tape[..tape[0].Count()]) else None
  }

  /** The view of a value encoded at the start of a longer tape is its encoding. */
  lemma {:induction false} ViewIsEncoding(t: Tree, rest: seq<Node>)
    requires t.Items? || t.Members?
    ensures AsContainer(Encode(t) + rest) == Some(Encode(t))
  {
    assert (Encode(t) + rest)[..|Encode(t)|] == Encode(t);
  }

  // ----- Arrays -----

  /** Where item `k` of the array starts, behind the header. */
  ghost function Offset(items: seq<Tree>, k: nat): nat
    requires k <= |items|
  {
    1 + |EncodeItems(items[..k])|
  }

  lemma {:induction false} ItemAt(items: seq<Tree>, k: nat)
    requires k <= |items|
    ensures var tape := Encode(Items(items));
      && Offset(items, 0) == 1 && Offset(items, k) <= |tape|
      && (k == |items| ==> Offset(items, k) == |tape|)
      && (k < |items| ==>
            Offset(items, k + 1) == Offset(items, k) + |Encode(items[k])| <= |tape|
            && tape[Offset(items, k)].Count() == |Encode(items[k])|
            && tape[Offset(items, k)..Offset(items, k + 1)] == Encode(items[k]))
  {
    hide Encode, EncodeItems;
    var tape := Encode(Items(items));
    ItemsBehindHeader(items);
    assert items[..0] == [];
    if k == |items| {
      assert items[..k] == items;
    } else {
      ItemBetween(items, k);
      Middle(tape, EncodeItems(items[..k]), Encode(items[k]), EncodeItems(items[k + 1..]));
      CountSpans(items[k]);
    }
  }

  lemma {:induction false} ItemsBehindHeader(items: seq<Tree>)
    ensures EncodeItems([]) == [] && Encode(Items(items)) != [] && Encode(Items(items))[1..] == EncodeItems(items)
  {
    assert Encode(Items(items))[1..] == EncodeItems(items);
  }

  lemma {:induction false} CountSpans(t: Tree)
    ensures Encode(t) != [] && Encode(t)[0].Count() == |Encode(t)|
  {
  }

  lemma {:induction false} ItemBetween(items: seq<Tree>, k: nat)
    requires k < |items|
    ensures EncodeItems(items[..k + 1]) == EncodeItems(items[..k]) + Encode(items[k])
    ensures EncodeItems(items) == EncodeItems(items[..k]) + Encode(items[k]) + EncodeItems(items[k + 1..])
  {
    ItemsSplit(items[..k + 1], k);
    ItemsSplit(items, k + 1);
    assert items[..k + 1][..k] == items[..k] && items[..k + 1][k..] == [items[k]];
    assert EncodeItems([items[k]]) == Encode(items[k]);
  }

  lemma {:induction false} Middle(tape: seq<Node>, a: seq<Node>, b: seq<Node>, c: seq<Node>)
    requires tape != [] && tape[1..] == a + b + c && b != []
    ensures 1 + |a| + |b| <= |tape| && tape[1 + |a|..1 + |a| + |b|] == b && tape[1 + |a|] == b[0]
  {
    var rest := tape[1..];
    assert rest[|a|..|a| + |b|] == b;
    assert tape[1 + |a|..1 + |a| + |b|] == rest[|a|..|a| + |b|];
    assert rest[|a|] == b[0];
  }

  /** Item `idx` is reached by adding up the counts of the items before it. */
  method ArrayGet(tape: seq<Node>, idx: nat, ghost items: seq<Tree>) returns (r: Option<seq<Node>>)
    requires tape == Encode(Items(items))
    ensures r == if idx < |items| then Some(Encode(items[idx])) else None
  {
    hide Encode, EncodeItems, Offset;
    ItemAt(items, 0);
    var offset := 1;
    var left := idx;
    while left > 0
      invariant 0 <= left <= idx && idx - left <= |items| && offset == Offset(items, idx - left) <= |tape|
    {
      ItemAt(items, idx - left);
      if offset >= |tape| {
        return None;
      }
      InsideMeansItem(items, idx - left);
      offset := offset + tape[offset].Count();
      left := left - 1;
    }
    InsideMeansItem(items, idx);
    if offset >= |tape| {
      return None;
    }
    ItemAt(items, idx);
    return Some(tape[offset..offset + tape[offset].Count()]);
  }

  lemma {:induction false} InsideMeansItem(items: seq<Tree>, k: nat)
    requires k <= |items|
    ensures Offset(items, k) < |Encode(Items(items))| <==> k < |items|
  {
    ItemAt(items, k);
  }

  /** `Iter::next` of an array. */
  class ArrayIter {
    var rest: seq<Node>

    constructor (tape: seq<Node>, ghost items: seq<Tree>)
      requires tape == Encode(Items(items))
      ensures rest == EncodeItems(items)
    {
      rest := tape[1..];
    }

    method Next(ghost items: seq<Tree>) returns (r: Option<seq<Node>>)
      requires rest == EncodeItems(items)
      modifies this
      ensures items == [] ==> r == None && rest == []
      ensures items != [] ==> r == Some(Encode(items[0])) && rest == EncodeItems(items[1..])
    {
      if rest == [] {
        return None;
      }
      var count := rest[0].Count();
      var head, tail := rest[..count], rest[count..];
      rest := tail;
      return Some(head);
    }
  }

  /** Running the iterator to its end yields the encodings of all items, in order. */
  method CollectItems(tape: seq<Node>, ghost items: seq<Tree>) returns (all: seq<seq<Node>>)
    requires tape == Encode(Items(items))
    ensures |all| == |items| && forall k :: 0 <= k < |items| ==> all[k] == Encode(items[k])
  {
    var iter := new ArrayIter(tape, items);
    all := [];
    assert items[0..] == items;
    while true
      invariant |all| <= |items| && iter.rest == EncodeItems(items[|all|..])
      invariant fresh(iter) && forall k :: 0 <= k < |all| ==> all[k] == Encode(items[k])
      decreases |items| - |all|
    {
      var item := iter.Next(items[|all|..]);
      match item
      case None => return;
      case Some(value) =>
        assert items[|all|..][1..] == items[|all| + 1..];
        all := all + [value];
    }
  }

  // ----- Objects -----

  /** The value of the first member with the key. */
  function FirstOf(members: seq<(Str, Tree)>, key: Bytes): Option<Tree> {
    if members == [] then None
    else if members[0].0.bytes == key then Some(members[0].1)
    else FirstOf(members[1..], key)
  }

  function LastOf(members: seq<(Str, Tree)>, key: Bytes): Option<Tree> {
    if members == [] then None
    else if members[|members| - 1].0.bytes == key then Some(members[|members| - 1].1)
    else LastOf(members[..|members| - 1], key)
  }

  /** `Object::get`: the pairs are compared in order and skipped by the counts of their values. */
  method ObjectGet(tape: seq<Node>, key: Bytes, ghost members: seq<(Str, Tree)>) returns (r: Option<seq<Node>>)
    requires tape == Encode(Members(members))
    ensures match FirstOf(members, key)
            case None => r == None
            case Some(t) => r == Some(Encode(t))
  {
    var len := tape[0].len;
    var idx := 1;
    ghost var left := members;
    assert tape[1..] == EncodeMembers(members);
    while len > 0
      invariant len == |left| && 1 <= idx <= |tape| && tape[idx..] == EncodeMembers(left)
      invariant FirstOf(left, key) == FirstOf(members, key)
    {
      PairAt(tape, idx, left);
      var s := tape[idx].text.bytes;
      idx := idx + 1;
      len := len - 1;
      var count := tape[idx].Count();
      if s == key {
        return Some(tape[idx..idx + count]);
      }
      idx := idx + count;
      left := left[1..];
    }
    return None;
  }

  lemma {:induction false} PairAt(tape: seq<Node>, idx: nat, left: seq<(Str, Tree)>)
    requires idx <= |tape| && left != [] && tape[idx..] == EncodeMembers(left)
    ensures var v := Encode(left[0].1);
      && idx + 1 + |v| <= |tape| && tape[idx] == String(left[0].0) && tape[idx + 1].Count() == |v|
      && tape[idx + 1..idx + 1 + |v|] == v && tape[idx + 1 + |v|..] == EncodeMembers(left[1..])
  {
    hide EncodeMembers;
    assert left == [(left[0].0, left[0].1)] + left[1..];
    MemberFirst(left[0].0, left[0].1, left[1..]);
    Pieces(tape, idx, String(left[0].0), Encode(left[0].1), EncodeMembers(left[1..]));
  }

  lemma {:induction false} Pieces(tape: seq<Node>, idx: nat, key: Node, v: seq<Node>, rest: seq<Node>)
    requires idx <= |tape| && tape[idx..] == [key] + (v + rest) && v != []
    ensures idx + 1 + |v| <= |tape| && tape[idx] == key && tape[idx + 1] == v[0]
    ensures tape[idx + 1..idx + 1 + |v|] == v && tape[idx + 1 + |v|..] == rest
  {
    var s := tape[idx..];
    assert s[0] == key && s[1..] == v + rest;
    assert tape[idx + 1..] == s[1..];
    assert tape[idx + 1..idx + 1 + |v|] == tape[idx + 1..][..|v|];
    assert tape[idx + 1 + |v|..] == tape[idx + 1..][|v|..];
  }

  /** The DOM map keeps the last value of each key. */
  lemma {:induction false} MapHoldsLast(members: seq<(Str, Tree)>, key: Bytes)
    ensures key in MapOf(members) <==> LastOf(members, key).Some?
    ensures LastOf(members, key).Some? ==> MapOf(members)[key] == ValueOf(LastOf(members, key).value)
  {
    if members != [] {
      MapHoldsLast(members[..|members| - 1], key);
    }
  }

  predicate Distinct(members: seq<(Str, Tree)>) {
    forall i, j :: 0 <= i < j < |members| ==> members[i].0.bytes != members[j].0.bytes
  }

  predicate Holds(member: (Str, Tree), key: Bytes, t: Tree) { member.0.bytes == key && member.1 == t }

  lemma {:induction false} FirstAt(members: seq<(Str, Tree)>, key: Bytes)
    ensures match FirstOf(members, key)
            case None => forall i :: 0 <= i < |members| ==> members[i].0.bytes != key
            case Some(t) =>
              exists i :: 0 <= i < |members| && Holds(members[i], key, t) && forall j :: 0 <= j < i ==> members[j].0.bytes != key
  {
    if members != [] {
      FirstAt(members[1..], key);
      if members[0].0.bytes == key {
        assert Holds(members[0], key, members[0].1);
      } else if FirstOf(members[1..], key).Some? {
        var t := FirstOf(members[1..], key).value;
        var i :| 0 <= i < |members[1..]| && Holds(members[1..][i], key, t) && forall j :: 0 <= j < i ==> members[1..][j].0.bytes != key;
        assert Holds(members[i + 1], key, t);
        assert forall j :: 0 < j < i + 1 ==> members[j].0 == members[1..][j - 1].0;
      } else {
        assert forall j :: 0 < j < |members| ==> members[j] == members[1..][j - 1];
      }
    }
  }

  lemma {:induction false} LastAt(members: seq<(Str, Tree)>, key: Bytes)
    ensures match LastOf(members, key)
            case None => forall i :: 0 <= i < |members| ==> members[i].0.bytes != key
            case Some(t) => exists i :: 0 <= i < |members| && Holds(members[i], key, t)
  {
    if members != [] {
      var front := members[..|members| - 1];
      LastAt(front, key);
      if members[|members| - 1].0.bytes == key {
        assert Holds(members[|members| - 1], key, members[|members| - 1].1);
      } else if LastOf(front, key).Some? {
        var i :| 0 <= i < |front| && Holds(front[i], key, LastOf(front, key).value);
        assert members[i] == front[i];
      }
    }
  }

  /**
   * `Object::get` and the DOM agree on a key exactly when its first and its last value mean the same; so they
   * agree on every key when the keys are distinct, and not in general.
   */
  lemma {:induction false} GetAgreesWithMap(members: seq<(Str, Tree)>, key: Bytes)
    ensures FirstOf(members, key).Some? <==> key in MapOf(members)
    ensures LastOf(members, key).Some? <==> key in MapOf(members)
    ensures key in MapOf(members) ==>
      (ValueOf(FirstOf(members, key).value) == MapOf(members)[key]
       <==> ValueOf(FirstOf(members, key).value) == ValueOf(LastOf(members, key).value))
    ensures Distinct(members) && key in MapOf(members) ==> ValueOf(FirstOf(members, key).value) == MapOf(members)[key]
  {
    MapHoldsLast(members, key);
    FirstAt(members, key);
    LastAt(members, key);
  }

  lemma {:induction false} GetDiffersOnDuplicates(first: Span, second: Span)
    ensures var members := [(Str([97], first), Primitive(Bool(true))), (Str([97], second), Primitive(Null))];
      FirstOf(members, [97]) == Some(Primitive(Bool(true))) && MapOf(members)[[97]] == StaticValue(Null)
  {
    var members := [(Str([97], first), Primitive(Bool(true))), (Str([97], second), Primitive(Null))];
    MapHoldsLast(members, [97]);
    assert LastOf(members, [97]) == Some(Primitive(Null));
    assert members[..1] == [(Str([97], first), Primitive(Bool(true)))];
  }

  /** The pair iterators of an object: each step yields a key and its value and skips both. */
  class ObjectIter {
    var rest: seq<Node>

    constructor (tape: seq<Node>, ghost members: seq<(Str, Tree)>)
      requires tape == Encode(Members(members))
      ensures rest == EncodeMembers(members)
    {
      rest := tape[1..];
    }

    method Next(ghost members: seq<(Str, Tree)>) returns (r: Option<(Bytes, seq<Node>)>)
      requires rest == EncodeMembers(members)
      modifies this
      ensures members == [] ==> r == None && rest == []
      ensures members != [] ==> r == Some((members[0].0.bytes, Encode(members[0].1))) && rest == EncodeMembers(members[1..])
    {
      if rest == [] {
        return None;
      }
      assert rest[0..] == rest;
      PairAt(rest, 0, members);
      var key := rest[0].text.bytes;
      var v := rest[1..];
      var count := v[0].Count();
      var head, tail := v[..count], v[count..];
      assert head == rest[1..1 + count] && tail == rest[1 + count..];
      rest := tail;
      return Some((key, head));
    }
  }

  /** The iterator over the keys, which skips the values. */
  class KeyIter {
    var rest: seq<Node>

    constructor (tape: seq<Node>, ghost members: seq<(Str, Tree)>)
      requires tape == Encode(Members(members))
      ensures rest == EncodeMembers(members)
    {
      rest := tape[1..];
    }

    method Next(ghost members: seq<(Str, Tree)>) returns (r: Option<Bytes>)
      requires rest == EncodeMembers(members)
      modifies this
      ensures members == [] ==> r == None && rest == []
      ensures members != [] ==> r == Some(members[0].0.bytes) && rest == EncodeMembers(members[1..])
    {
      if rest == [] {
        return None;
      }
      assert rest[0..] == rest;
      PairAt(rest, 0, members);
      var key := rest[0].text.bytes;
      var v := rest[1..];
      var count := v[0].Count();
      var tail := v[count..];
      assert tail == rest[1 + count..];
      rest := tail;
      return Some(key);
    }
  }

  /** The iterator over the values, which does not look at the keys. */
  class ValueIter {
    var rest: seq<Node>

    constructor (tape: seq<Node>, ghost members: seq<(Str, Tree)>)
      requires tape == Encode(Members(members))
      ensures rest == EncodeMembers(members)
    {
      rest := tape[1..];
    }

    method Next(ghost members: seq<(Str, Tree)>) returns (r: Option<seq<Node>>)
      requires rest == EncodeMembers(members)
      modifies this
      ensures members == [] ==> r == None && rest == []
      ensures members != [] ==> r == Some(Encode(members[0].1)) && rest == EncodeMembers(members[1..])
    {
      if rest == [] {
        return None;
      }
      assert rest[0..] == rest;
      PairAt(rest, 0, members);
      var v := rest[1..];
      var count := v[0].Count();
      var head, tail := v[..count], v[count..];
      assert head == rest[1..1 + count] && tail == rest[1 + count..];
      rest := tail;
      return Some(head);
    }
  }

  /** Running the iterator to its end yields every key with the encoding of its value, in order. */
  method CollectMembers(tape: seq<Node>, ghost members: seq<(Str, Tree)>) returns (all: seq<(Bytes, seq<Node>)>)
    requires tape == Encode(Members(members))
    ensures |all| == |members|
    ensures forall k :: 0 <= k < |members| ==> all[k] == (members[k].0.bytes, Encode(members[k].1))
  {
    var iter := new ObjectIter(tape, members);
    all := [];
    assert members[0..] == members;
    while true
      invariant |all| <= |members| && iter.rest == EncodeMembers(members[|all|..])
      invariant fresh(iter) && forall k :: 0 <= k < |all| ==> all[k] == (members[k].0.bytes, Encode(members[k].1))
      decreases |members| - |all|
    {
      var member := iter.Next(members[|all|..]);
      match member
      case None => return;
      case Some(pair) =>
        assert members[|all|..][1..] == members[|all| + 1..];
        all := all + [pair];
    }
  }
}
