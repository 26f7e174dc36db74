/** The tape as the pre-order encoding of a tree, the DOM built back from it, and lazy values between the two. */
module Dom {
  import opened Common
  import opened Tape

  datatype Tree =
    | Text(text: Str)
    | Primitive(value: Static)
    | Items(items: seq<Tree>)
    | Members(members: seq<(Str, Tree)>)

  function Encode(t: Tree): (s: seq<Node>)
    ensures s != [] && s[0].Count() == |s|
    decreases t, 0
  {
    match t
    case Text(text) => [String(text)]
    case Primitive(value) => [Scalar(value)]
    case Items(items) => Closed(false, EncodeItems(items), |items|)
    case Members(members) => Closed(true, EncodeMembers(members), |members|)
  }

  function EncodeItems(items: seq<Tree>): (s: seq<Node>)
    ensures items == [] <==> s == []
    decreases items, 1
  {
    if items == [] then [] else Encode(items[0]) + EncodeItems(items[1..])
  }

  function EncodeMembers(members: seq<(Str, Tree)>): (s: seq<Node>)
    ensures members == [] <==> s == []
    decreases members, 1
  {
    if members == [] then []
    else
      assert members[0].1 < members[0];
      [String(members[0].0)] + Encode(members[0].1) + EncodeMembers(members[1..])
  }

  // ----- Encodings are exactly the well-formed values -----

  lemma {:induction false} EncodeIsValue(t: Tree)
    ensures IsValue(Encode(t))
    decreases t, 0
  {
    match t {
      case Items(items) =>
        ItemsAreEncoded(items);
        ClosedIsValue(false, EncodeItems(items), |items|);
      case Members(members) =>
        MembersAreEncoded(members);
        ClosedIsValue(true, EncodeMembers(members), |members|);
      case _ =>
    }
  }

  lemma {:induction false} ItemsAreEncoded(items: seq<Tree>)
    ensures IsItems(EncodeItems(items), |items|)
    decreases items, 1
  {
    if items != [] {
      EncodeIsValue(items[0]);
      ItemsAreEncoded(items[1..]);
      ItemFirst(Encode(items[0]), EncodeItems(items[1..]), |items| - 1);
    }
  }

  lemma {:induction false} MembersAreEncoded(members: seq<(Str, Tree)>)
    ensures IsFields(EncodeMembers(members), |members|)
    decreases members, 1
  {
    if members != [] {
      assert members[0].1 < members[0];
      EncodeIsValue(members[0].1);
      MembersAreEncoded(members[1..]);
      FieldFirst(members[0].0, Encode(members[0].1), EncodeMembers(members[1..]), |members| - 1);
    }
  }

  /** The tree of a well-formed value. */
  function Decode(s: seq<Node>): (t: Tree)
    requires IsValue(s)
    ensures Encode(t) == s
    decreases |s|, 0
  {
    match s[0]
    case String(text) => Text(text)
    case Scalar(value) => Primitive(value)
    case Array(len, _) =>
      var items := DecodeItems(s[1..], len);
      assert s == Closed(false, s[1..], len);
      Items(items)
    case Object(len, _) =>
      var members := DecodeMembers(s[1..], len);
      assert s == Closed(true, s[1..], len);
      Members(members)
  }

  function DecodeItems(s: seq<Node>, n: nat): (items: seq<Tree>)
    requires IsItems(s, n)
    ensures EncodeItems(items) == s && |items| == n
    decreases |s|, 1
  {
    if n == 0 then []
    else
      var k := s[0].Count();
      var rest := DecodeItems(s[k..], n - 1);
      var items := [Decode(s[..k])] + rest;
      assert items[1..] == rest && s == s[..k] + s[k..];
      items
  }

  function DecodeMembers(s: seq<Node>, n: nat): (members: seq<(Str, Tree)>)
    requires IsFields(s, n)
    ensures EncodeMembers(members) == s && |members| == n
    decreases |s|, 1
  {
    if n == 0 then []
    else
      var k := s[1].Count();
      var first := Decode(s[1..][..k]);
      var rest := DecodeMembers(s[1..][k..], n - 1);
      PairIsEncoded(s, k, first, rest);
      [(s[0].text, first)] + rest
  }

  lemma {:induction false} PairIsEncoded(s: seq<Node>, k: nat, first: Tree, rest: seq<(Str, Tree)>)
    requires s != [] && s[0].String? && k < |s| && Encode(first) == s[1..][..k] && EncodeMembers(rest) == s[1..][k..]
    ensures EncodeMembers([(s[0].text, first)] + rest) == s
  {
    hide Encode, EncodeMembers;
    MemberFirst(s[0].text, first, rest);
    assert s[1..] == s[1..][..k] + s[1..][k..];
    assert s == [s[0]] + s[1..];
  }

  lemma {:induction false} MemberFirst(key: Str, t: Tree, rest: seq<(Str, Tree)>)
    ensures EncodeMembers([(key, t)] + rest) == [String(key)] + (Encode(t) + EncodeMembers(rest))
  {
    assert ([(key, t)] + rest)[1..] == rest;
  }

  /** An encoding stands for one tree only, so decoding inverts encoding. */
  lemma {:induction false} EncodeInjective(t: Tree, u: Tree)
    requires Encode(t) == Encode(u)
    ensures t == u
    decreases t, 0
  {
    match t {
      case Items(items) =>
        assert u.Items? && Encode(t)[1..] == Encode(u)[1..];
        ItemsInjective(items, u.items);
      case Members(members) =>
        assert u.Members? && Encode(t)[1..] == Encode(u)[1..];
        MembersInjective(members, u.members);
      case _ =>
    }
  }

  lemma {:induction false} ItemsInjective(a: seq<Tree>, b: seq<Tree>)
    requires EncodeItems(a) == EncodeItems(b)
    ensures a == b
    decreases a, 1
  {
    if a != [] {
      var x, y := Encode(a[0]), Encode(b[0]);
      var s := EncodeItems(a);
      assert s[0] == x[0] == y[0];
      assert s[..|x|] == x && s[..|y|] == y && s[|x|..] == EncodeItems(a[1..]) && s[|y|..] == EncodeItems(b[1..]);
      EncodeInjective(a[0], b[0]);
      ItemsInjective(a[1..], b[1..]);
      assert a == [a[0]] + a[1..] && b == [b[0]] + b[1..];
    }
  }

  lemma {:induction false} MembersInjective(a: seq<(Str, Tree)>, b: seq<(Str, Tree)>)
    requires EncodeMembers(a) == EncodeMembers(b)
    ensures a == b
    decreases a, 1
  {
    if a != [] {
      assert a[0].1 < a[0];
      var x, y := Encode(a[0].1), Encode(b[0].1);
      var s := EncodeMembers(a);
      assert s[0] == String(a[0].0) == String(b[0].0);
      assert s[1] == x[0] == y[0];
      assert s[1..][..|x|] == x && s[1..][..|y|] == y;
      assert s[1..][|x|..] == EncodeMembers(a[1..]) && s[1..][|y|..] == EncodeMembers(b[1..]);
      EncodeInjective(a[0].1, b[0].1);
      MembersInjective(a[1..], b[1..]);
      assert a == [a[0]] + a[1..] && b == [b[0]] + b[1..];
    }
  }

  // ----- The DOM -----

  datatype Value =
    | StaticValue(value: Static)
    | StringValue(text: Bytes)
    | ArrayValue(items: seq<Value>)
    | ObjectValue(members: map<Bytes, Value>)

  /** The DOM of a tree: among members with one key the last one wins. */
  function ValueOf(t: Tree): Value
    decreases t, 0
  {
    match t
    case Text(text) => StringValue(text.bytes)
    case Primitive(value) => StaticValue(value)
    case Items(items) => ArrayValue(ValuesOf(items))
    case Members(members) => ObjectValue(MapOf(members))
  }

  function ValuesOf(items: seq<Tree>): (values: seq<Value>)
    ensures |values| == |items|
    decreases items, 1
  {
    if items == [] then [] else ValuesOf(items[..|items| - 1]) + [ValueOf(items[|items| - 1])]
  }

  function MapOf(members: seq<(Str, Tree)>): map<Bytes, Value>
    decreases members, 1
  {
    if members == [] then map[]
    else
      var last := members[|members| - 1];
      assert last.1 < last;
      MapOf(members[..|members| - 1])[last.0.bytes := ValueOf(last.1)]
  }

  lemma {:induction false} ItemsSplit(items: seq<Tree>, k: nat)
    requires k <= |items|
    ensures EncodeItems(items) == EncodeItems(items[..k]) + EncodeItems(items[k..])
  {
    if k == 0 {
      assert items[0..] == items;
    } else {
      ItemsSplit(items[1..], k - 1);
      assert items[..k][0] == items[0] && items[..k][1..] == items[1..][..k - 1] && items[1..][k - 1..] == items[k..];
    }
  }
}
