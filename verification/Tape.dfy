/** The flat tape of nodes and what makes a stretch of it one well-formed value. */
module Tape {
  import opened Common

  datatype Static =
    | Null
    | Bool(b: bool)
    | I64(i: int)
    | U64(u: int)
    | F64(negative: bool, significand: int, exponent: int)

  datatype Node =
    | String(text: Str)
    | Object(len: nat, count: nat)
    | Array(len: nat, count: nat)
    | Scalar(value: Static)
  {
    /** Nodes taken up by this node and everything below it. */
    function Count(): (n: nat)
      ensures n >= 1
    {
      if Object? || Array? then count + 1 else 1
    }
  }

  function Container(isObject: bool, len: nat, count: nat): Node {
    if isObject then Object(len, count) else Array(len, count)
  }

  /** `s` is exactly one value: a container's `count` covers the rest of `s`, which splits into `len` members. */
  predicate IsValue(s: seq<Node>)
    decreases |s|, 0
  {
    && s != []
    && match s[0]
       case Object(len, count) => count == |s| - 1 && IsFields(s[1..], len)
       case Array(len, count) => count == |s| - 1 && IsItems(s[1..], len)
       case _ => |s| == 1
  }

  /** `s` is exactly `n` values, one after the other. */
  predicate IsItems(s: seq<Node>, n: nat)
    decreases |s|, 1
  {
    if n == 0 then s == []
    else
      && s != []
      && s[0].Count() <= |s|
      && IsValue(s[..s[0].Count()])
      && IsItems(s[s[0].Count()..], n - 1)
  }

  /** `s` is exactly `n` pairs of a String key and a value. */
  predicate IsFields(s: seq<Node>, n: nat)
    decreases |s|, 1
  {
    if n == 0 then s == []
    else
      && |s| >= 2
      && s[0].String?
      && s[1].Count() < |s|
      && IsValue(s[1..][..s[1].Count()])
      && IsFields(s[1..][s[1].Count()..], n - 1)
  }

  predicate IsBody(isObject: bool, s: seq<Node>, n: nat) {
    if isObject then IsFields(s, n) else IsItems(s, n)
  }

  /** The nodes of one closed container: its header with the counts filled in, then its body. */
  function Closed(isObject: bool, body: seq<Node>, n: nat): (s: seq<Node>)
    ensures s != [] && s[0] == Container(isObject, n, |body|) && s[0].Count() == |s| && s[1..] == body
  {
    [Container(isObject, n, |body|)] + body
  }

  lemma ClosedIsValue(isObject: bool, body: seq<Node>, n: nat)
    ensures IsValue(Closed(isObject, body, n)) <==> IsBody(isObject, body, n)
  {
  }

  /** A chunk whose first node measures it is read off whole, so what precedes cannot hide it. */
  lemma ItemFirst(chunk: seq<Node>, rest: seq<Node>, n: nat)
    requires chunk != [] && chunk[0].Count() == |chunk|
    ensures IsItems(chunk + rest, n + 1) <==> IsValue(chunk) && IsItems(rest, n)
  {
    assert (chunk + rest)[..|chunk|] == chunk;
    assert (chunk + rest)[|chunk|..] == rest;
  }

  lemma FieldFirst(key: Str, chunk: seq<Node>, rest: seq<Node>, n: nat)
    requires chunk != [] && chunk[0].Count() == |chunk|
    ensures IsFields([String(key)] + chunk + rest, n + 1) <==> IsValue(chunk) && IsFields(rest, n)
  {
    var s := [String(key)] + chunk + rest;
    assert s[1..] == chunk + rest;
    assert (chunk + rest)[..|chunk|] == chunk;
    assert (chunk + rest)[|chunk|..] == rest;
    assert s[1] == chunk[0];
  }
}
