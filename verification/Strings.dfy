/**
 * Strings decoded in place: windows of 32 bytes are searched for the next quote or backslash, text without escapes
 * is left where it is, and the rest is unescaped into a side buffer and copied back over its own source.
 */
module Strings {
  import opened Common
  import opened Scanner
  import opened Bits
  import opened Blocks
  import opened Escapes

  const WINDOW: nat := 32

  /** A stretch of the input that a String node refers to. */
  datatype View = View(start: nat, length: nat)

  /** `(a - 1) & b` is not zero exactly if the first bit of `b` lies below the first one of `a`. */
  lemma {:induction false} BelowFirst(a: Word, b: Word)
    requires |a| == |b| && forall i :: 0 <= i < |a| ==> !(a[i] && b[i])
    ensures !IsZero(And(MinusOne(a), b)) <==> TrailingZeros(b) < TrailingZeros(a)
  {
    var m := And(MinusOne(a), b);
    var t, u := TrailingZeros(a), TrailingZeros(b);
    if u < t {
      assert m[u];
    }
  }

  /** The bytes from `i` on that are neither quotes nor backslashes. */
  function PlainLength(s: Bytes, i: nat): (n: nat)
    requires i <= |s|
    ensures i + n <= |s| && (forall k :: i <= k < i + n ==> Plain(s, k)) && (i + n < |s| ==> !Plain(s, i + n))
    decreases |s| - i
  {
    if Plain(s, i) then 1 + PlainLength(s, i + 1) else 0
  }

  lemma {:induction false} PlainLengthIs(s: Bytes, i: nat, j: nat)
    requires i <= j < |s| && (forall k :: i <= k < j ==> Plain(s, k)) && !Plain(s, j)
    ensures PlainLength(s, i) == j - i
    decreases j - i
  {
    if i < j {
      PlainLengthIs(s, i + 1, j);
    }
  }

  /** Plain bytes are taken over as they are. */
  lemma {:induction false} DecodePlain(s: Bytes, i: nat, j: nat, n: nat)
    requires n + 12 <= |s| && Fresh(s, i, n) && i <= j <= |s| && forall k :: i <= k < j ==> Plain(s, k)
    ensures Fresh(s, j, n) && Decode(s, i, n) == Escapes.Prepend(s[i..j], Decode(s, j, n))
    decreases j - i
  {
    hide ScanTo, Fresh, ReadEscape, Escapes.Prepend;
    if i < j {
      FreshInside(s, i, n);
      PlainStep(s, i, n);
      assert Plain(s, i);
      DecodePlain(s, i + 1, j, n);
      assert s[i..j] == [s[i]] + s[i + 1..j];
      PrependTwice([s[i]], s[i + 1..j], Decode(s, j, n));
    } else {
      assert s[i..j] == [];
      PrependNothing(Decode(s, j, n));
    }
  }

  lemma {:induction false} PrependNothing(r: Result<Text>)
    ensures Escapes.Prepend([], r) == r
  {
    if r.Ok? {
      assert [] + r.value.text == r.value.text;
    }
  }

  lemma {:induction false} PrependTwice(a: Bytes, b: Bytes, r: Result<Text>)
    ensures Escapes.Prepend(a, Escapes.Prepend(b, r)) == Escapes.Prepend(a + b, r)
  {
    if r.Ok? {
      assert a + (b + r.value.text) == (a + b) + r.value.text;
    }
  }

  /** What the two masks of a window tell: the first byte of interest, and whether it is a quote. */
  method Search(data: Bytes, i: nat) returns (quoteFirst: bool, backslashFirst: bool, distance: nat)
    requires i + WINDOW <= |data|
    ensures distance <= WINDOW && forall k :: i <= k < i + distance ==> Plain(data, k)
    ensures quoteFirst ==> distance < WINDOW && data[i + distance] == QUOTE && !backslashFirst
    ensures backslashFirst ==> distance < WINDOW && data[i + distance] == BACKSLASH
    ensures !quoteFirst && !backslashFirst ==> distance == WINDOW
  {
    var v := data[i..i + WINDOW];
    var bsBits := Mask(v, BACKSLASH);
    var quoteBits := Mask(v, QUOTE);
    BelowFirst(bsBits, quoteBits);
    BelowFirst(quoteBits, bsBits);
    quoteFirst := !IsZero(And(MinusOne(bsBits), quoteBits));
    backslashFirst := !quoteFirst && !IsZero(And(MinusOne(quoteBits), bsBits));
    distance := if quoteFirst then TrailingZeros(quoteBits) else if backslashFirst then TrailingZeros(bsBits) else WINDOW;
    forall k | i <= k < i + distance
      ensures Plain(data, k)
    {
      assert !bsBits[k - i] && !quoteBits[k - i];
    }
  }

  /** Writes the UTF-8 form of a code point; 0 for numbers that have none. */
  method CodepointToUtf8(cp: nat, c: array<Byte>, at: nat) returns (len: nat)
    requires at + 4 <= c.Length
    modifies c
    ensures len == |Utf8(cp)| && c[..] == old(c[..at]) + Utf8(cp) + old(c[at + len..])
  {
    if cp <= 0x7F {
      c[at] := cp;
      len := 1;
    } else if cp <= 0x7FF {
      c[at] := cp / 64 + 192;
      c[at + 1] := cp % 64 + 128;
      len := 2;
    } else if cp <= 0xFFFF {
      c[at] := cp / 4096 + 224;
      c[at + 1] := cp / 64 % 64 + 128;
      c[at + 2] := cp % 64 + 128;
      len := 3;
    } else if cp <= 0x10_FFFF {
      c[at] := cp / 0x4_0000 + 240;
      c[at + 1] := cp / 4096 % 64 + 128;
      c[at + 2] := cp / 64 % 64 + 128;
      c[at + 3] := cp % 64 + 128;
      len := 4;
    } else {
      len := 0;
    }
  }

  /** The opening quote of a string that stage 1 found closed. */
  ghost predicate Opens(s: Bytes, p: nat, n: nat) {
    p < n <= |s| && s[p] == QUOTE && !ScanTo(s, p).odd && !ScanTo(s, p).inQuote && !ScanTo(s, n).inQuote
  }

  lemma {:induction false} OpensFresh(s: Bytes, p: nat, n: nat)
    requires Opens(s, p, n)
    ensures Fresh(s, p + 1, n)
  {
  }

  /** The text of the string that opens at `p`, as the decoder reads it. */
  function TextOf(s: Bytes, p: nat, n: nat): Result<Text>
    requires n + 12 <= |s|
  {
    Decode(s, p + 1, n)
  }

  predicate IsQuoted(s: Bytes, n: nat, token: Span)
    requires n <= |s|
  {
    token.start < n && s[token.start] == QUOTE
  }

  /** The text of a token: quoted strings are decoded, bare ones taken as they are. */
  function TextAt(s: Bytes, n: nat, token: Span): Result<Bytes>
    requires n + 12 <= |s|
  {
    if IsQuoted(s, n, token) then
      var t :- TextOf(s, token.start, n);
      Ok(t.text)
    else if token.start <= token.end <= |s| then Ok(s[token.start..token.end])
    else Err(Syntax)
  }

  /** A token inside the input; a quoted one opens a string, which closes before the token ends. */
  ghost predicate IsStringToken(s: Bytes, n: nat, token: Span) {
    && n + 12 <= |s| && token.start <= token.end <= n
    && (IsQuoted(s, n, token) ==> Opens(s, token.start, n))
    && (IsQuoted(s, n, token) && TextOf(s, token.start, n).Ok? ==> TextOf(s, token.start, n).value.close < token.end)
  }

  /** The slice of the input that stands for the text of a token. */
  function ViewOf(s: Bytes, n: nat, token: Span): View
    requires n + 12 <= |s|
  {
    if !IsQuoted(s, n, token) then View(token.start, if token.start <= token.end then token.end - token.start else 0)
    else
      match TextOf(s, token.start, n)
      case Err(_) => View(token.start + 1, 0)
      case Ok(t) => View(token.start + 1, |t.text|)
  }

  // ----- The input while its strings are decoded -----

  /** `now`, the input in its present state, shows the text of the token. */
  predicate Shows(s: Bytes, n: nat, now: Bytes, token: Span)
    requires n + 12 <= |s|
  {
    var v := ViewOf(s, n, token);
    v.start + v.length <= |now| && TextAt(s, n, token) == Ok(now[v.start..v.start + v.length])
  }

  /** The text in front of the first escape of the string at `p` is still what it was. */
  predicate Untouched(s: Bytes, n: nat, now: Bytes, p: nat)
    requires p < n <= |s| && |now| == n
  {
    forall k :: p < k < n && k <= p + PlainLength(s, p + 1) ==> now[k] == s[k]
  }

  /** What a token needs to find: bare ones their bytes, quoted ones those in front of the first escape. */
  predicate Intact(s: Bytes, n: nat, now: Bytes, token: Span)
    requires n <= |s| && |now| == n
  {
    if IsQuoted(s, n, token) then Untouched(s, n, now, token.start)
    else token.start <= token.end <= n && now[token.start..token.end] == s[token.start..token.end]
  }

  /** A byte between the quotes of the string that opens at `p`. */
  predicate Between(s: Bytes, n: nat, p: nat, k: nat)
    requires n + 12 <= |s|
  {
    match TextOf(s, p, n)
    case Err(_) => false
    case Ok(t) => p < k < t.close
  }

  /** A byte that decoding the token may change. */
  predicate Changes(s: Bytes, n: nat, token: Span, k: nat)
    requires n + 12 <= |s|
  {
    IsQuoted(s, n, token) && Between(s, n, token.start, k)
  }

  predicate SameBut(s: Bytes, n: nat, before: Bytes, now: Bytes, token: Span)
    requires n + 12 <= |s|
  {
    |before| == |now| == n && forall k :: 0 <= k < n && !Changes(s, n, token, k) ==> now[k] == before[k]
  }

  predicate SameButAll(s: Bytes, n: nat, before: Bytes, now: Bytes, tokens: seq<Span>)
    requires n + 12 <= |s|
  {
    && |before| == |now| == n
    && forall k :: 0 <= k < n && (forall j :: 0 <= j < |tokens| ==> !Changes(s, n, tokens[j], k)) ==> now[k] == before[k]
  }

  ghost predicate AreTokens(s: Bytes, n: nat, tokens: seq<Span>) {
    && (forall j :: 0 <= j < |tokens| ==> IsStringToken(s, n, tokens[j]))
    && (forall j, l :: 0 <= j < |tokens| && 0 <= l < |tokens| ==> Apart(tokens[j], tokens[l]))
  }

  ghost predicate AllIntact(s: Bytes, n: nat, now: Bytes, tokens: seq<Span>)
    requires AreTokens(s, n, tokens) && n <= |s| && |now| == n
  {
    forall j :: 0 <= j < |tokens| ==> Intact(s, n, now, tokens[j])
  }

  /** What is written for one token lies outside what another one needs or shows. */
  lemma {:induction false} LeavesAlone(s: Bytes, n: nat, before: Bytes, now: Bytes, t: Span, u: Span)
    requires IsStringToken(s, n, t) && IsStringToken(s, n, u) && Apart(t, u) && t != u
    requires SameBut(s, n, before, now, u) && Intact(s, n, before, t)
    ensures Intact(s, n, now, t) && (Shows(s, n, before, t) ==> Shows(s, n, now, t))
  {
    hide ScanTo, TextOf, Opens;
    if !IsQuoted(s, n, u) {
      assert before == now;
    } else if !IsQuoted(s, n, t) {
      assert forall k :: t.start <= k < t.end ==> !Changes(s, n, u, k);
      assert now[t.start..t.end] == before[t.start..t.end];
    } else if t.start != u.start {
      QuotedAlone(s, n, before, now, t, u);
    } else {
      TextFits(s, t.start, n);
      assert before == now;
    }
  }

  lemma {:induction false} QuotedAlone(s: Bytes, n: nat, before: Bytes, now: Bytes, t: Span, u: Span)
    requires IsStringToken(s, n, t) && IsStringToken(s, n, u) && t.start != u.start
    requires IsQuoted(s, n, t) && IsQuoted(s, n, u)
    requires SameBut(s, n, before, now, u) && Intact(s, n, before, t)
    ensures Intact(s, n, now, t) && (Shows(s, n, before, t) ==> Shows(s, n, now, t))
  {
    hide ScanTo, Decode, PlainLength;
    StringsApart(s, t.start, u.start, n);
    forall k | t.start < k < n && k <= t.start + PlainLength(s, t.start + 1)
      ensures now[k] == before[k]
    {
      PlainApart(s, t.start, u.start, k, n);
    }
    if Shows(s, n, before, t) {
      var v := ViewOf(s, n, t);
      TextFits(s, t.start, n);
      assert now[v.start..v.start + v.length] == before[v.start..v.start + v.length];
    }
  }

  lemma {:induction false} TextFits(s: Bytes, p: nat, n: nat)
    requires n + 12 <= |s|
    ensures TextOf(s, p, n).Ok? ==> p + 1 + |TextOf(s, p, n).value.text| <= TextOf(s, p, n).value.close < n
  {
  }

  lemma {:induction false} NotShown(s: Bytes, n: nat, now: Bytes, token: Span)
    requires n + 12 <= |s| && TextAt(s, n, token).Err?
    ensures !Shows(s, n, now, token)
  {
  }

  lemma {:induction false} UntouchedPlain(s: Bytes, n: nat, now: Bytes, p: nat, i: nat)
    requires p < i < n <= |s| && |now| == n && i == p + 1 + PlainLength(s, p + 1) && Untouched(s, n, now, p)
    ensures now[p + 1..i] == s[p + 1..i]
  {
    hide PlainLength;
    assert forall k :: p + 1 <= k < i ==> now[k] == s[k];
  }

  /** Text written from the first escape on leaves what is in front of it. */
  lemma {:induction false} WrittenBehind(s: Bytes, n: nat, before: Bytes, now: Bytes, p: nat, i: nat, m: nat)
    requires p < i && i + m <= n <= |s| && |before| == |now| == n && i == p + 1 + PlainLength(s, p + 1)
    requires Untouched(s, n, before, p) && forall k :: 0 <= k < n && !(i <= k < i + m) ==> now[k] == before[k]
    requires before[p + 1..i] == s[p + 1..i]
    ensures Untouched(s, n, now, p) && now[p + 1..i + m] == s[p + 1..i] + now[i..i + m]
  {
    hide PlainLength;
    assert now[p + 1..i] == before[p + 1..i];
    assert now[p + 1..i + m] == now[p + 1..i] + now[i..i + m];
  }

  /** What stage 2 decodes strings with: `data` is the padded copy of the input it reads, `input` what it writes. */
  class StringDecoder {
    const data: Bytes
    const n: nat
    const input: array<Byte>
    const buffer: array<Byte>

    constructor (data: Bytes, n: nat, input: array<Byte>, buffer: array<Byte>)
      requires input != buffer && input.Length == n && |data| == n + 64 && buffer.Length == n + WINDOW
      requires !ScanTo(data, n).inQuote
      ensures Valid() && this.data == data && this.n == n && this.input == input && this.buffer == buffer
    {
      this.data, this.n, this.input, this.buffer := data, n, input, buffer;
    }

    ghost predicate Valid() {
      && input != buffer && input.Length == n && |data| == n + 64 && buffer.Length == n + WINDOW
      && !ScanTo(data, n).inQuote
    }

    /** A Unicode escape at `i`: the bytes written at `at` and the bytes read. */
    method HandleUnicodeCodepoint(i: nat, at: nat) returns (r: Result<(nat, nat)>)
      requires Valid() && i < n && at <= n && data[i] == BACKSLASH && data[i + 1] == LOWER_U
      modifies buffer
      ensures match ReadEscape(data, i)
              case Err(e) => r == Err(e) || (r.Ok? && r.value.0 == 0 && e == InvalidUnicodeCodepoint)
              case Ok(p) => r == Ok((|p.out|, p.used)) && buffer[..at + |p.out|] == old(buffer[..at]) + p.out
    {
      hide ScanTo, HexToU32, Utf8;
      match GetUnicodeCodepoint(data, i)
      case Err(_) => return Err(InvalidUnicodeCodepoint);
      case Ok(e) =>
        var offset := CodepointToUtf8(e.codePoint, buffer, at);
        assert buffer[..at + offset] == old(buffer[..at]) + Utf8(e.codePoint);
        return Ok((offset, e.used));
    }

    /** The second phase: unescapes everything from `from` on into the buffer. */
    method UnescapeRest(from: nat) returns (r: Result<nat>)
      requires Valid() && Fresh(data, from, n)
      modifies buffer
      ensures match Decode(data, from, n)
              case Err(e) => r == Err(e)
              case Ok(t) => r == Ok(|t.text|) && buffer[..|t.text|] == t.text
    {
      hide ScanTo, Fresh, ReadEscape, Decode;
      var i, dst := from, 0;
      PrependNothing(Decode(data, from, n));
      assert buffer[..0] == [];
      FreshInside(data, i, n);
      while true
        invariant Fresh(data, i, n) && i < n && 0 <= dst && from + dst <= i
        invariant Decode(data, from, n) == Escapes.Prepend(buffer[..dst], Decode(data, i, n))
        decreases n - i
      {
        ghost var before := buffer[..dst];
        forall k | 0 <= k < WINDOW {
          buffer[dst + k] := data[i + k];
        }
        var quoteFirst, backslashFirst, distance := Search(data, i);
        DecodePlain(data, i, i + distance, n);
        FreshInside(data, i + distance, n);
        PrependTwice(before, data[i..i + distance], Decode(data, i + distance, n));
        assert buffer[..dst + distance] == before + data[i..i + distance];
        i, dst := i + distance, dst + distance;
        if quoteFirst {
          DecodeQuote(data, i, n, buffer[..dst]);
          return Ok(dst);
        }
        if backslashFirst {
          r, i, dst := Escape(from, i, dst);
          if r.Err? {
            return r;
          }
        }
      }
    }

    /** One escape behind the text already in the buffer. */
    method Escape(ghost from: nat, i: nat, dst: nat) returns (r: Result<nat>, next: nat, filled: nat)
      requires Valid() && Fresh(data, i, n) && i < n && data[i] == BACKSLASH && from + dst <= i
      requires Decode(data, from, n) == Escapes.Prepend(buffer[..dst], Decode(data, i, n))
      modifies buffer
      ensures r.Err? ==> Decode(data, from, n) == Err(r.error)
      ensures r.Ok? ==> i < next < n && Fresh(data, next, n) && from + filled <= next
                        && Decode(data, from, n) == Escapes.Prepend(buffer[..filled], Decode(data, next, n))
    {
      hide ScanTo, Fresh, GetUnicodeCodepoint, Decode, EscapeMap;
      next, filled := i, dst;
      ghost var rest := Decode(data, i, n);
      DecodeEscape(data, i, n, buffer[..dst]);
      if data[i + 1] == LOWER_U {
        var used := HandleUnicodeCodepoint(i, dst);
        if used.Err? {
          return Err(InvalidUnicodeCodepoint), i, dst;
        }
        if used.value.0 == 0 {
          return Err(InvalidUnicodeCodepoint), i, dst;
        }
        next, filled := i + used.value.1, dst + used.value.0;
      } else {
        var result := EscapeMap(data[i + 1]);
        if result == 0 {
          return Err(InvalidEscape), i, dst;
        }
        ghost var before := buffer[..dst];
        buffer[dst] := result;
        assert buffer[..dst + 1] == before + [result];
        next, filled := i + 2, dst + 1;
      }
      r := Ok(0);
    }

    /** The first phase: skips to the closing quote or to the first backslash. */
    method SkipPlain(from: nat) returns (i: nat, closed: bool)
      requires Valid() && Fresh(data, from, n)
      ensures from <= i < n && i == from + PlainLength(data, from)
      ensures Decode(data, from, n) == Escapes.Prepend(data[from..i], Decode(data, i, n)) && Fresh(data, i, n)
      ensures data[i] == if closed then QUOTE else BACKSLASH
    {
      hide ScanTo, Fresh, ReadEscape, Decode;
      i, closed := from, false;
      FreshInside(data, i, n);
      while true
        invariant from <= i < n && Fresh(data, i, n)
        invariant forall k :: from <= k < i ==> Plain(data, k)
        decreases n - i
      {
        var quoteFirst, backslashFirst, distance := Search(data, i);
        DecodePlain(data, i, i + distance, n);
        FreshInside(data, i + distance, n);
        i := i + distance;
        if quoteFirst || backslashFirst {
          closed := quoteFirst;
          break;
        }
      }
      DecodePlain(data, from, i, n);
      PlainLengthIs(data, from, i);
    }

    /** Decodes the string that opens at `idx`; its text ends up on its own source, which it never outgrows. */
    method ParseStrQuotes(idx: nat) returns (r: Result<View>)
      requires Valid() && Opens(data, idx, n) && Untouched(data, n, input[..], idx)
      modifies input, buffer
      ensures match TextOf(data, idx, n)
              case Err(e) => r == Err(e)
              case Ok(t) =>
                && r == Ok(View(idx + 1, |t.text|))
                && input[idx + 1..idx + 1 + |t.text|] == t.text
                && Closes(data, idx + 1, t.close) && idx + 1 + |t.text| <= t.close
      ensures forall k :: 0 <= k < n && !Between(data, n, idx, k) ==> input[k] == old(input[k])
      ensures Untouched(data, n, input[..], idx)
    {
      hide ScanTo, Fresh, ReadEscape, Decode, Closes, PlainLength, Plain, Untouched;
      OpensFresh(data, idx, n);
      DecodeStopsAtClosingQuote(data, idx + 1, n);
      var i, closed := SkipPlain(idx + 1);
      ghost var plain, before := data[idx + 1..i], input[..];
      UntouchedPlain(data, n, before, idx, i);
      if closed {
        DecodeQuote(data, i, n, plain);
        return Ok(View(idx + 1, i - idx - 1));
      }
      var dst := UnescapeInPlace(i);
      if dst.Err? {
        return Err(dst.error);
      }
      WrittenBehind(data, n, before, input[..], idx, i, dst.value);
      return Ok(View(idx + 1, i - idx - 1 + dst.value));
    }

    /** The text from the first escape on takes the place of its own source. */
    method UnescapeInPlace(i: nat) returns (r: Result<nat>)
      requires Valid() && Fresh(data, i, n)
      modifies input, buffer
      ensures match Decode(data, i, n)
              case Err(e) => r == Err(e) && input[..] == old(input[..])
              case Ok(t) =>
                && r == Ok(|t.text|) && i + |t.text| <= n && input[i..i + |t.text|] == t.text
                && forall k :: 0 <= k < n && !(i <= k < i + |t.text|) ==> input[k] == old(input[k])
    {
      hide ScanTo, Fresh, Decode;
      var dst :- UnescapeRest(i);
      CopyBack(i, dst);
      return Ok(dst);
    }

    /** `parse_str`: a quoted token is decoded, a bare one is taken off the input as it stands. */
    method ParseStr(token: Span) returns (r: Result<View>)
      requires Valid() && IsStringToken(data, n, token) && Intact(data, n, input[..], token)
      modifies input, buffer
      ensures match TextAt(data, n, token)
              case Err(e) => r == Err(e)
              case Ok(_) => r == Ok(ViewOf(data, n, token)) && Shows(data, n, input[..], token)
      ensures SameBut(data, n, old(input[..]), input[..], token) && Intact(data, n, input[..], token)
    {
      hide ScanTo, Decode, Opens, Closes, PlainLength;
      if IsQuoted(data, n, token) {
        r := ParseStrQuotes(token.start);
      } else {
        r := Ok(View(token.start, token.end - token.start));
      }
    }

    /** Decoding one more token leaves the others as they are: those decoded before, and those still to come. */
    method ParseNext(tokens: seq<Span>, j: nat) returns (r: Result<View>)
      requires Valid() && AreTokens(data, n, tokens) && AllIntact(data, n, input[..], tokens) && j < |tokens|
      modifies input, buffer
      ensures match TextAt(data, n, tokens[j])
              case Err(e) => r == Err(e)
              case Ok(_) => r == Ok(ViewOf(data, n, tokens[j])) && Shows(data, n, input[..], tokens[j])
      ensures SameBut(data, n, old(input[..]), input[..], tokens[j]) && AllIntact(data, n, input[..], tokens)
      ensures forall l :: 0 <= l < |tokens| && Shows(data, n, old(input[..]), tokens[l]) ==>
        Shows(data, n, input[..], tokens[l])
    {
      hide IsStringToken, IsQuoted, TextAt, ViewOf, Shows, Intact, SameBut, Apart;
      ghost var before := input[..];
      r := ParseStr(tokens[j]);
      forall l | 0 <= l < |tokens|
        ensures Intact(data, n, input[..], tokens[l])
        ensures Shows(data, n, before, tokens[l]) ==> Shows(data, n, input[..], tokens[l])
      {
        if tokens[l] != tokens[j] {
          LeavesAlone(data, n, before, input[..], tokens[l], tokens[j]);
        } else if TextAt(data, n, tokens[l]).Err? {
          NotShown(data, n, before, tokens[l]);
        }
      }
    }

    /**
     * Over a whole run of decodings, header names read again included, every slice handed out shows the text of its
     * token at the end.
     */
    method ParseAll(tokens: seq<Span>) returns (views: seq<View>)
      requires Valid() && AreTokens(data, n, tokens) && AllIntact(data, n, input[..], tokens)
      modifies input, buffer
      ensures |views| <= |tokens|
      ensures |views| < |tokens| ==> TextAt(data, n, tokens[|views|]).Err?
      ensures forall j :: 0 <= j < |views| ==>
        views[j] == ViewOf(data, n, tokens[j]) && Shows(data, n, input[..], tokens[j])
      ensures SameButAll(data, n, old(input[..]), input[..], tokens)
    {
      hide IsStringToken, IsQuoted, TextAt, ViewOf, Shows, Intact, Apart, Changes;
      views := [];
      for j := 0 to |tokens|
        invariant |views| == j && AllIntact(data, n, input[..], tokens)
        invariant forall l :: 0 <= l < j ==> views[l] == ViewOf(data, n, tokens[l]) && Shows(data, n, input[..], tokens[l])
        invariant SameButAll(data, n, old(input[..]), input[..], tokens)
      {
        var r := ParseNext(tokens, j);
        if r.Err? {
          return;
        }
        views := views + [r.value];
      }
    }

    /** Copies the unescaped text over its source. */
    method CopyBack(at: nat, count: nat)
      requires Valid() && at + count <= n
      modifies input
      ensures input[at..at + count] == buffer[..count]
      ensures forall k :: 0 <= k < n && !(at <= k < at + count) ==> input[k] == old(input[k])
    {
      forall k | 0 <= k < count {
        input[at + k] := buffer[k];
      }
      assert forall k :: at <= k < at + count ==> input[k] == buffer[k - at];
    }
  }

  /** Between its quotes a string stays open. */
  lemma {:induction false} OpenUntilClosed(s: Bytes, i: nat, c: nat, k: nat)
    requires Closes(s, i, c) && i <= k <= c && ScanTo(s, i).inQuote
    ensures ScanTo(s, k).inQuote
    decreases k
  {
    hide Scan.Step, Scan.Quotes;
    if i < k {
      OpenUntilClosed(s, i, c, k - 1);
      StaysOpen(ScanTo(s, k - 1), s[k - 1], k - 1);
    }
  }

  lemma {:induction false} StaysOpen(scan: Scan, b: Byte, k: nat)
    requires scan.inQuote && !scan.Quotes(b)
    ensures scan.Step(b, k).inQuote
  {
  }

  /** Two strings do not overlap. */
  lemma {:induction false} StringsApart(s: Bytes, p: nat, q: nat, n: nat)
    requires n + 12 <= |s| && Opens(s, p, n) && Opens(s, q, n) && p != q
    ensures TextOf(s, q, n).Ok? && q < p ==> TextOf(s, q, n).value.close < p
    ensures TextOf(s, p, n).Ok? && p < q ==> TextOf(s, p, n).value.close < q
  {
    hide ScanTo, Decode, Closes;
    OpensFresh(s, p, n);
    OpensFresh(s, q, n);
    DecodeStopsAtClosingQuote(s, p + 1, n);
    DecodeStopsAtClosingQuote(s, q + 1, n);
    if TextOf(s, q, n).Ok? && q < p {
      NotInside(s, q, TextOf(s, q, n).value.close, p);
    }
    if TextOf(s, p, n).Ok? && p < q {
      NotInside(s, p, TextOf(s, p, n).value.close, q);
    }
  }

  /** What is written for one string lies outside the plain start of another. */
  lemma {:induction false} PlainApart(s: Bytes, p: nat, q: nat, k: nat, n: nat)
    requires n + 12 <= |s| && Opens(s, p, n) && Opens(s, q, n) && p != q
    requires p < k <= p + PlainLength(s, p + 1)
    ensures TextOf(s, q, n).Ok? ==> !(q < k < TextOf(s, q, n).value.close)
  {
    hide ScanTo, Decode, PlainLength;
    StringsApart(s, p, q, n);
    assert !Plain(s, q);
    assert p < q ==> p + PlainLength(s, p + 1) < q;
  }

  lemma {:induction false} NotInside(s: Bytes, p: nat, c: nat, q: nat)
    requires p < q < |s| && Closes(s, p + 1, c) && ScanTo(s, p + 1).inQuote && !ScanTo(s, q).inQuote
    ensures c < q
  {
    if q <= c {
      OpenUntilClosed(s, p + 1, c, q);
    }
  }

  lemma {:induction false} DecodeQuote(s: Bytes, i: nat, n: nat, before: Bytes)
    requires n + 12 <= |s| && i < n && s[i] == QUOTE
    ensures Escapes.Prepend(before, Decode(s, i, n)) == Ok(Text(before, i))
  {
    assert before + [] == before;
  }

  lemma {:induction false} DecodeEscape(s: Bytes, i: nat, n: nat, before: Bytes)
    requires n + 12 <= |s| && i < n && s[i] == BACKSLASH && Fresh(s, i, n)
    ensures match ReadEscape(s, i)
            case Err(e) => Escapes.Prepend(before, Decode(s, i, n)) == Err(e)
            case Ok(p) =>
              && i + p.used < n && Fresh(s, i + p.used, n)
              && Escapes.Prepend(before, Decode(s, i, n)) == Escapes.Prepend(before + p.out, Decode(s, i + p.used, n))
  {
    hide ScanTo, Fresh, ReadEscape;
    if ReadEscape(s, i).Ok? {
      var p := ReadEscape(s, i).value;
      EscapeStep(s, i, n);
      FreshInside(s, i + p.used, n);
      PrependTwice(before, p.out, Decode(s, i + p.used, n));
    }
  }
}
