/** `strtok`: cutting a string into tokens in place, across calls. */
module Strtok {

  const NUL: char := '\0'

  // ---------------------------------------------------------------- what the tokens are

  /** `s` without its leading delimiters. */
  function Skip(s: string, delim: char): (r: string)
    ensures |r| <= |s| && (r != "" ==> r[0] != delim)
  {
    if s != "" && s[0] == delim then Skip(s[1..], delim) else s
  }

  /** Length of the longest prefix of `s` without a delimiter. */
  function Span(s: string, delim: char): (n: nat)
    ensures n <= |s| && delim !in s[..n] && (n < |s| ==> s[n] == delim)
  {
    if s == "" || s[0] == delim then 0 else 1 + Span(s[1..], delim)
  }

  /** What follows the first token and the delimiter that ends it. */
  function Rest(s: string, delim: char): string {
    var n := Span(s, delim);
    if n < |s| then s[n + 1..] else ""
  }

  function Tokens(s: string, delim: char): seq<string>
    decreases |s|
  {
    var t := Skip(s, delim);
    if t == "" then [] else [t[..Span(t, delim)]] + Tokens(Rest(t, delim), delim)
  }

  /** The pieces of `s` between delimiters, empty ones included. */
  function Fields(s: string, delim: char): seq<string> {
    var n := Span(s, delim);
    if n == |s| then [s] else [s[..n]] + Fields(s[n + 1..], delim)
  }

  function NonEmpty(fs: seq<string>): seq<string> {
    if fs == [] then [] else (if fs[0] == "" then [] else [fs[0]]) + NonEmpty(fs[1..])
  }

  /** The tokens are exactly the non-empty pieces, in order. */
  lemma {:induction false} TokensAreFields(s: string, delim: char)
    ensures Tokens(s, delim) == NonEmpty(Fields(s, delim))
    decreases |s|
  {
    if s == "" {
      assert Fields(s, delim) == [""];
      assert NonEmpty([""]) == NonEmpty([]);
    } else if s[0] == delim {
      assert Skip(s, delim) == Skip(s[1..], delim);
      assert s[0 + 1..] == s[1..] && s[..0] == "";
      assert Fields(s, delim) == [""] + Fields(s[1..], delim);
      assert ([""] + Fields(s[1..], delim))[1..] == Fields(s[1..], delim);
      assert Tokens(s, delim) == Tokens(s[1..], delim);
      TokensAreFields(s[1..], delim);
    } else {
      var n := Span(s, delim);
      assert n > 0 && Skip(s, delim) == s;
      if n == |s| {
        assert s[..n] == s && Fields(s, delim) == [s] && Tokens("", delim) == [];
        assert NonEmpty([s]) == [s] + NonEmpty([]);
      } else {
        TokensAreFields(s[n + 1..], delim);
        assert Fields(s, delim) == [s[..n]] + Fields(s[n + 1..], delim);
        assert ([s[..n]] + Fields(s[n + 1..], delim))[1..] == Fields(s[n + 1..], delim);
      }
    }
  }

  lemma {:induction false} NonEmptyConcat(a: seq<string>, b: seq<string>)
    ensures NonEmpty(a + b) == NonEmpty(a) + NonEmpty(b)
  {
    if a == [] {
      assert a + b == b;
    } else {
      assert (a + b)[0] == a[0] && (a + b)[1..] == a[1..] + b;
      NonEmptyConcat(a[1..], b);
    }
  }

  lemma {:induction false} FieldsConcat(a: string, b: string, delim: char)
    requires delim !in b
    ensures Fields(a + [delim] + b, delim) == Fields(a, delim) + [b]
  {
    hide Fields;
    var s := a + [delim] + b;
    var n := Span(a, delim);
    SpanIs(s, delim, n);
    Pieces(a, b, delim, n);
    FieldsStep(s, delim, n);
    FieldsStep(a, delim, n);
    if n < |a| {
      FieldsConcat(a[n + 1..], b, delim);
      Regroup([a[..n]], Fields(a[n + 1..], delim), [b]);
    } else {
      SpanIs(b, delim, |b|);
      FieldsStep(b, delim, |b|);
    }
  }

  lemma {:induction false} FieldsStep(s: string, delim: char, n: nat)
    requires n == Span(s, delim)
    ensures Fields(s, delim) == if n == |s| then [s] else [s[..n]] + Fields(s[n + 1..], delim)
  {}

  lemma {:induction false} Pieces(a: string, b: string, delim: char, n: nat)
    requires n <= |a|
    ensures var s := a + [delim] + b;
            && s[..n] == a[..n]
            && (n < |a| ==> s[n + 1..] == a[n + 1..] + [delim] + b)
            && (n == |a| ==> s[n + 1..] == b && a[..n] == a)
  {}

  lemma {:induction false} Regroup(a: seq<string>, b: seq<string>, c: seq<string>)
    ensures a + (b + c) == a + b + c
  {}

  /** Cutting at a delimiter that is the last one. */
  lemma {:induction false} TokensSplit(a: string, b: string, delim: char)
    requires delim !in b
    ensures Tokens(a + [delim] + b, delim) == Tokens(a, delim) + if b == "" then [] else [b]
  {
    FieldsConcat(a, b, delim);
    NonEmptyConcat(Fields(a, delim), [b]);
    TokensAreFields(a, delim);
    TokensAreFields(a + [delim] + b, delim);
    assert [b][1..] == [];
  }

  // ---------------------------------------------------------------- in place

  /** `token` is the C string at `p`. */
  ghost predicate StringAt(c: string, p: nat, token: string) {
    p + |token| < |c| && c[p..p + |token|] == token && c[p + |token|] == NUL
  }

  /** What overwriting the delimiter behind the token at `p` makes of the buffer. */
  lemma {:induction false} CutAt(c: string, c': string, p: nat, n: nat, ptr: nat, end: nat, delim: char)
    requires p < end < |c| && c[end] == NUL && (forall i :: p <= i < end ==> c[i] != NUL) && c[p] != delim
    requires p + n <= end && n == Span(c[p..end], delim)
    requires if c[p + n] != NUL then c' == c[p + n := NUL] && ptr == p + n + 1 else c' == c && ptr == p + n
    ensures 0 < n <= end - p && ptr <= end && c'[ptr..end] == Rest(c[p..end], delim)
    ensures StringAt(c', p, c[p..end][..n]) && NUL !in c[p..end][..n] && (p + n < ptr || ptr == end)
    ensures c[p + n] != NUL ==> c[p + n] == delim
  {
    var t := c[p..end];
    assert t[0] == c[p];
    assert c'[p..p + n] == c[p..p + n] == t[..n];
    assert n < |t| ==> t[n] == c[p + n] && c'[ptr..end] == t[n + 1..];
  }

  /** Tokens found so far are intact and lie before the place to go on from. */
  ghost predicate KeptIn(c: string, ptr: nat, end: nat, tokens: seq<string>, at: seq<nat>) {
    |at| == |tokens| && forall k :: 0 <= k < |at| ==>
      StringAt(c, at[k], tokens[k]) && (at[k] + |tokens[k]| < ptr || ptr == end)
  }

  lemma {:induction false} StringKept(c: string, c': string, p: nat, token: string, from: nat)
    requires |c'| == |c| && StringAt(c, p, token) && p + |token| < from
    requires forall i :: 0 <= i < |c| && c'[i] != c[i] ==> i >= from
    ensures StringAt(c', p, token)
  {
    assert c'[p..p + |token|] == c[p..p + |token|];
  }

  lemma {:induction false} KeptStep(c: string, c': string, ptr: nat, ptr': nat, end: nat, tokens: seq<string>,
                                    at: seq<nat>, p: nat, token: string)
    requires KeptIn(c, ptr, end, tokens, at) && |c'| == |c| && ptr < end && ptr <= ptr'
    requires forall i :: 0 <= i < |c| && c'[i] != c[i] ==> i >= ptr
    requires StringAt(c', p, token) && (p + |token| < ptr' || ptr' == end)
    ensures KeptIn(c', ptr', end, tokens + [token], at + [p])
  {
    forall k | 0 <= k < |at|
      ensures StringAt(c', at[k], tokens[k])
    {
      StringKept(c, c', at[k], tokens[k], ptr);
    }
  }

  /** Only delimiters have been overwritten. */
  ghost predicate OnlyCut(c: string, c': string, delim: char) {
    |c'| == |c| && forall i :: 0 <= i < |c| && c'[i] != c[i] ==> c[i] == delim
  }

  lemma {:induction false} CutTwice(c: string, c1: string, c2: string, delim: char)
    requires OnlyCut(c, c1, delim) && OnlyCut(c1, c2, delim)
    ensures OnlyCut(c, c2, delim)
  {}

  /** The static state of the tokenizer: where in which buffer to go on. */
  class Tokenizer {
    var buf: array<char>
    var ptr: nat
    // Where the string ends.
    ghost var end: nat

    constructor (s: string)
      requires NUL !in s
      ensures Valid() && ptr == 0 && Left() == s && fresh(buf)
    {
      buf := new char[|s| + 1](i => if 0 <= i < |s| then s[i] else NUL);
      ptr, end := 0, |s|;
    }

    ghost predicate Valid()
      reads this, buf
    {
      ptr <= end < buf.Length && buf[end] == NUL && forall i :: ptr <= i < end ==> buf[i] != NUL
    }

    /** The part of the string not cut yet. */
    ghost function Left(): string
      requires Valid()
      reads this, buf
    {
      buf[ptr..end]
    }

    ghost predicate Holds(p: nat, token: string)
      reads this, buf
    {
      StringAt(buf[..], p, token)
    }

    method SkipDelims(delim: char)
      requires Valid() && delim != NUL
      modifies `ptr
      ensures Valid() && old(ptr) <= ptr && Left() == Skip(old(Left()), delim)
    {
      ghost var s := Left();
      ghost var i := 0;
      while buf[ptr] == delim
        invariant ptr == old(ptr) + i && ptr <= end
        invariant Skip(s, delim) == Skip(s[i..], delim)
        decreases end - ptr
      {
        assert s[i..][1..] == s[i + 1..];
        ptr := ptr + 1;
        i := i + 1;
      }
      assert Left() == s[i..];
    }

    /** Cuts off the token that starts here. */
    method CutToken(delim: char) returns (p: nat)
      requires Valid() && delim != NUL && Left() != "" && Left()[0] != delim
      modifies `ptr, buf
      ensures Valid() && p == old(ptr)
      ensures var n := Span(old(Left()), delim);
              && n > 0 && Holds(p, old(Left())[..n]) && Left() == Rest(old(Left()), delim)
              && p + n <= end && (p + n < ptr || ptr == end) && NUL !in old(Left())[..n]
              && forall i :: 0 <= i < buf.Length && buf[i] != old(buf[i]) ==> i == p + n && old(buf[i]) == delim
    {
      hide Span, Rest, StringAt, Skip, Tokens, Fields;
      p := ptr;
      ghost var c := buf[..];
      assert c[p..end] == Left();
      FindDelim(delim);
      ghost var n := ptr - p;
      if buf[ptr] != NUL {
        buf[ptr] := NUL;
        ptr := ptr + 1;
        assert buf[..] == c[p + n := NUL];
      }
      CutAt(c, buf[..], p, n, ptr, end, delim);
      assert buf[..][ptr..end] == Left();
    }

    method FindDelim(delim: char)
      requires Valid() && delim != NUL
      modifies `ptr
      ensures ptr == old(ptr) + Span(old(Left()), delim)
    {
      ghost var t := Left();
      ghost var n := 0;
      while buf[ptr] != delim && buf[ptr] != NUL
        invariant ptr == old(ptr) + n && ptr <= end
        invariant forall i :: 0 <= i < n ==> t[i] != delim
        decreases end - ptr
      {
        ptr := ptr + 1;
        n := n + 1;
      }
      SpanIs(t, delim, n);
    }

    /** The next token, or -1.  Only the delimiter behind the token is overwritten. */
    method Next(delim: char) returns (p: int)
      requires Valid() && delim != NUL
      modifies `ptr, buf
      ensures Valid() && old(ptr) <= ptr
      ensures Tokens(old(Left()), delim) == [] ==> p == -1 && buf[..] == old(buf[..]) && Left() == ""
      ensures Tokens(old(Left()), delim) != [] ==>
                var token := Tokens(old(Left()), delim)[0];
                && old(ptr) <= p && p + |token| <= end && Holds(p, token) && token != "" && NUL !in token
                && (p + |token| < ptr || ptr == end)
                && Tokens(Left(), delim) == Tokens(old(Left()), delim)[1..]
                && forall i :: 0 <= i < buf.Length && buf[i] != old(buf[i]) ==> i == p + |token| && old(buf[i]) == delim
    {
      SkipDelims(delim);
      if buf[ptr] == NUL {
        return -1;
      }
      assert Left()[0] == buf[ptr];
      p := CutToken(delim);
    }

    /** The C string at `p`, copied out. */
    method TextAt(p: nat, ghost token: string) returns (text: string)
      requires Holds(p, token) && NUL !in token
      ensures text == token
    {
      var q := p;
      while buf[q] != NUL
        invariant p <= q <= p + |token|
        decreases p + |token| - q
      {
        assert q < p + |token|;
        q := q + 1;
      }
      text := buf[p..q];
    }

    /** One call, and the token it returns copied out. */
    method One(delim: char, ghost tokens: seq<string>, ghost at: seq<nat>)
      returns (found: bool, text: string, ghost p: nat)
      requires Valid() && delim != NUL && KeptIn(buf[..], ptr, end, tokens, at)
      modifies `ptr, buf
      ensures Valid() && (found <==> Tokens(old(Left()), delim) != [])
      ensures !found ==> buf[..] == old(buf[..]) && Left() == ""
      ensures found ==> Tokens(old(Left()), delim) == [text] + Tokens(Left(), delim)
      ensures if found then KeptIn(buf[..], ptr, end, tokens + [text], at + [p])
                else KeptIn(buf[..], ptr, end, tokens, at)
      ensures buf == old(buf) && OnlyCut(old(buf[..]), buf[..], delim)
    {
      ghost var left, c, was := Tokens(Left(), delim), buf[..], ptr;
      var q := Next(delim);
      if q == -1 {
        KeptLater(c, was, ptr, end, tokens, at);
        return false, "", 0;
      }
      KeptStep(c, buf[..], was, ptr, end, tokens, at, q, left[0]);
      text := TextAt(q, left[0]);
      found, p := true, q;
    }

    /** Calling until there are no more tokens gives all of them, in order, and the ones
        found first are still in place at the end. */
    method All(delim: char) returns (tokens: seq<string>, ghost at: seq<nat>)
      requires Valid() && delim != NUL
      modifies `ptr, buf
      ensures Valid() && tokens == Tokens(old(Left()), delim)
      ensures |at| == |tokens| && forall k :: 0 <= k < |at| ==> Holds(at[k], tokens[k])
      ensures buf == old(buf) && OnlyCut(old(buf[..]), buf[..], delim)
    {
      tokens, at := [], [];
      ghost var c := buf[..];
      ghost var all := Tokens(Left(), delim);
      var more := true;
      while more
        invariant Valid() && KeptIn(buf[..], ptr, end, tokens, at)
        invariant all == tokens + Tokens(Left(), delim)
        invariant !more ==> Tokens(Left(), delim) == []
        invariant buf == old(buf) && OnlyCut(c, buf[..], delim)
        decreases |all| - |tokens|, more
      {
        var text;
        ghost var p;
        ghost var c1, left := buf[..], Tokens(Left(), delim);
        more, text, p := One(delim, tokens, at);
        CutTwice(c, c1, buf[..], delim);
        if more {
          TakeOver(tokens, left, text, Tokens(Left(), delim));
          tokens, at := tokens + [text], at + [p];
        }
      }
    }
  }

  /** The tokens of a copy of `s`. */
  method Cut(s: string, delim: char) returns (tokens: seq<string>)
    requires NUL !in s && delim != NUL
    ensures tokens == Tokens(s, delim)
  {
    var tokenizer := new Tokenizer(s);
    ghost var at;
    tokens, at := tokenizer.All(delim);
  }

  lemma {:induction false} TakeOver(tokens: seq<string>, left: seq<string>, text: string, rest: seq<string>)
    requires left == [text] + rest
    ensures tokens + left == tokens + [text] + rest
  {}

  lemma {:induction false} KeptLater(c: string, ptr: nat, ptr': nat, end: nat, tokens: seq<string>, at: seq<nat>)
    requires KeptIn(c, ptr, end, tokens, at) && ptr <= ptr' <= end
    ensures KeptIn(c, ptr', end, tokens, at)
  {}

  lemma {:induction false} SpanIs(t: string, delim: char, n: nat)
    requires n <= |t| && (forall i :: 0 <= i < n ==> t[i] != delim) && (n < |t| ==> t[n] == delim)
    ensures Span(t, delim) == n
  {
    if n > 0 {
      SpanIs(t[1..], delim, n - 1);
    }
  }
}
