/** strtok_r as it works on a buffer: the delimiter that ends a token is overwritten. */
module Strtok {

  import opened Prelude
  import opened CStrings

  /** What a call leaves behind: the token and the rest as strings in the new buffer, and nothing
      changed but the one place in front of the rest. */
  predicate Cut(b: string, from: nat, d: char, b': string, tok: Option<nat>, save: Option<nat>)
    requires from <= |b|
  {
    match NextToken(CStr(b, from), d)
    case None => tok.None? && save.None? && b' == b
    case Some(t) => tok.Some? && from <= tok.value && CutToken(b, t, b', tok.value, save)
  }

  predicate CutToken(b: string, t: Token, b': string, tok: nat, save: Option<nat>) {
    && |b'| == |b| && Terminated(b', tok) && CStr(b', tok) == t.text
    && save.Some? == t.rest.Some?
    && (save.None? ==> b' == b)
    && (save.Some? ==>
      && StrEnd(b', tok) + 1 == save.value && Terminated(b', save.value)
      && CStr(b', save.value) == t.rest.value && b' == b[save.value - 1 := NUL])
  }

  /** A call that may be handed no string at all. */
  predicate Call(b: string, from: Option<nat>, d: char, b': string, tok: Option<nat>, save: Option<nat>) {
    match from
    case None => tok.None? && save.None? && b' == b
    case Some(i) => i <= |b| && Cut(b, i, d, b', tok, save)
  }

  lemma CStrEmpty(b: string, i: nat)
    requires i < |b| && b[i] == NUL
    ensures StrEnd(b, i) == i && CStr(b, i) == []
  {
  }

  /** The buffer after the delimiter at j was overwritten. */
  lemma CutAt(b: string, i: nat, j: nat)
    requires Terminated(b, i) && i <= j < StrEnd(b, i)
    ensures var b' := b[j := NUL];
            && Terminated(b', i) && StrEnd(b', i) == j && CStr(b', i) == CStr(b, i)[..j - i]
            && Terminated(b', j + 1) && CStr(b', j + 1) == CStr(b, i)[j - i + 1..]
  {
    var b', e := b[j := NUL], StrEnd(b, i);
    StrEndFacts(b, i);
    StrEndIs(b', i, j);
    StrEndIs(b', j + 1, e);
    assert b'[i..j] == b[i..j] && b'[j + 1..e] == b[j + 1..e];
  }

  lemma SkipStep(b: string, i: nat, d: char)
    requires Terminated(b, i) && b[i] == d && d != NUL
    ensures Terminated(b, i + 1) && SkipAll(CStr(b, i), d) == SkipAll(CStr(b, i + 1), d)
  {
  }

  lemma SkipDone(b: string, i: nat, d: char)
    requires Terminated(b, i) && b[i] != d
    ensures SkipAll(CStr(b, i), d) == CStr(b, i)
    ensures b[i] == NUL <==> CStr(b, i) == []
  {
  }

  /** The loop that skips delimiters. */
  method Skip(b: array<char>, from: nat, d: char) returns (i: nat)
    requires d != NUL && Terminated(b[..], from)
    ensures from <= i && Terminated(b[..], i) && b[i] != d
    ensures CStr(b[..], i) == SkipAll(CStr(b[..], from), d)
  {
    ghost var s := b[..];
    i := from;
    while b[i] == d
      invariant from <= i && Terminated(s, i)
      invariant SkipAll(CStr(s, i), d) == SkipAll(CStr(s, from), d)
      decreases b.Length - i
    {
      SkipStep(s, i, d);
      i := i + 1;
    }
    SkipDone(s, i, d);
  }

  lemma SpanStep(b: string, j: nat, d: char)
    requires Terminated(b, j) && b[j] != NUL && b[j] != d
    ensures Terminated(b, j + 1) && StrEnd(b, j + 1) == StrEnd(b, j)
    ensures Span(CStr(b, j), d) == 1 + Span(CStr(b, j + 1), d)
  {
  }

  lemma SpanDone(b: string, j: nat, d: char)
    requires Terminated(b, j) && (b[j] == NUL || b[j] == d)
    ensures Span(CStr(b, j), d) == 0 && (b[j] == NUL <==> j == StrEnd(b, j))
  {
  }

  /** The loop that looks for the end of the token. */
  method FindEnd(b: array<char>, i: nat, d: char) returns (j: nat)
    requires Terminated(b[..], i)
    ensures i <= j <= StrEnd(b[..], i) && (b[j] == d || b[j] == NUL) && (b[j] == NUL <==> j == StrEnd(b[..], i))
    ensures j - i == Span(CStr(b[..], i), d)
  {
    ghost var s := b[..];
    j := i;
    while b[j] != d && b[j] != NUL
      invariant i <= j && Terminated(s, j) && StrEnd(s, j) == StrEnd(s, i)
      invariant Span(CStr(s, i), d) == j - i + Span(CStr(s, j), d)
      decreases b.Length - j
    {
      SpanStep(s, j, d);
      j := j + 1;
    }
    SpanDone(s, j, d);
  }

  lemma NextTokenIs(s: string, d: char, t: string, n: nat)
    requires t == SkipAll(s, d) != [] && n == Span(t, d)
    ensures NextToken(s, d) == Some(Token(t[..n], if n == |t| then Option.None else Option.Some(t[n + 1..])))
  {
  }

  /** How the parts make up a call. */
  lemma LastToken(b: string, from: nat, d: char, i: nat)
    requires from <= i && Terminated(b, from) && Terminated(b, i) && CStr(b, i) == SkipAll(CStr(b, from), d) != []
    requires Span(CStr(b, i), d) == StrEnd(b, i) - i
    ensures Cut(b, from, d, b, Some(i), None)
  {
  }

  lemma InnerCut(b: string, i: nat, j: nat, token: Token)
    requires Terminated(b, i) && i <= j < StrEnd(b, i)
    requires token == Token(CStr(b, i)[..j - i], Option.Some(CStr(b, i)[j - i + 1..]))
    ensures CutToken(b, token, b[j := NUL], i, Some(j + 1)) && Terminated(b[j := NUL], j + 1)
  {
    CutAt(b, i, j);
  }

  lemma CutIs(b: string, from: nat, d: char, t: Token, b': string, tok: nat, save: Option<nat>)
    requires from <= tok && from <= |b| && NextToken(CStr(b, from), d) == Some(t) && CutToken(b, t, b', tok, save)
    ensures Cut(b, from, d, b', Some(tok), save)
  {
  }

  lemma InnerToken(b: string, from: nat, d: char, i: nat, j: nat, s: string, t: string)
    requires from <= i && Terminated(b, i) && s == CStr(b, from) && t == CStr(b, i)
    requires t == SkipAll(s, d) != [] && i <= j < StrEnd(b, i) && j - i == Span(t, d)
    ensures Cut(b, from, d, b[j := NUL], Some(i), Some(j + 1)) && Terminated(b[j := NUL], j + 1)
  {
    var token := Token(t[..j - i], Option.Some(t[j - i + 1..]));
    NextTokenIs(s, d, t, j - i);
    InnerCut(b, i, j, token);
    CutIs(b, from, d, token, b[j := NUL], i, Some(j + 1));
  }

  method Overwrite(b: array<char>, j: nat)
    requires j < b.Length
    modifies b
    ensures b[..] == old(b[..])[j := NUL]
  {
    b[j] := NUL;
  }

  method StrtokR(b: array<char>, from: Option<nat>, d: char) returns (tok: Option<nat>, save: Option<nat>)
    requires d != NUL && (from.Some? ==> Terminated(b[..], from.value))
    modifies b
    ensures Call(old(b[..]), from, d, b[..], tok, save)
    ensures save.Some? ==> Terminated(b[..], save.value)
  {
    if from.None? {
      return None, None;
    }
    ghost var s := b[..];
    var i := Skip(b, from.value, d);
    if b[i] == NUL {
      CStrEmpty(s, i);
      return None, None;
    }
    SkipDone(s, i, d);
    var j := FindEnd(b, i, d);
    if b[j] == NUL {
      LastToken(s, from.value, d, i);
      return Some(i), None;
    }
    InnerToken(s, from.value, d, i, j, CStr(s, from.value), CStr(s, i));
    Overwrite(b, j);
    return Some(i), Some(j + 1);
  }
}
