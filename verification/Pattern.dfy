/** Matching a name against a pattern with wildcards. */
module Pattern {
  import opened Volume

  const QUESTION: byte := 0x3F
  const ASTERISK: byte := 0x2A

  predicate IsWild(c: byte) {
    c == QUESTION || c == ASTERISK
  }

  /** The first byte of a two-byte character of code page 932. */
  predicate DbcLead(c: byte) {
    0x81 <= c <= 0x9F || 0xE0 <= c <= 0xFC
  }

  /** A string of single-byte characters, without its terminator. */
  predicate Text(s: seq<byte>) {
    forall i | 0 <= i < |s| :: s[i] != 0 && !DbcLead(s[i])
  }

  /** A character in upper case. */
  function Upper(c: byte): byte {
    if 0x61 <= c <= 0x7A then c - 0x20 else c
  }

  /** The letters, one by one; no other character changes. */
  lemma UpperLetters(i: nat, c: byte)
    requires i < 26
    ensures "abcdefghijklmnopqrstuvwxyz"[i] as int < 128
    ensures Upper("abcdefghijklmnopqrstuvwxyz"[i] as int) == "ABCDEFGHIJKLMNOPQRSTUVWXYZ"[i] as int
    ensures Upper(c) != c ==> c as char in "abcdefghijklmnopqrstuvwxyz"
  {
    if Upper(c) != c { assert "abcdefghijklmnopqrstuvwxyz"[c - 0x61] as int == c; }
  }

  /** The character at `i`, or the terminator. */
  function CharAt(s: seq<byte>, i: nat): byte {
    if i < |s| then s[i] else 0
  }

  /** The name `n` is matched by the pattern `p`: `?` stands for any one character, `*` for any number of them, anything
      else for itself in either case. */
  ghost predicate Match(p: seq<byte>, n: seq<byte>)
    decreases |p|
  {
    if p == [] then n == []
    else if p[0] == QUESTION then n != [] && Match(p[1..], n[1..])
    else if p[0] == ASTERISK then exists k: nat :: k <= |n| && Match(p[1..], n[k..])
    else n != [] && Upper(p[0]) == Upper(n[0]) && Match(p[1..], n[1..])
  }

  /** What is left of the name after at least (`inf`) or exactly `skip` characters is matched. */
  ghost predicate MatchAfter(p: seq<byte>, n: seq<byte>, skip: nat, inf: bool) {
    skip <= |n| && if inf then exists k: nat :: skip <= k <= |n| && Match(p, n[k..]) else Match(p, n[skip..])
  }

  lemma TakeQuestion(p: seq<byte>, n: seq<byte>, skip: nat, inf: bool)
    requires p != [] && p[0] == QUESTION
    ensures MatchAfter(p, n, skip, inf) <==> MatchAfter(p[1..], n, skip + 1, inf)
  {
    forall k: nat | k <= |n|
      ensures Match(p, n[k..]) <==> k < |n| && Match(p[1..], n[k + 1..])
    {
      if k < |n| { assert n[k..][1..] == n[k + 1..]; }
    }
    if inf {
      if MatchAfter(p, n, skip, inf) {
        var k: nat :| skip <= k <= |n| && Match(p, n[k..]);
        assert Match(p[1..], n[k + 1..]);
      }
      if MatchAfter(p[1..], n, skip + 1, inf) {
        var k: nat :| skip + 1 <= k <= |n| && Match(p[1..], n[k..]);
        assert Match(p, n[k - 1..]);
      }
    }
  }

  lemma AsteriskMeans(p: seq<byte>, m: seq<byte>) returns (l: nat)
    requires p != [] && p[0] == ASTERISK && Match(p, m)
    ensures l <= |m| && Match(p[1..], m[l..])
  {
    l :| l <= |m| && Match(p[1..], m[l..]);
  }

  lemma TakeAsterisk(p: seq<byte>, n: seq<byte>, skip: nat, inf: bool)
    requires p != [] && p[0] == ASTERISK
    ensures MatchAfter(p, n, skip, inf) <==> MatchAfter(p[1..], n, skip, true)
  {
    if MatchAfter(p, n, skip, inf) {
      var k: nat :| skip <= k <= |n| && Match(p, n[k..]);
      var l := AsteriskMeans(p, n[k..]);
      assert n[k..][l..] == n[k + l..];
    }
    if MatchAfter(p[1..], n, skip, true) {
      var k: nat :| skip <= k <= |n| && Match(p[1..], n[k..]);
      assert n[skip..][k - skip..] == n[k..];
      assert Match(p, n[skip..]);
    }
  }

  /** The first `j` characters of the pattern are no wildcards and agree with the name. */
  ghost predicate Literal(p: seq<byte>, n: seq<byte>, j: nat) {
    && j <= |p| && j <= |n|
    && forall i: nat | i < j :: !IsWild(p[i]) && Upper(p[i]) == Upper(n[i])
  }

  lemma {:induction false} AfterLiteral(p: seq<byte>, n: seq<byte>, j: nat)
    requires Literal(p, n, j)
    ensures Match(p, n) <==> Match(p[j..], n[j..])
  {
    if j > 0 {
      AfterLiteral(p[1..], n[1..], j - 1);
      assert p[1..][j - 1..] == p[j..] && n[1..][j - 1..] == n[j..];
    } else {
      assert p[0..] == p && n[0..] == n;
    }
  }

  /** Characters that are no wildcards need as many in the name. */
  lemma {:induction false} LiteralNeeds(p: seq<byte>, n: seq<byte>, j: nat)
    requires j <= |p| && (forall i: nat | i < j :: !IsWild(p[i])) && Match(p, n)
    ensures |n| >= j
  {
    if j > 0 { LiteralNeeds(p[1..], n[1..], j - 1); }
  }

  lemma NoneLeft(pat: seq<byte>, nam: seq<byte>, skip: nat, b: nat)
    requires skip <= b <= |nam| && !Match(pat, nam[b..])
    requires forall k: nat | skip <= k < b :: !Match(pat, nam[k..])
    requires forall k: nat | b < k <= |nam| :: !Match(pat, nam[k..])
    ensures !MatchAfter(pat, nam, skip, true)
  {
  }

  lemma TailsOfTail(pat: seq<byte>, nam: seq<byte>, b: nat)
    requires b <= |nam| && forall k: nat | 0 < k <= |nam[b..]| :: !Match(pat, nam[b..][k..])
    ensures forall k: nat | b < k <= |nam| :: !Match(pat, nam[k..])
  {
    forall k: nat | b < k <= |nam|
      ensures !Match(pat, nam[k..])
    {
      assert nam[b..][k - b..] == nam[k..];
    }
  }

  lemma NoneShorter(pat: seq<byte>, nam: seq<byte>, j: nat)
    requires Literal(pat, nam, j) && j == |nam|
    ensures forall k: nat | 0 < k <= |nam| :: !Match(pat, nam[k..])
  {
    forall k: nat | 0 < k <= |nam|
      ensures !Match(pat, nam[k..])
    {
      if Match(pat, nam[k..]) { LiteralNeeds(pat, nam[k..], j); }
    }
  }

  /** One round of the search: whether the name is matched from its start on. If it is not, `nc` is the character of
      the name that was looked at last; at the end of the name, no shorter rest of it is matched either. */
  method MatchHere(pat: seq<byte>, nam: seq<byte>) returns (ok: bool, nc: byte)
    requires Text(pat) && Text(nam)
    ensures ok <==> Match(pat, nam)
    ensures !ok && nc == 0 ==> forall k: nat | 0 < k <= |nam| :: !Match(pat, nam[k..])
    ensures !ok && nam == [] ==> nc == 0
    decreases |pat|, 1
  {
    var j := 0;
    while true
      invariant Literal(pat, nam, j)
      decreases |pat| - j
    {
      AfterLiteral(pat, nam, j);
      if j < |pat| && IsWild(pat[j]) {
        ok := MatchWild(pat, nam, j);
        nc := CharAt(nam, j);
        if !ok && nc == 0 { NoneShorter(pat, nam, j); }
        return;
      }
      var pc := Upper(CharAt(pat, j));
      nc := Upper(CharAt(nam, j));
      if pc != nc {
        if nc == 0 { NoneShorter(pat, nam, j); }
        return false, nc;
      }
      if pc == 0 { return true, nc; }
      j := j + 1;
    }
  }

  /** The loop of `PatternMatching`: looks for a match from `skip` on. */
  method Search(pat: seq<byte>, nam: seq<byte>, skip: nat, inf: bool) returns (ok: bool)
    requires Text(pat) && Text(nam) && skip <= |nam|
    ensures ok <==> MatchAfter(pat, nam, skip, inf)
    decreases |pat|, 2
  {
    var b := skip;
    while true
      invariant skip <= b <= |nam| && (!inf ==> b == skip)
      invariant forall k: nat | skip <= k < b :: !Match(pat, nam[k..])
      decreases |nam| - b
    {
      var nc;
      ok, nc := MatchHere(pat, nam[b..]);
      if ok { return true; }
      if !inf { return false; }
      if nc == 0 {
        TailsOfTail(pat, nam, b);
        NoneLeft(pat, nam, skip, b);
        return false;
      }
      b := b + 1;
    }
  }

  /** Whether `nam`, after at least or exactly `skip` characters, is matched by `pat`. */
  method PatternMatching(pat: seq<byte>, nam: seq<byte>, skip: nat, inf: bool) returns (ok: bool)
    requires Text(pat) && Text(nam)
    ensures ok <==> MatchAfter(pat, nam, skip, inf)
    decreases |pat|, 3
  {
    var b, left := 0, skip;
    while left > 0
      invariant 0 <= b <= |nam| && b + left == skip
      decreases left
    {
      left := left - 1;
      if Upper(CharAt(nam, b)) == 0 { return false; }
      b := b + 1;
    }
    if pat == [] && inf {
      assert Match(pat, nam[|nam|..]);
      return true;
    }
    ok := Search(pat, nam, b, inf);
  }

  /** The wildcards at `j`, taken together, and what follows them. */
  method MatchWild(pat: seq<byte>, nam: seq<byte>, j: nat) returns (ok: bool)
    requires Text(pat) && Text(nam) && j < |pat| && IsWild(pat[j]) && j <= |nam|
    ensures ok <==> Match(pat[j..], nam[j..])
    decreases |pat|, 0
  {
    var pp, nm, nx := j, 0, false;
    ghost var n := nam[j..];
    assert n[0..] == n;
    while true
      invariant j <= pp < |pat| && IsWild(pat[pp])
      invariant MatchAfter(pat[pp..], n, nm, nx) <==> Match(pat[j..], n)
      decreases |pat| - pp
    {
      assert pat[pp..][1..] == pat[pp + 1..];
      if pat[pp] == QUESTION {
        TakeQuestion(pat[pp..], n, nm, nx);
        nm := nm + 1;
      } else {
        TakeAsterisk(pat[pp..], n, nm, nx);
        nx := true;
      }
      pp := pp + 1;
      if !(pp < |pat| && IsWild(pat[pp])) { break; }
    }
    ok := PatternMatching(pat[pp..], nam[j..], nm, nx);
  }
}
