/** The clean-up of one object-head or function-head attribute of the voucher
    compilation sheet: the first bracketed numeric code is written without
    inner blanks and joined to the text before it (the regular expression
    `\s*\[\s*(\d+)\s*\]` replaced by `[$1]`), the result is trimmed, and a
    head is kept only when it is non-empty and names none of the generic
    accounting terms. */
module Heads {
  import opened Wrappers
  import opened Text

  /** The alternatives of the generic-term pattern, which is matched
      case-insensitively against the upper-cased head. */
  const GenericTerms: seq<string> :=
    ["ELECTRONIC ADVICES", "SUSPENSE", "CHEQUES", "DEFAULT", "DEDUCTIONS",
     "CONTRIBUTIONS", "GST", "PUBLIC ACCOUNT", "OTHERS"]

  predicate IsGeneric(h: string) {
    exists k :: 0 <= k < |GenericTerms| && Contains(ToUpper(h), GenericTerms[k])
  }

  /** One match of the bracket pattern: blanks from `start`, `[` at `open`,
      blanks, the digits `digitsFrom..digitsTo`, blanks, `]` at `close`. */
  datatype BracketMatch = BracketMatch(start: nat, open: nat, digitsFrom: nat, digitsTo: nat, close: nat)

  predicate MatchShape(s: string, m: BracketMatch) {
    && m.start <= m.open < m.digitsFrom < m.digitsTo <= m.close < |s|
    && (forall k :: m.start <= k < m.open ==> IsSpace(s[k]))
    && s[m.open] == '['
    && (forall k :: m.open < k < m.digitsFrom ==> IsSpace(s[k]))
    && (forall k :: m.digitsFrom <= k < m.digitsTo ==> IsDigit(s[k]))
    && (forall k :: m.digitsTo <= k < m.close ==> IsSpace(s[k]))
    && s[m.close] == ']'
  }

  /** The match of the pattern that starts at `p`, if any. Every `\s*` and
      the `\d+` take as much as they can: giving any back cannot produce a
      match, since a blank is neither `[`, a digit nor `]`. */
  function MatchAt(s: string, p: nat): (r: Option<BracketMatch>)
    requires p <= |s|
    ensures r.Some? ==> r.value.start == p && r.value.close < |s|
  {
    var q := SkipSpaces(s, p);
    if q == |s| || s[q] != '[' then None
    else
      var df := SkipSpaces(s, q + 1);
      var dt := SkipDigits(s, df);
      if dt == df then None
      else
        var c := SkipSpaces(s, dt);
        if c == |s| || s[c] != ']' then None
        else Some(BracketMatch(p, q, df, dt, c))
  }

  /** A match found at `p` starts at `p` and has the shape of the pattern. */
  lemma MatchAtShape(s: string, p: nat)
    requires p <= |s| && MatchAt(s, p).Some?
    ensures MatchAt(s, p).value.start == p && MatchShape(s, MatchAt(s, p).value)
  {
    var m := MatchAt(s, p).value;
    SkipSpacesSkipsBlanks(s, p);
    SkipSpacesSkipsBlanks(s, m.open + 1);
    SkipDigitsSkipsDigits(s, m.digitsFrom);
    SkipSpacesSkipsBlanks(s, m.digitsTo);
  }

  /** The leftmost match at or after `p`. */
  function FirstMatch(s: string, p: nat): (r: Option<BracketMatch>)
    requires p <= |s|
    ensures r.Some? ==> p <= r.value.start <= |s|
    ensures r.Some? ==> MatchAt(s, r.value.start) == r
    decreases |s| - p
  {
    if MatchAt(s, p).Some? then MatchAt(s, p)
    else if p == |s| then None
    else FirstMatch(s, p + 1)
  }

  /** The match found is the leftmost one: there is none before it. */
  lemma {:induction false} FirstMatchLeftmost(s: string, p: nat)
    requires p <= |s| && FirstMatch(s, p).Some?
    ensures forall i :: p <= i < FirstMatch(s, p).value.start ==> MatchAt(s, i).None?
    decreases |s| - p
  {
    if MatchAt(s, p).None? {
      FirstMatchLeftmost(s, p + 1);
    }
  }

  /** Nothing is found only when there is no match at all. */
  lemma {:induction false} FirstMatchNone(s: string, p: nat)
    requires p <= |s| && FirstMatch(s, p).None?
    ensures forall i :: p <= i <= |s| ==> MatchAt(s, i).None?
    decreases |s| - p
  {
    if p < |s| {
      FirstMatchNone(s, p + 1);
    }
  }

  /** `s.replace(/\s*\[\s*(\d+)\s*\]/, '[$1]')`: only the leftmost match is
      rewritten. */
  function Canonicalize(s: string): string {
    match FirstMatch(s, 0)
    case None => s
    case Some(m) => Rewrite(s, m)
  }

  /** A head without `[` is left as it is. */
  lemma CanonicalizeWithoutBracket(s: string)
    requires '[' !in s
    ensures Canonicalize(s) == s
  {
    match FirstMatch(s, 0)
    case None =>
    case Some(m) =>
      MatchAtShape(s, m.start);
  }

  /** A stretch of text with the shape of the pattern is the match found
      where it starts: the shape leaves each `\s*` and the `\d+` no other
      extent. */
  lemma MatchAtOfShape(s: string, m: BracketMatch)
    requires MatchShape(s, m)
    ensures m.start <= |s| && MatchAt(s, m.start) == Some(m)
  {
    SkipSpacesTo(s, m.start, m.open);
    SkipSpacesTo(s, m.open + 1, m.digitsFrom);
    SkipDigitsTo(s, m.digitsFrom, m.digitsTo);
    SkipSpacesTo(s, m.digitsTo, m.close);
  }

  /** A match depends only on the text up to its closing bracket. */
  lemma MatchAtPrefix(x: string, y: string, i: nat)
    requires i <= |x| && MatchAt(x, i).Some?
    requires MatchAt(x, i).value.close < |y|
    requires x[..MatchAt(x, i).value.close + 1] == y[..MatchAt(x, i).value.close + 1]
    ensures i <= |y| && MatchAt(y, i) == MatchAt(x, i)
  {
    var m := MatchAt(x, i).value;
    MatchAtShape(x, i);
    assert forall k :: 0 <= k <= m.close ==> x[k] == y[..m.close + 1][k] == y[k];
    assert MatchShape(y, m);
    MatchAtOfShape(y, m);
  }

  /** The leftmost match is at `a` when there is one at `a` and none before. */
  lemma FirstMatchAt(s: string, a: nat)
    requires a <= |s| && MatchAt(s, a).Some?
    requires forall i :: 0 <= i < a ==> MatchAt(s, i).None?
    ensures FirstMatch(s, 0) == MatchAt(s, a)
  {
    if FirstMatch(s, 0).Some? {
      FirstMatchLeftmost(s, 0);
    } else {
      FirstMatchNone(s, 0);
    }
  }

  /** The head with the leftmost code rewritten. */
  function Rewrite(s: string, m: BracketMatch): string
    requires m.start <= m.digitsFrom <= m.digitsTo <= m.close < |s|
  {
    s[..m.start] + "[" + s[m.digitsFrom..m.digitsTo] + "]" + s[m.close + 1..]
  }

  /** The match that the rewritten code `[digits]` forms at `m.start`. */
  function Tight(m: BracketMatch): BracketMatch
    requires m.digitsFrom <= m.digitsTo
  {
    var n := m.digitsTo - m.digitsFrom;
    BracketMatch(m.start, m.start, m.start + 1, m.start + 1 + n, m.start + 1 + n)
  }

  /** `t` agrees with `s` before the match `m`, then holds `[`, the digits of
      `m` and `]`. */
  predicate RewrittenFrom(t: string, s: string, m: BracketMatch) {
    var n := m.digitsTo - m.digitsFrom;
    && MatchShape(s, m)
    && m.start + 2 + n <= |t|
    && (forall k :: 0 <= k < m.start ==> t[k] == s[k])
    && t[m.start] == '['
    && (forall k :: m.start + 1 <= k < m.start + 1 + n ==> IsDigit(t[k]))
    && t[m.start + 1 + n] == ']'
  }

  /** Where the pieces of a rewritten head sit. */
  lemma Pieces(pre: string, d: string, post: string)
    ensures var t := pre + "[" + d + "]" + post;
      && |t| == |pre| + 2 + |d| + |post|
      && (forall k :: 0 <= k < |pre| ==> t[k] == pre[k])
      && t[|pre|] == '['
      && (forall k :: |pre| + 1 <= k < |pre| + 1 + |d| ==> t[k] == d[k - |pre| - 1])
      && t[|pre| + 1 + |d|] == ']'
  {
  }

  lemma RewriteIsRewrittenFrom(s: string, m: BracketMatch)
    requires MatchShape(s, m)
    ensures RewrittenFrom(Rewrite(s, m), s, m)
  {
    var pre := s[..m.start];
    var d := s[m.digitsFrom..m.digitsTo];
    Pieces(pre, d, s[m.close + 1..]);
    assert forall k :: 0 <= k < |d| ==> IsDigit(d[k]) by {
      assert forall k :: 0 <= k < |d| ==> d[k] == s[m.digitsFrom + k];
    }
  }

  /** After the rewrite, no match starts before the rewritten one. */
  lemma NoMatchBefore(s: string, m: BracketMatch, t: string, i: nat)
    requires RewrittenFrom(t, s, m)
    requires forall j :: 0 <= j < m.start ==> MatchAt(s, j).None?
    requires i < m.start
    ensures MatchAt(t, i).None?
  {
    var a := m.start;
    if MatchAt(t, i).Some? {
      var n := MatchAt(t, i).value;
      MatchAtShape(t, i);
      if n.close < a {
        assert t[..n.close + 1] == s[..n.close + 1];
        MatchAtPrefix(t, s, i);
        assert false;
      } else {
        assert a == n.open;
        var earlier := BracketMatch(i, m.open, m.digitsFrom, m.digitsTo, m.close);
        assert MatchShape(s, earlier);
        MatchAtOfShape(s, earlier);
        assert false;
      }
    }
  }

  /** A rewritten code is itself a match, with nothing to squeeze out. */
  lemma MatchAtRewritten(s: string, m: BracketMatch, t: string)
    requires RewrittenFrom(t, s, m)
    ensures m.start <= |t| && MatchAt(t, m.start) == Some(Tight(m))
  {
    var r := Tight(m);
    assert MatchShape(t, r);
    MatchAtOfShape(t, r);
  }

  /** In a head whose leftmost code has been rewritten, the leftmost match
      is the rewritten code. */
  lemma FirstMatchOfRewritten(s: string, m: BracketMatch, t: string)
    requires FirstMatch(s, 0) == Some(m)
    requires RewrittenFrom(t, s, m)
    ensures FirstMatch(t, 0) == Some(Tight(m))
  {
    FirstMatchLeftmost(s, 0);
    MatchAtRewritten(s, m, t);
    forall i | 0 <= i < m.start
      ensures MatchAt(t, i).None?
    {
      NoMatchBefore(s, m, t, i);
    }
    FirstMatchAt(t, m.start);
  }

  /** Rewriting an already canonical code changes nothing. */
  lemma RewriteCanonical(s: string, m: BracketMatch)
    requires m.start <= m.digitsFrom <= m.digitsTo <= m.close < |s|
    ensures Rewrite(Rewrite(s, m), Tight(m)) == Rewrite(s, m)
  {
    var pre := s[..m.start];
    var d := s[m.digitsFrom..m.digitsTo];
    var post := s[m.close + 1..];
    var t := pre + "[" + d + "]" + post;
    assert t == pre + ("[" + d + "]" + post);
    assert t[..|pre|] == pre;
    assert t[|pre| + 1..|pre| + 1 + |d|] == d;
    assert t[|pre| + 2 + |d|..] == post;
  }

  /** Rewriting twice gives the same head as rewriting once. */
  lemma CanonicalizeIdempotent(s: string)
    ensures Canonicalize(Canonicalize(s)) == Canonicalize(s)
  {
    match FirstMatch(s, 0)
    case None =>
    case Some(m) =>
      MatchAtShape(s, m.start);
      RewriteIsRewrittenFrom(s, m);
      FirstMatchOfRewritten(s, m, Rewrite(s, m));
      RewriteCanonical(s, m);
  }

  /** `processHead`: a missing or empty attribute gives nothing; otherwise
      the canonicalized, trimmed head, unless it is empty or generic. */
  function ProcessHead(attr: Option<string>): Option<string> {
    if attr.None? || attr.value == "" then None
    else
      var cleaned := Trim(Canonicalize(attr.value));
      if cleaned != "" && !IsGeneric(cleaned) then Some(cleaned) else None
  }

  /** A kept head is non-empty, trimmed and not generic; a missing or empty
      attribute is never kept. */
  lemma ProcessHeadKept(attr: Option<string>)
    ensures attr.None? || attr == Some("") ==> ProcessHead(attr).None?
    ensures ProcessHead(attr).Some? ==>
      var h := ProcessHead(attr).value;
      h != "" && IsTrimmed(h) && !IsGeneric(h)
    ensures attr.Some? && attr.value != "" && !IsGeneric(Trim(Canonicalize(attr.value))) ==>
      (ProcessHead(attr).Some? <==> !AllSpace(Canonicalize(attr.value)))
  {
    if attr.Some? {
      TrimSpec(Canonicalize(attr.value));
    }
  }
}
