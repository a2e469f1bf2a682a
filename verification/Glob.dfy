/** Shell patterns, section 2.13 of POSIX.1-2017 XCU, over ASCII and without
    quoting: `*`, `?`, bracket expressions and ordinary characters. */
module Glob {

  predicate InClass(body: string, c: char)
    decreases |body|
  {
    if body == "" then false
    else if |body| >= 3 && body[1] == '-' then body[0] <= c <= body[2] || InClass(body[3..], c)
    else c == body[0] || InClass(body[1..], c)
  }

  /** Index of the first `]` of p from i on, or |p|. */
  function Closing(p: string, i: nat): (k: nat)
    ensures i <= |p| ==> i <= k <= |p|
    ensures k < |p| ==> p[k] == ']' && i <= k
    ensures forall j :: i <= j < k && j < |p| ==> p[j] != ']'
    decreases |p| - i
  {
    if i >= |p| then |p| else if p[i] == ']' then i else Closing(p, i + 1)
  }

  /** Where the list of a bracket expression starts: after `[` or `[!`. */
  function BodyStart(p: string): nat {
    if |p| > 1 && p[1] == '!' then 2 else 1
  }

  predicate IsBracket(p: string) {
    p != "" && p[0] == '[' && Closing(p, BodyStart(p) + 1) < |p|
  }

  predicate BracketHas(p: string, c: char)
    requires IsBracket(p)
  {
    var (b, k) := (BodyStart(p), Closing(p, BodyStart(p) + 1));
    InClass(p[b..k], c) != (b == 2)
  }

  predicate GlobMatch(p: string, s: string)
    decreases |p|, |s|
  {
    if p == "" then s == ""
    else if p[0] == '*' then GlobMatch(p[1..], s) || (s != "" && GlobMatch(p, s[1..]))
    else if s == "" then false
    else if p[0] == '?' then GlobMatch(p[1..], s[1..])
    else if IsBracket(p) then BracketHas(p, s[0]) && GlobMatch(p[Closing(p, BodyStart(p) + 1) + 1..], s[1..])
    else p[0] == s[0] && GlobMatch(p[1..], s[1..])
  }

  predicate Ordinary(c: char) { c !in "*?[" }

  lemma {:induction false} StarMatchesAll(s: string)
    ensures GlobMatch("*", s)
  {
    if s != "" { StarMatchesAll(s[1..]); } else { assert "*"[1..] == ""; }
  }

  lemma {:induction false} LiteralPrefix(lit: string, rest: string, s: string)
    requires forall c <- lit :: Ordinary(c)
    ensures GlobMatch(lit + rest, s) <==> lit <= s && GlobMatch(rest, s[|lit|..])
  {
    if lit == "" {
      assert lit + rest == rest && s[0..] == s;
    } else {
      var p := lit + rest;
      assert p[0] == lit[0] && Ordinary(p[0]) && p[1..] == lit[1..] + rest;
      if s != "" {
        assert GlobMatch(p, s) <==> p[0] == s[0] && GlobMatch(p[1..], s[1..]);
        LiteralPrefix(lit[1..], rest, s[1..]);
        PrefixStep(lit, s);
      }
    }
  }

  lemma PrefixStep(lit: string, s: string)
    requires lit != "" && s != ""
    ensures lit <= s <==> lit[0] == s[0] && lit[1..] <= s[1..]
    ensures lit <= s ==> s[1..][|lit[1..]|..] == s[|lit|..]
  {
    if lit[0] == s[0] && lit[1..] <= s[1..] {
      assert lit == [lit[0]] + lit[1..] && s == [s[0]] + s[1..];
    }
  }

  /** A bracket expression without `!` and without `]` in its list. */
  lemma BracketShape(body: string, rest: string)
    requires body != "" && body[0] != '!' && ']' !in body
    ensures var (p, k) := ("[" + body + "]" + rest, |body| + 1);
      && BodyStart(p) == 1 && Closing(p, 2) == k && IsBracket(p)
      && p[1..k] == body && p[k + 1..] == rest
  {
    var p := "[" + body + "]" + rest;
    assert p[1] == body[0] && BodyStart(p) == 1;
    assert forall j {:trigger p[j]} :: 1 <= j <= |body| ==> p[j] == body[j - 1] && body[j - 1] in body;
    assert p[|body| + 1] == ']';
    var k := Closing(p, 2);
    assert k == |body| + 1;
    assert p[1..k] == body && p[k + 1..] == rest;
  }

  lemma BracketThen(body: string, rest: string, s: string)
    requires body != "" && body[0] != '!' && ']' !in body
    ensures GlobMatch("[" + body + "]" + rest, s) <==> s != "" && InClass(body, s[0]) && GlobMatch(rest, s[1..])
  {
    BracketShape(body, rest);
  }
}
