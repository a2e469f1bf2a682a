/** When the rewritten form of an alias (kernel_patch/hwfilter.py, `load_db`)
    matches exactly the devices that the alias matches as a shell pattern. */
module AliasExact {
  import opened Glob
  import opened AliasDb

  /** p has a `.` outside bracket expressions. */
  predicate HasDot(p: string)
    decreases |p|
  {
    p != "" &&
    if IsBracket(p) then HasDot(p[AtomEnd(p)..]) else p[0] == '.' || HasDot(p[1..])
  }

  predicate EndsInStar(p: string) { p != "" && p[|p| - 1] == '*' }

  /** The aliases whose rewritten form means the same. */
  predicate Exact(p: string) { '?' !in p && !HasDot(p) && EndsInStar(p) }

  predicate Ascii(p: string) { forall c <- p :: c < '\U{80}' }

  /** Device signatures are lines of a file. */
  ghost predicate Agrees(p: string) {
    forall s :: '\n' !in s ==> (RegexMatch(Rewrite(p), s) <==> GlobMatch(p, s))
  }

  /** The pattern after its first element. */
  function After(p: string): (q: string)
    requires p != ""
    ensures |q| < |p|
  {
    p[AtomEnd(p)..]
  }

  lemma AfterKeeps(p: string)
    requires p != "" && PlainAlias(p)
    ensures p[0] != '[' ==> AtomEnd(p) == 1
    ensures p[0] == '[' ==>
      IsBracket(p) && BodyStart(p) == 1 && AtomEnd(p) == Closing(p, 2) + 1 && p[AtomEnd(p) - 1] == ']'
    ensures PlainAlias(After(p)) && (Ascii(p) ==> Ascii(After(p)))
    ensures '?' !in p ==> '?' !in After(p)
    ensures '\n' !in p ==> '\n' !in After(p)
    ensures After(p) != "" ==> (EndsInStar(p) <==> EndsInStar(After(p)))
    ensures HasDot(p) <==> p[0] == '.' || HasDot(After(p))
  {
    var q := After(p);
    assert forall c <- q :: c in p;
    if q != "" { assert q[|q| - 1] == p[|p| - 1]; }
    if p[0] == '[' { BracketIsPlain(p); }
  }

  /** How many characters a match has at least. */
  function Shortest(p: string): nat
    decreases |p|
  {
    if p == "" then 0 else (if p[0] == '*' then 0 else 1) + Shortest(After(p))
  }

  /** One element and the rest, as a shell pattern. */
  lemma GlobStep(p: string, s: string)
    requires p != "" && PlainAlias(p) && p[0] != '*'
    ensures GlobMatch(p, s) ==> s != "" && GlobMatch(After(p), s[1..])
    ensures GlobMatch(p, s) && p[0] !in "?[" ==> s[0] == p[0]
    ensures GlobMatch(p, s) && p[0] == '[' ==> InClass(p[1..AtomEnd(p) - 1], s[0])
  {
    AfterKeeps(p);
  }

  lemma {:induction false} ShortestIsLeast(p: string, s: string)
    requires PlainAlias(p) && GlobMatch(p, s)
    ensures |s| >= Shortest(p)
    decreases |p|, |s|
  {
    if p != "" {
      AfterKeeps(p);
      if p[0] == '*' {
        if GlobMatch(p[1..], s) { ShortestIsLeast(p[1..], s); } else { ShortestIsLeast(p, s[1..]); }
      } else {
        GlobStep(p, s);
        ShortestIsLeast(After(p), s[1..]);
      }
    }
  }

  /** One element and the rest, as a rewritten expression. */
  lemma RegexStep(p: string, s: string)
    requires p != "" && PlainAlias(p)
    ensures var (q, rest) := (Rewrite(p), Rewrite(After(p)));
      RegexMatch(q, s) <==>
      if p[0] == '*' then RegexMatch(rest, s) || (s != "" && s[0] != '\n' && RegexMatch(q, s[1..]))
      else if p[0] == '?' then RegexMatch(rest, s) || (s != "" && s[0] != '\n' && RegexMatch(rest, s[1..]))
      else s != "" && OneChar(p, s[0]) && RegexMatch(rest, s[1..])
  {
    AfterKeeps(p);
    RewriteHead(p);
    if p[0] == '[' { RegexBracket(p, s); }
  }

  /** What the first element of p matches after rewriting. */
  predicate OneChar(p: string, c: char)
    requires p != ""
  {
    if IsBracket(p) then InClass(p[1..AtomEnd(p) - 1], c) else if p[0] == '.' then c != '\n' else c == p[0]
  }

  lemma SameInside(p: string, q: string, k: nat)
    requires 1 <= k < |p| && k < |q| && q[..k + 1] == p[..k + 1]
    ensures q[1..k] == p[1..k]
  {
    assert q[1..k] == q[..k + 1][1..k] && p[1..k] == p[..k + 1][1..k];
  }

  lemma FirstAfter(q: string, rest: string, k: nat)
    requires k <= |q| && q[k..] == Rewrite(rest)
    ensures k < |q| ==> !Wild(q[k])
  {
    if k < |q| { assert q[k] == q[k..][0]; }
  }

  /** A bracket expression and the rest, after rewriting to q. */
  lemma BracketAtom(p: string, q: string, k: nat)
    requires IsBracket(p) && BodyStart(p) == 1 && k == Closing(p, 2) && IsBracket(q) && AtomEnd(q) == k + 1
    requires q[..k + 1] == p[..k + 1] && q[k + 1..] == Rewrite(p[k + 1..])
    ensures AtomEnd(p) == k + 1 && q[1..k] == p[1..k]
    ensures k + 1 < |q| ==> !Wild(q[k + 1])
  {
    SameInside(p, q, k);
    FirstAfter(q, p[k + 1..], k + 1);
  }

  lemma RegexBracket(p: string, s: string)
    requires PlainAlias(p) && p != "" && p[0] == '['
    ensures IsBracket(p)
    ensures RegexMatch(Rewrite(p), s) <==> s != "" && OneChar(p, s[0]) && RegexMatch(Rewrite(After(p)), s[1..])
  {
    RewriteBracket(p);
    var (q, k) := (Rewrite(p), Closing(p, 2));
    BracketAtom(p, q, k);
    if s != "" { assert AtomHas(q, s[0]) <==> OneChar(p, s[0]); }
  }

  /** Under the condition the rewritten form matches nothing more. */
  lemma {:induction false} ExactImpliesGlob(p: string, s: string)
    requires PlainAlias(p) && Exact(p) && '\n' !in s && RegexMatch(Rewrite(p), s)
    ensures GlobMatch(p, s)
    decreases |p|, |s|
  {
    AfterKeeps(p);
    RegexStep(p, s);
    if p == "*" {
      StarMatchesAll(s);
    } else if p[0] == '*' {
      if RegexMatch(Rewrite(After(p)), s) { ExactImpliesGlob(After(p), s); } else { ExactImpliesGlob(p, s[1..]); }
    } else {
      assert p[0] in p && After(p) != "";
      ExactImpliesGlob(After(p), s[1..]);
    }
  }

  /** Something the first element matches: a letter for a dot. */
  function Sample(p: string): char
    requires p != ""
  {
    if p[0] == '.' then 'b' else if IsBracket(p) then p[1] else p[0]
  }

  /** A short device that the rewritten form matches: nothing for `*` and `?`. */
  function Loose(p: string): string
    decreases |p|
  {
    if p == "" then ""
    else if Wild(p[0]) then Loose(After(p))
    else [Sample(p)] + Loose(After(p))
  }

  lemma FirstInClass(body: string)
    requires PlainClass(body)
    ensures InClass(body, body[0])
  {
    if |body| >= 3 && body[1] == '-' { assert body[0] <= body[2]; }
  }

  lemma SampleMatches(p: string)
    requires p != "" && PlainAlias(p) && '\n' !in p && !Wild(p[0])
    ensures OneChar(p, Sample(p)) && Sample(p) != '\n'
  {
    AfterKeeps(p);
    assert p[0] in p;
    if p[0] == '[' { FirstOfBracket(p); }
  }

  lemma FirstOfBracket(p: string)
    requires p != "" && PlainAlias(p) && p[0] == '['
    ensures IsBracket(p) && |p| > 1 && OneChar(p, p[1]) && p[1] in p
  {
    AfterKeeps(p);
    var body := p[1..AtomEnd(p) - 1];
    assert p[1] == body[0];
    FirstInClass(body);
  }

  lemma {:induction false} LooseMatches(p: string, t: string)
    requires PlainAlias(p) && '\n' !in p
    ensures RegexMatch(Rewrite(p), Loose(p) + t)
    decreases |p|
  {
    if p != "" {
      AfterKeeps(p);
      LooseMatches(After(p), t);
      RegexStep(p, Loose(p) + t);
      if !Wild(p[0]) {
        SampleMatches(p);
        assert Loose(p) + t == [Sample(p)] + (Loose(After(p)) + t);
      }
    }
  }

  lemma {:induction false} LooseIsLine(p: string)
    requires PlainAlias(p) && '\n' !in p
    ensures '\n' !in Loose(p)
    decreases |p|
  {
    if p != "" {
      AfterKeeps(p);
      LooseIsLine(After(p));
      if !Wild(p[0]) { SampleMatches(p); }
    }
  }

  lemma QuestionAfter(p: string)
    requires PlainAlias(p) && '?' in p && p[0] != '?'
    ensures '?' in After(p)
  {
    AfterKeeps(p);
    var i :| 0 <= i < |p| && p[i] == '?';
    if p[0] == '[' {
      BracketIsPlain(p);
      var first := p[..Closing(p, 2) + 1];
      if i < |first| { assert first[i] in first && Wild(first[i]); }
    }
    assert p[i] == After(p)[i - AtomEnd(p)];
  }

  lemma {:induction false} LooseIsShort(p: string)
    requires PlainAlias(p)
    ensures |Loose(p)| <= Shortest(p)
    ensures '?' in p ==> |Loose(p)| < Shortest(p)
    decreases |p|
  {
    if p != "" {
      AfterKeeps(p);
      LooseIsShort(After(p));
      if '?' in p && p[0] != '?' { QuestionAfter(p); }
    }
  }

  /** Matched as a shell pattern, the short device has every dot of the alias. */
  lemma {:induction false} LooseHasNoDot(p: string)
    requires PlainAlias(p) && '?' !in p && GlobMatch(p, Loose(p))
    ensures !HasDot(p)
    decreases |p|
  {
    if p != "" {
      AfterKeeps(p);
      LooseIsShort(p);
      var s := Loose(p);
      if p[0] == '*' {
        assert s == Loose(After(p));
        if !GlobMatch(p[1..], s) { ShortestIsLeast(p, s[1..]); }
        LooseHasNoDot(After(p));
      } else {
        GlobStep(p, s);
        assert p[0] in p && s[1..] == Loose(After(p));
        LooseHasNoDot(After(p));
      }
    }
  }

  lemma SliceIsAscii(p: string, i: nat, j: nat)
    requires Ascii(p) && i <= j <= |p|
    ensures Ascii(p[i..j])
  {
    assert forall c <- p[i..j] :: c in p;
  }

  lemma DropIsAscii(p: string, i: nat)
    requires Ascii(p) && i <= |p|
    ensures Ascii(p[i..])
  {
    assert forall c <- p[i..] :: c in p;
  }

  lemma {:induction false} ClassIsAscii(body: string, c: char)
    requires Ascii(body) && InClass(body, c)
    ensures c < '\U{80}'
  {
    if |body| >= 3 && body[1] == '-' {
      assert body[2] in body;
      DropIsAscii(body, 3);
      if !(body[0] <= c <= body[2]) { ClassIsAscii(body[3..], c); }
    } else {
      assert body[0] in body;
      DropIsAscii(body, 1);
      if c != body[0] { ClassIsAscii(body[1..], c); }
    }
  }

  /** Without a star at its end an alias says what a device ends in. */
  lemma {:induction false} LastIsAscii(p: string, s: string)
    requires PlainAlias(p) && Ascii(p) && '?' !in p && !EndsInStar(p) && GlobMatch(p, s)
    ensures s != "" ==> s[|s| - 1] < '\U{80}'
    ensures p != "" ==> s != ""
    decreases |p|, |s|
  {
    if p != "" {
      AfterKeeps(p);
      if p[0] == '*' {
        if GlobMatch(p[1..], s) { LastIsAscii(p[1..], s); } else { LastIsAscii(p, s[1..]); }
      } else {
        GlobStep(p, s);
        LastIsAscii(After(p), s[1..]);
        assert p[0] in p;
        if p[0] == '[' {
          SliceIsAscii(p, 1, AtomEnd(p) - 1);
          ClassIsAscii(p[1..AtomEnd(p) - 1], s[0]);
        }
      }
    }
  }

  /** A device that the two readings judge differently. */
  lemma Disagreement(p: string) returns (s: string)
    requires PlainAlias(p) && Ascii(p) && '\n' !in p && !Exact(p)
    ensures '\n' !in s && RegexMatch(Rewrite(p), s) && !GlobMatch(p, s)
  {
    LooseIsLine(p);
    if '?' in p || HasDot(p) {
      s := Loose(p);
      LooseMatches(p, "");
      assert s + "" == s;
      LooseIsShort(p);
      if GlobMatch(p, s) {
        ShortestIsLeast(p, s);
        LooseHasNoDot(p);
      }
    } else {
      s := Loose(p) + "\U{80}";
      LooseMatches(p, "\U{80}");
      if GlobMatch(p, s) { LastIsAscii(p, s); }
    }
  }

  /** An alias, a word of ASCII text, means the same before and after the
      rewriting exactly when it has no `?`, no `.` outside brackets, and ends in
      a star. */
  lemma AgreesIffExact(p: string)
    requires PlainAlias(p) && Ascii(p) && '\n' !in p
    ensures Agrees(p) <==> Exact(p)
  {
    if Exact(p) {
      forall s | '\n' !in s
        ensures RegexMatch(Rewrite(p), s) <==> GlobMatch(p, s)
      {
        if RegexMatch(Rewrite(p), s) { ExactImpliesGlob(p, s); }
        if GlobMatch(p, s) { GlobImpliesRegex(p, s); }
      }
    } else {
      var s := Disagreement(p);
    }
  }

  /** One alias for each part of the condition: a missing star, a `?` and a dot. */
  lemma StarExample()
    ensures RegexMatch(Rewrite("a"), "ab") && !GlobMatch("a", "ab")
  {
    assert "a"[1..] == "" && "ab"[1..] == "b";
    RegexStep("a", "ab");
  }

  lemma QuestionExample()
    ensures RegexMatch(Rewrite("a?*"), "a") && !GlobMatch("a?*", "a")
  {
    assert "a?*"[1..] == "?*" && "?*"[1..] == "*" && "*"[1..] == "" && "a"[1..] == "";
    assert PlainAlias("*") && PlainAlias("?*");
    RegexStep("*", "");
    RegexStep("?*", "");
    RegexStep("a?*", "a");
  }

  lemma DotExample()
    ensures RegexMatch(Rewrite("a.*"), "ab") && !GlobMatch("a.*", "ab")
  {
    assert "a.*"[1..] == ".*" && ".*"[1..] == "*" && "*"[1..] == "" && "ab"[1..] == "b" && "b"[1..] == "";
    assert PlainAlias("*") && PlainAlias(".*");
    RegexStep("*", "");
    RegexStep(".*", "b");
    RegexStep("a.*", "ab");
  }
}
