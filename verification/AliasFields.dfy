/** Aliases that are written field by field, a fixed tag before each value: when
    the rewritten form (kernel_patch/hwfilter.py, `load_db`) matches a device
    signature of the same form. Its `.*` can run past the end of a field. */
module AliasFields {
  import opened Glob
  import opened AliasDb
  import opened AliasExact

  lemma BracketExtends(p: string, q: string)
    requires PlainAlias(p) && p != "" && p[0] == '['
    ensures var k := Closing(p, 2);
      && BodyStart(p) == 1 && k < |p| && IsBracket(p) && IsBracket(p + q)
      && BodyStart(p + q) == 1 && Closing(p + q, 2) == k
      && (p + q)[1..k] == p[1..k] && (p + q)[k + 1..] == p[k + 1..] + q
  {
    BracketIsPlain(p);
    var k := Closing(p, 2);
    assert (p + q)[..k + 1] == p[..k + 1];
    SameBracket(p, p + q, k);
    assert (p + q)[1] == p[1];
  }

  lemma {:induction false} PlainConcat(p: string, q: string)
    requires PlainAlias(p) && PlainAlias(q)
    ensures PlainAlias(p + q)
    decreases |p|
  {
    if p == "" {
      assert p + q == q;
    } else if p[0] == '[' {
      BracketExtends(p, q);
      PlainConcat(p[Closing(p, 2) + 1..], q);
    } else {
      assert (p + q)[1..] == p[1..] + q;
      PlainConcat(p[1..], q);
    }
  }

  /** Patterns that match the parts of a text match it in one. */
  lemma {:induction false} GlobConcat(p: string, q: string, s: string, t: string)
    requires PlainAlias(p) && GlobMatch(p, s) && GlobMatch(q, t)
    ensures GlobMatch(p + q, s + t)
    decreases |p|, |s|
  {
    if s != "" { assert (s + t)[1..] == s[1..] + t; }
    if p == "" {
      assert p + q == q && s + t == t;
    } else {
      assert (p + q)[1..] == p[1..] + q;
      if p[0] == '*' {
        if GlobMatch(p[1..], s) { GlobConcat(p[1..], q, s, t); } else { GlobConcat(p, q, s[1..], t); }
      } else if p[0] == '[' {
        BracketExtends(p, q);
        GlobConcat(p[Closing(p, 2) + 1..], q, s[1..], t);
      } else {
        GlobConcat(p[1..], q, s[1..], t);
      }
    }
  }

  predicate Digit(c: char) { '0' <= c <= '9' || 'A' <= c <= 'F' }

  /** Nothing whose meaning the rewriting changes. */
  ghost predicate Steady(p: string) { PlainAlias(p) && '?' !in p && !HasDot(p) }

  lemma {:induction false} SteadyChars(p: string)
    requires PlainAlias(p) && '?' !in p && '.' !in p
    ensures Steady(p)
    decreases |p|
  {
    if p != "" {
      AfterKeeps(p);
      assert forall c <- After(p) :: c in p;
      SteadyChars(After(p));
    }
  }

  lemma AfterConcat(p: string, q: string)
    requires p != "" && PlainAlias(p) && PlainAlias(q)
    ensures PlainAlias(p + q) && (p + q)[0] == p[0] && After(p + q) == After(p) + q
    ensures forall c :: OneChar(p + q, c) <==> OneChar(p, c)
  {
    PlainConcat(p, q);
    if p[0] == '[' {
      BracketConcat(p, q);
    } else {
      assert (p + q)[1..] == p[1..] + q;
    }
  }

  lemma BracketConcat(p: string, q: string)
    requires PlainAlias(p) && p != "" && p[0] == '['
    ensures After(p + q) == After(p) + q
    ensures forall c :: OneChar(p + q, c) <==> OneChar(p, c)
  {
    BracketIsPlain(p);
    BracketExtends(p, q);
  }

  /** What the rewritten form of p + q matches falls into two parts. */
  lemma {:induction false} RegexSplits(p: string, q: string, s: string) returns (j: nat)
    requires Steady(p) && PlainAlias(q) && '\n' !in s && RegexMatch(Rewrite(p + q), s)
    ensures j <= |s| && GlobMatch(p, s[..j]) && RegexMatch(Rewrite(q), s[j..])
    decreases |p|, |s|
  {
    if p == "" {
      assert p + q == q && s[..0] == "" && s[0..] == s;
      j := 0;
    } else {
      AfterConcat(p, q);
      SteadyAfter(p);
      RegexStep(p + q, s);
      if p[0] == '*' && RegexMatch(Rewrite(After(p) + q), s) {
        j := RegexSplits(After(p), q, s);
      } else {
        var k := RegexSplits(if p[0] == '*' then p else After(p), q, s[1..]);
        j := k + 1;
        SplitOff(s, k);
        OneMore(p, s[0], s[1..][..k]);
      }
    }
  }

  lemma SteadyAfter(p: string)
    requires p != "" && Steady(p)
    ensures Steady(After(p)) && (p[0] == '*' ==> After(p) == p[1..])
  {
    AfterKeeps(p);
  }

  lemma SplitOff(s: string, k: nat)
    requires k < |s|
    ensures s[..k + 1] == [s[0]] + s[1..][..k] && s[k + 1..] == s[1..][k..]
  {
  }

  lemma OneMore(p: string, c: char, s: string)
    requires p != "" && Steady(p) && (p[0] == '*' || OneChar(p, c))
    requires GlobMatch(if p[0] == '*' then p else After(p), s)
    ensures GlobMatch(p, [c] + s)
  {
    assert ([c] + s)[1..] == s && p[0] in p;
    AfterKeeps(p);
  }

  /** And two parts make a whole. */
  lemma {:induction false} RegexJoins(p: string, q: string, s: string, t: string)
    requires PlainAlias(p) && PlainAlias(q) && '\n' !in s && GlobMatch(p, s) && RegexMatch(Rewrite(q), t)
    ensures RegexMatch(Rewrite(p + q), s + t)
    decreases |p|, |s|
  {
    if p == "" {
      assert p + q == q && s + t == t;
    } else {
      AfterConcat(p, q);
      AfterKeeps(p);
      RegexStep(p + q, s + t);
      if s != "" { assert (s + t)[1..] == s[1..] + t; }
      if p[0] == '*' {
        if GlobMatch(p[1..], s) { RegexJoins(After(p), q, s, t); } else { RegexJoins(p, q, s[1..], t); }
      } else {
        GlobStep(p, s);
        RegexJoins(After(p), q, s[1..], t);
      }
    }
  }

  /** A field: what the alias asks for, and what the device has. */
  datatype Field = Field(tag: string, glob: string, text: string)

  function Pattern(fs: seq<Field>): string {
    if fs == [] then "" else fs[0].tag + fs[0].glob + Pattern(fs[1..])
  }

  function Signature(fs: seq<Field>): string {
    if fs == [] then "" else fs[0].tag + fs[0].text + Signature(fs[1..])
  }

  predicate Occurs(t: string, w: string) { exists a :: 0 <= a <= |w| && t <= w[a..] }

  /** A character of a tag: neither a digit nor special in a pattern. */
  predicate TagChar(c: char) { !Digit(c) && c !in "*?.[\n\\^$+(){}|" }

  ghost predicate WellFormed(f: Field) {
    && f.tag != "" && (forall c <- f.tag :: TagChar(c))
    && Steady(f.glob)
    && f.text != "" && forall c <- f.text :: Digit(c)
  }

  /** No tag occurs in an earlier one. */
  ghost predicate Distinguished(fs: seq<Field>) {
    && (forall f <- fs :: WellFormed(f))
    && forall i, j :: 0 <= i < j < |fs| ==> !Occurs(fs[j].tag, fs[i].tag)
  }

  lemma TextIn(w: string, f: Field, rest: string, i: nat)
    requires WellFormed(f) && i < |f.tag + f.text| && w != "" && (forall c <- w :: TagChar(c))
    requires w <= (f.tag + f.text + rest)[i..]
    ensures Occurs(w, f.tag) && (w == f.tag ==> i == 0)
  {
    var (s, end) := (f.tag + f.text + rest, |f.tag|);
    forall m | i <= m < i + |w|
      ensures !Digit(s[m])
    {
      assert w[m - i] == s[i..][m - i] == s[m] && w[m - i] in w;
    }
    forall m | end <= m < end + |f.text|
      ensures Digit(s[m])
    {
      assert s[m] == f.text[m - end] && f.text[m - end] in f.text;
    }
    assert i < end by { assert !Digit(s[i]); }
    assert i + |w| <= end by { assert Digit(s[end]) by { assert |f.text| > 0; } }
    assert w == s[i..][..|w|] == f.tag[i..][..|w|];
  }

  /** The tag of f stands in the text up to f only where it belongs. */
  lemma {:induction false} TagPlace(before: seq<Field>, f: Field, i: nat)
    requires forall b <- before :: WellFormed(b) && !Occurs(f.tag, b.tag)
    requires WellFormed(f)
    requires var s := Signature(before) + f.tag + f.text; i <= |s| && f.tag <= s[i..]
    ensures i == |Signature(before)|
  {
    var s := Signature(before) + f.tag + f.text;
    if before == [] {
      assert s == f.tag + f.text + "";
      if i > 0 { TextIn(f.tag, f, "", i); }
    } else {
      var (b, rest) := (before[0], before[1..]);
      assert b in before && !Occurs(f.tag, b.tag);
      var s' := Signature(rest) + f.tag + f.text;
      assert s == b.tag + b.text + s';
      if i < |b.tag + b.text| {
        TextIn(f.tag, b, s', i);
      } else {
        assert s[i..] == s'[i - |b.tag + b.text|..];
        assert forall x <- rest :: x in before;
        TagPlace(rest, f, i - |b.tag + b.text|);
      }
    }
  }

  lemma {:induction false} SignatureConcat(a: seq<Field>, b: seq<Field>)
    ensures Signature(a + b) == Signature(a) + Signature(b)
  {
    if a == [] {
      assert a + b == b;
    } else {
      assert (a + b)[1..] == a[1..] + b;
      SignatureConcat(a[1..], b);
    }
  }

  /** The glob matches the text, or a first part of it in the last field. */
  predicate PrefixMatch(glob: string, text: string) {
    exists j :: 0 <= j <= |text| && GlobMatch(glob, text[..j])
  }

  predicate FieldsMatch(fs: seq<Field>)
    requires fs != []
  {
    if |fs| == 1 then PrefixMatch(fs[0].glob, fs[0].text)
    else GlobMatch(fs[0].glob, fs[0].text) && FieldsMatch(fs[1..])
  }

  lemma FieldIsSteady(f: Field)
    requires WellFormed(f)
    ensures Steady(f.tag + f.glob)
    ensures forall s :: GlobMatch(f.tag + f.glob, s) <==> f.tag <= s && GlobMatch(f.glob, s[|f.tag|..])
  {
    TagIsSteady(f.tag, f.glob);
    forall s ensures GlobMatch(f.tag + f.glob, s) <==> f.tag <= s && GlobMatch(f.glob, s[|f.tag|..]) {
      LiteralPrefix(f.tag, f.glob, s);
    }
  }

  lemma {:induction false} TagIsSteady(tag: string, glob: string)
    requires (forall c <- tag :: TagChar(c)) && Steady(glob)
    ensures Steady(tag + glob)
  {
    if tag == "" {
      assert tag + glob == glob;
    } else {
      var p := tag + glob;
      assert p[1..] == tag[1..] + glob && p[0] in tag && TagChar(p[0]);
      assert forall c <- tag[1..] :: c in tag;
      TagIsSteady(tag[1..], glob);
      assert p == [p[0]] + p[1..];
    }
  }

  lemma {:induction false} PatternIsPlain(fs: seq<Field>, tail: string)
    requires (forall f <- fs :: WellFormed(f)) && PlainAlias(tail)
    ensures PlainAlias(Pattern(fs) + tail)
  {
    if fs == [] {
      assert Pattern(fs) + tail == tail;
    } else {
      assert fs[0] in fs && forall f <- fs[1..] :: f in fs;
      TagIsSteady(fs[0].tag, fs[0].glob);
      PatternIsPlain(fs[1..], tail);
      PlainConcat(fs[0].tag + fs[0].glob, Pattern(fs[1..]) + tail);
      Regrouped(fs, tail);
    }
  }

  lemma {:induction false} SignatureIsLine(fs: seq<Field>)
    requires forall f <- fs :: WellFormed(f)
    ensures '\n' !in Signature(fs)
  {
    if fs != [] {
      assert fs[0] in fs && forall f <- fs[1..] :: f in fs;
      SignatureIsLine(fs[1..]);
      FieldIsLine(fs[0]);
    }
  }

  lemma FieldIsLine(f: Field)
    requires WellFormed(f)
    ensures '\n' !in f.tag && '\n' !in f.text
  {
    assert !TagChar('\n') && !Digit('\n');
  }

  /** What may follow the last field. */
  predicate Tail(t: string) { t == "" || t == "*" }

  lemma TailMatches(t: string, s: string)
    requires Tail(t)
    ensures PlainAlias(t) && RegexMatch(Rewrite(t), s)
  {
    if t == "*" {
      assert "*"[1..] == "";
      RegexStep("*", s);
    }
  }

  lemma {:induction false} FieldsAreMatched(fs: seq<Field>, tail: string)
    requires fs != [] && (forall f <- fs :: WellFormed(f)) && Tail(tail) && FieldsMatch(fs)
    ensures RegexMatch(Rewrite(Pattern(fs) + tail), Signature(fs))
  {
    var (f, rest) := (fs[0], fs[1..]);
    assert f in fs && forall x <- rest :: x in fs;
    TailMatches(tail, "");
    PatternIsPlain(rest, tail);
    PatternIsPlain([f], tail);
    FieldIsSteady(f);
    Regrouped(fs, tail);
    var j: nat := |f.text|;
    if rest == [] {
      var k :| 0 <= k <= |f.text| && GlobMatch(f.glob, f.text[..k]);
      j := k;
      assert Pattern(rest) + tail == tail && f.text[k..] + Signature(rest) == f.text[k..];
      TailMatches(tail, f.text[k..]);
    } else {
      FieldsAreMatched(rest, tail);
      assert f.text[j..] + Signature(rest) == Signature(rest) && f.text[..j] == f.text;
    }
    JoinField(f, j, Pattern(rest) + tail, Signature(rest));
  }

  lemma JoinField(f: Field, j: nat, q: string, t: string)
    requires WellFormed(f) && PlainAlias(q) && j <= |f.text| && GlobMatch(f.glob, f.text[..j])
    requires RegexMatch(Rewrite(q), f.text[j..] + t)
    ensures RegexMatch(Rewrite(f.tag + f.glob + q), f.tag + f.text + t)
  {
    FieldPart(f, j);
    RegexJoins(f.tag + f.glob, q, f.tag + f.text[..j], f.text[j..] + t);
    CutText(f.tag, f.text, j, t);
  }

  lemma CutText(tag: string, text: string, j: nat, t: string)
    requires j <= |text|
    ensures tag + text[..j] + (text[j..] + t) == tag + text + t
  {
    assert text == text[..j] + text[j..];
  }

  lemma FieldPart(f: Field, j: nat)
    requires WellFormed(f) && j <= |f.text| && GlobMatch(f.glob, f.text[..j])
    ensures var (p, s) := (f.tag + f.glob, f.tag + f.text[..j]);
      PlainAlias(p) && GlobMatch(p, s) && '\n' !in s
  {
    var s := f.tag + f.text[..j];
    FieldIsSteady(f);
    FieldIsLine(f);
    assert f.tag <= s && s[|f.tag|..] == f.text[..j];
  }

  lemma Regrouped(fs: seq<Field>, tail: string)
    requires fs != []
    ensures Pattern(fs) + tail == fs[0].tag + fs[0].glob + (Pattern(fs[1..]) + tail)
  {
  }

  lemma DistinguishedRest(before: seq<Field>, fs: seq<Field>)
    requires fs != [] && Distinguished(before + fs)
    ensures before + fs == before + [fs[0]] + fs[1..] && WellFormed(fs[0])
    ensures forall b <- before :: WellFormed(b) && !Occurs(fs[0].tag, b.tag)
    ensures forall f <- fs :: WellFormed(f)
  {
    var all := before + fs;
    assert all[|before|] == fs[0] && fs[0] in all;
    forall b | b in before
      ensures WellFormed(b) && !Occurs(fs[0].tag, b.tag)
    {
      var i :| 0 <= i < |before| && before[i] == b;
      assert all[i] == b && b in all;
    }
    forall f | f in fs ensures f in all { var i :| 0 <= i < |fs| && fs[i] == f; assert all[|before| + i] == f; }
  }

  /** The part of a text that f matched up to where f's text ends. */
  lemma InPlace(before: seq<Field>, f: Field, t: string, i: nat, j: nat)
    requires (forall b <- before :: WellFormed(b) && !Occurs(f.tag, b.tag)) && WellFormed(f)
    requires i + j <= |Signature(before) + f.tag + f.text|
    requires f.tag <= (Signature(before) + f.tag + f.text + t)[i..i + j]
    ensures i == |Signature(before)|
    ensures (Signature(before) + f.tag + f.text + t)[i..i + j][|f.tag|..] == f.text[..j - |f.tag|]
  {
    var s := Signature(before) + f.tag + f.text;
    assert f.tag <= s[i..] by { assert (s + t)[i..i + j] == s[i..][..j]; }
    TagPlace(before, f, i);
  }

  /** The part of u that a field matches, and the rest. */
  lemma FirstPart(f: Field, q: string, u: string) returns (j: nat)
    requires WellFormed(f) && PlainAlias(q) && '\n' !in u && RegexMatch(Rewrite(f.tag + f.glob + q), u)
    ensures j <= |u| && f.tag <= u[..j] && GlobMatch(f.glob, u[..j][|f.tag|..]) && RegexMatch(Rewrite(q), u[j..])
  {
    FieldIsSteady(f);
    j := RegexSplits(f.tag + f.glob, q, u);
  }

  lemma SuffixPart(fs: seq<Field>, tail: string, s: string, i: nat) returns (j: nat)
    requires fs != [] && (forall f <- fs :: WellFormed(f)) && Tail(tail) && i <= |s| && '\n' !in s
    requires RegexMatch(Rewrite(Pattern(fs) + tail), s[i..])
    ensures var f := fs[0];
      i + j <= |s| && f.tag <= s[i..i + j] && GlobMatch(f.glob, s[i..i + j][|f.tag|..])
    ensures RegexMatch(Rewrite(Pattern(fs[1..]) + tail), s[i + j..])
  {
    assert fs[0] in fs && forall x <- fs[1..] :: x in fs;
    TailMatches(tail, "");
    PatternIsPlain(fs[1..], tail);
    Regrouped(fs, tail);
    j := FirstPart(fs[0], Pattern(fs[1..]) + tail, s[i..]);
    assert s[i..][..j] == s[i..i + j] && s[i..][j..] == s[i + j..];
  }

  lemma Ungroup(a: string, b: string, c: string, d: string)
    ensures a + (b + c + d) == a + b + c + d
  {
  }

  lemma SignatureParts(before: seq<Field>, fs: seq<Field>)
    requires fs != []
    ensures Signature(before + fs) == Signature(before) + fs[0].tag + fs[0].text + Signature(fs[1..])
    ensures Signature(before + [fs[0]]) == Signature(before) + fs[0].tag + fs[0].text
  {
    var f := fs[0];
    SignatureConcat(before, fs);
    SignatureConcat(before, [f]);
    Ungroup(Signature(before), f.tag, f.text, Signature(fs[1..]));
    Ungroup(Signature(before), f.tag, f.text, "");
    assert [f][1..] == [];
    assert Signature([f]) == f.tag + f.text + "";
  }

  /** Whatever the rewritten alias matches, it matches field by field: no `.*`
      reaches into another field. */
  lemma {:induction false} MatchedFields(before: seq<Field>, fs: seq<Field>, tail: string, i: nat)
    requires fs != [] && Distinguished(before + fs) && Tail(tail) && i <= |Signature(before + fs)|
    requires RegexMatch(Rewrite(Pattern(fs) + tail), Signature(before + fs)[i..])
    ensures i == |Signature(before)| && FieldsMatch(fs)
    decreases |fs|
  {
    DistinguishedRest(before, fs);
    SignatureIsLine(before + fs);
    var j := SuffixPart(fs, tail, Signature(before + fs), i);
    if |fs| > 1 {
      assert before + [fs[0]] + fs[1..] == before + fs;
      MatchedFields(before + [fs[0]], fs[1..], tail, i + j);
    }
    FirstMatched(before, fs, i, j);
  }

  lemma FirstMatched(before: seq<Field>, fs: seq<Field>, i: nat, j: nat)
    requires fs != [] && i + j <= |Signature(before + fs)|
    requires (forall b <- before :: WellFormed(b) && !Occurs(fs[0].tag, b.tag)) && WellFormed(fs[0])
    requires var (f, u) := (fs[0], Signature(before + fs)[i..i + j]);
      f.tag <= u && GlobMatch(f.glob, u[|f.tag|..])
    requires |fs| > 1 ==> i + j == |Signature(before + [fs[0]])| && FieldsMatch(fs[1..])
    ensures i == |Signature(before)| && FieldsMatch(fs)
  {
    SignatureParts(before, fs);
    assert |fs| == 1 ==> Signature(fs[1..]) == "";
    InPlace(before, fs[0], Signature(fs[1..]), i, j);
    FieldThen(fs, j);
  }

  /** The first j characters end in the first field's text, or at its end. */
  lemma FieldThen(fs: seq<Field>, j: nat)
    requires fs != [] && |fs[0].tag| <= j <= |fs[0].tag + fs[0].text|
    requires GlobMatch(fs[0].glob, fs[0].text[..j - |fs[0].tag|])
    requires |fs| > 1 ==> j == |fs[0].tag + fs[0].text| && FieldsMatch(fs[1..])
    ensures FieldsMatch(fs)
  {
    if |fs| > 1 { assert fs[0].text[..|fs[0].text|] == fs[0].text; }
  }

  /** The rewritten alias matches a signature of its own form exactly when every
      field is matched. */
  lemma MatchesFieldwise(fs: seq<Field>, tail: string)
    requires fs != [] && Distinguished(fs) && Tail(tail)
    ensures RegexMatch(Rewrite(Pattern(fs) + tail), Signature(fs)) <==> FieldsMatch(fs)
  {
    if FieldsMatch(fs) { FieldsAreMatched(fs, tail); }
    if RegexMatch(Rewrite(Pattern(fs) + tail), Signature(fs)) {
      assert [] + fs == fs && Signature(fs)[0..] == Signature(fs);
      MatchedFields([], fs, tail, 0);
    }
  }
}
