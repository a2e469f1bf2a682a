/** The dependency rules printed by comp_unit/gen-dep.py and read back by
    `load_btobj_deps` of dependency/gen_objdep.py. */
module DepRules {
  import opened ObjTables
  import opened Options
  import opened Multimap
  import opened ObjDepsModel

  /** White space for Python, as far as ASCII goes. */
  predicate IsSpace(c: char) { c == ' ' || '\t' <= c <= '\r' || '\U{1C}' <= c <= '\U{1F}' }

  /** A name as `split` yields it: non-empty and without white space. */
  predicate IsToken(s: string) { s != "" && forall c <- s :: !IsSpace(c) }

  /** s.split(): the maximal runs without white space; `word` is the run at hand. */
  function Tokens(s: string, word: string): seq<string> {
    if s == "" then if word == "" then [] else [word]
    else if IsSpace(s[0]) then (if word == "" then [] else [word]) + Tokens(s[1..], "")
    else Tokens(s[1..], word + [s[0]])
  }

  /** s.split('\n'); `line` is the line at hand. */
  function Lines(s: string, line: string): seq<string> {
    if s == "" then [line]
    else if s[0] == '\n' then [line] + Lines(s[1..], "")
    else Lines(s[1..], line + [s[0]])
  }

  function StripLeft(s: string): string {
    if s != "" && IsSpace(s[0]) then StripLeft(s[1..]) else s
  }

  function StripRight(s: string): string {
    if s != "" && IsSpace(s[|s| - 1]) then StripRight(s[..|s| - 1]) else s
  }

  function Strip(s: string): string { StripRight(StripLeft(s)) }

  /** os.path.join */
  function JoinPath(dir: string, p: string): string {
    if p != "" && p[0] == '/' then p
    else if dir == "" || dir[|dir| - 1] == '/' then dir + p
    else dir + "/" + p
  }

  function Underscored(s: string): string {
    if s == "" then "" else [if s[0] == '-' then '_' else s[0]] + Underscored(s[1..])
  }

  /** How a name of the rules becomes an object name. */
  function Norm(build: string, o: string): Name { Name(Underscored(JoinPath(build, o))) }

  /** One rule without its line end: "linked: object object". */
  function Rule(linked: string, objs: seq<string>): string {
    linked + ":" + Spaced(objs)
  }

  function Spaced(objs: seq<string>): string {
    if objs == [] then "" else " " + objs[0] + Spaced(objs[1..])
  }

  datatype Group = Group(linked: string, objs: seq<string>)

  function Printed(groups: seq<Group>): string {
    if groups == [] then ""
    else Rule(groups[0].linked, groups[0].objs) + "\n" + Printed(groups[1..])
  }

  ghost predicate ValidGroups(groups: seq<Group>) {
    forall g <- groups :: IsToken(g.linked) && forall o <- g.objs :: IsToken(o)
  }

  /** What one line of the rules says: (object, linked), or nothing if the line
      is not a rule and the reader fails on it. */
  datatype Parsed = Bad | Rel(pairs: set<(Name, Name)>) {
    function And(other: Parsed): Parsed {
      if Rel? && other.Rel? then Rel(pairs + other.pairs) else Bad
    }
  }

  predicate IsHead(word: string) { word != "" && word[|word| - 1] == ':' }

  function ParseLine(build: string, line: string): Parsed {
    var words := Tokens(Strip(line), "");
    if words == [] || !IsHead(words[0]) then Bad
    else
      var linked := Norm(build, words[0][..|words[0]| - 1]);
      Rel(set o | o in words[1..] :: (Norm(build, o), linked))
  }

  function ParseLines(build: string, lines: seq<string>): Parsed {
    if lines == [] then Rel({})
    else
      var last := lines[|lines| - 1];
      ParseLines(build, lines[..|lines| - 1]).And(if last == "" then Rel({}) else ParseLine(build, last))
  }

  function ParseData(build: string, data: string): Parsed { ParseLines(build, Lines(Strip(data), "")) }

  lemma {:induction false} TokensWord(t: string, rest: string, word: string)
    requires forall c <- t :: !IsSpace(c)
    ensures Tokens(t + rest, word) == Tokens(rest, word + t)
  {
    if t == "" {
      assert t + rest == rest && word + t == word;
    } else {
      assert (t + rest)[1..] == t[1..] + rest && (t + rest)[0] == t[0];
      assert word + [t[0]] + t[1..] == word + t;
      assert t[0] in t;
      TokensWord(t[1..], rest, word + [t[0]]);
    }
  }

  lemma {:induction false} TokensSpaced(objs: seq<string>, word: string)
    requires word != "" && forall o <- objs :: IsToken(o)
    ensures Tokens(Spaced(objs), word) == [word] + objs
  {
    if objs != [] {
      var rest := Spaced(objs[1..]);
      assert Spaced(objs)[1..] == objs[0] + rest;
      assert IsToken(objs[0]);
      TokensWord(objs[0], rest, "");
      assert "" + objs[0] == objs[0];
      TokensSpaced(objs[1..], objs[0]);
      assert [word] + ([objs[0]] + objs[1..]) == [word] + objs;
    }
  }

  /** Splitting a rule gives back its names. */
  lemma RuleTokens(linked: string, objs: seq<string>)
    requires IsToken(linked) && forall o <- objs :: IsToken(o)
    ensures Tokens(Rule(linked, objs), "") == [linked + ":"] + objs
  {
    TokensWord(linked + ":", Spaced(objs), "");
    assert "" + (linked + ":") == linked + ":";
    TokensSpaced(objs, linked + ":");
  }

  /** s begins and ends with something other than white space. */
  predicate Trim(s: string) { s != "" && !IsSpace(s[0]) && !IsSpace(s[|s| - 1]) }

  lemma {:induction false} SpacedEnds(objs: seq<string>)
    requires forall o <- objs :: IsToken(o)
    ensures objs != [] ==> Spaced(objs) != "" && !IsSpace(Spaced(objs)[|Spaced(objs)| - 1])
    ensures '\n' !in Spaced(objs)
  {
    if objs != [] {
      SpacedEnds(objs[1..]);
      assert IsToken(objs[0]);
      assert objs[0][|objs[0]| - 1] in objs[0];
    }
  }

  lemma RuleTrim(linked: string, objs: seq<string>)
    requires IsToken(linked) && forall o <- objs :: IsToken(o)
    ensures Trim(Rule(linked, objs)) && '\n' !in Rule(linked, objs)
  {
    SpacedEnds(objs);
    assert linked[0] in linked;
  }

  /** A printed rule reads back as its pairs. */
  lemma RuleReadsBack(build: string, g: Group)
    requires IsToken(g.linked) && forall o <- g.objs :: IsToken(o)
    ensures ParseLine(build, Rule(g.linked, g.objs)) == Rel(GroupPairs(build, g))
  {
    var line := Rule(g.linked, g.objs);
    RuleTrim(g.linked, g.objs);
    assert Strip(line) == line;
    RuleTokens(g.linked, g.objs);
    var head := g.linked + ":";
    assert head[..|head| - 1] == g.linked;
    assert ([head] + g.objs)[1..] == g.objs;
  }

  function GroupPairs(build: string, g: Group): set<(Name, Name)> {
    set o | o in g.objs :: (Norm(build, o), Norm(build, g.linked))
  }

  function GroupsPairs(build: string, groups: seq<Group>): set<(Name, Name)> {
    set g, p | g in groups && p in GroupPairs(build, g) :: p
  }

  /** The printed rules without the last line end. */
  function Body(groups: seq<Group>): string
    requires groups != []
  {
    Rule(groups[0].linked, groups[0].objs) + if |groups| == 1 then "" else "\n" + Body(groups[1..])
  }

  function RuleLines(groups: seq<Group>): seq<string> {
    seq(|groups|, i requires 0 <= i < |groups| => Rule(groups[i].linked, groups[i].objs))
  }

  lemma {:induction false} PrintedBody(groups: seq<Group>)
    requires groups != [] && ValidGroups(groups)
    ensures Printed(groups) == Body(groups) + "\n" && Trim(Body(groups))
  {
    RuleTrim(groups[0].linked, groups[0].objs);
    if |groups| > 1 {
      PrintedBody(groups[1..]);
    } else {
      assert Printed(groups[1..]) == "";
    }
  }

  lemma {:induction false} LinesOfLine(line: string, rest: string, word: string)
    requires '\n' !in line
    ensures Lines(line + "\n" + rest, word) == [word + line] + Lines(rest, "")
    ensures Lines(line, word) == [word + line]
  {
    if line == "" {
      assert line + "\n" + rest == "\n" + rest && word + line == word;
    } else {
      assert (line + "\n" + rest)[1..] == line[1..] + "\n" + rest && (line + "\n" + rest)[0] == line[0];
      assert word + [line[0]] + line[1..] == word + line;
      LinesOfLine(line[1..], rest, word + [line[0]]);
    }
  }

  lemma {:induction false} LinesOfBody(groups: seq<Group>)
    requires groups != [] && ValidGroups(groups)
    ensures Lines(Body(groups), "") == RuleLines(groups)
  {
    var line := Rule(groups[0].linked, groups[0].objs);
    RuleTrim(groups[0].linked, groups[0].objs);
    assert "" + line == line;
    if |groups| == 1 {
      LinesOfLine(line, "", "");
      assert Body(groups) == line;
    } else {
      LinesOfBody(groups[1..]);
      LinesOfLine(line, Body(groups[1..]), "");
      assert Body(groups) == line + "\n" + Body(groups[1..]);
      assert RuleLines(groups) == [line] + RuleLines(groups[1..]);
    }
  }

  lemma {:induction false} LinesReadBack(build: string, groups: seq<Group>)
    requires ValidGroups(groups)
    ensures ParseLines(build, RuleLines(groups)) == Rel(GroupsPairs(build, groups))
  {
    if groups != [] {
      var n := |groups| - 1;
      LinesReadBack(build, groups[..n]);
      assert RuleLines(groups)[..n] == RuleLines(groups[..n]);
      RuleTrim(groups[n].linked, groups[n].objs);
      RuleReadsBack(build, groups[n]);
      assert groups == groups[..n] + [groups[n]];
      PairsOfLast(build, groups);
    }
  }

  lemma PairsOfLast(build: string, groups: seq<Group>)
    requires groups != []
    ensures var n := |groups| - 1;
      GroupsPairs(build, groups) == GroupsPairs(build, groups[..n]) + GroupPairs(build, groups[n])
  {
    var n := |groups| - 1;
    assert forall g :: g in groups <==> g in groups[..n] || g == groups[n];
  }

  /** Reading the printed rules gives exactly the inverse of their pairs. */
  lemma RulesReadBack(build: string, groups: seq<Group>)
    requires ValidGroups(groups)
    ensures ParseData(build, Printed(groups)) == Rel(GroupsPairs(build, groups))
  {
    if groups == [] {
      assert Lines("", "") == [""];
      assert GroupsPairs(build, groups) == {};
      assert ParseLines(build, [""]) == ParseLines(build, [""][..0]).And(Rel({}));
    } else {
      var body := Body(groups);
      PrintedBody(groups);
      assert (body + "\n")[..|body|] == body;
      assert StripRight(body + "\n") == StripRight(body) == body;
      LinesOfBody(groups);
      LinesReadBack(build, groups);
    }
  }

  /** Every line has two words. */
  predicate AllSplit(input: seq<string>) {
    forall l <- input :: |Tokens(StripRight(l), "")| >= 2
  }

  ghost predicate Collected(objCu: map<string, seq<string>>, input: seq<string>) {
    AllSplit(input) && HoldsPairs(objCu, input) && HoldsLists(objCu, input)
  }

  function AddPair(objCu: map<string, seq<string>>, obj: string, cu: string): map<string, seq<string>> {
    objCu[obj := (if obj in objCu then objCu[obj] else []) + [cu]]
  }

  lemma CollectStart()
    ensures Collected(map[], [])
  {
  }

  lemma PrefixNext<T>(s: seq<T>, i: nat)
    requires i < |s|
    ensures s[..i + 1] == s[..i] + [s[i]]
  {
  }

  lemma WordsAreTokens(l: string)
    ensures forall i :: 0 <= i < |Tokens(StripRight(l), "")| ==> IsToken(Tokens(StripRight(l), "")[i])
  {
    TokensAreTokens(StripRight(l), "");
  }

  lemma CollectOne(objCu: map<string, seq<string>>, seen: seq<string>, l: string, obj: string, cu: string)
    requires Collected(objCu, seen) && Says(l, obj, cu) && IsToken(obj) && IsToken(cu)
    ensures Collected(AddPair(objCu, obj, cu), seen + [l])
  {
    PairAdded(objCu, seen, l, obj, cu);
    ListAdded(objCu, seen, l, obj, cu);
    SplitMore(seen, l);
  }

  lemma SplitMore(seen: seq<string>, l: string)
    requires AllSplit(seen) && |Tokens(StripRight(l), "")| >= 2
    ensures AllSplit(seen + [l])
  {
  }

  /** One line, on values: it is filed, or too short. */
  lemma CollectStep(objCu: map<string, seq<string>>, input: seq<string>, i: nat)
    requires i < |input| && Collected(objCu, input[..i])
    ensures var sp := Tokens(StripRight(input[i]), "");
      if |sp| < 2 then !AllSplit(input) else Collected(AddPair(objCu, sp[0], sp[1]), input[..i + 1])
  {
    var (l, sp) := (input[i], Tokens(StripRight(input[i]), ""));
    if |sp| < 2 {
      assert l in input;
    } else {
      WordsAreTokens(l);
      CollectOne(objCu, input[..i], l, sp[0], sp[1]);
      PrefixNext(input, i);
    }
  }

  /** `obj_cu` of gen-dep.py: the second word of every line, under the first. */
  method CollectPairs(input: seq<string>) returns (r: Option<map<string, seq<string>>>)
    ensures r.Some? ==> Collected(r.value, input)
    ensures r.None? ==> !AllSplit(input)
  {
    var objCu: map<string, seq<string>> := map[];
    CollectStart();
    for i := 0 to |input|
      invariant Collected(objCu, input[..i])
    {
      CollectStep(objCu, input, i);
      var sp := Tokens(StripRight(input[i]), "");
      if |sp| < 2 {
        return None;
      }
      objCu := AddPair(objCu, sp[0], sp[1]);
    }
    assert input[..|input|] == input;
    return Some(objCu);
  }

  /** A line of input says that its first word depends on its second. */
  predicate Says(l: string, obj: string, cu: string) {
    var sp := Tokens(StripRight(l), "");
    |sp| >= 2 && sp[0] == obj && sp[1] == cu
  }

  ghost predicate HoldsPairs(objCu: map<string, seq<string>>, input: seq<string>) {
    && (forall o <- objCu :: IsToken(o) && forall c <- objCu[o] :: IsToken(c) && exists l <- input :: Says(l, o, c))
    && (forall l <- input, o, c :: Says(l, o, c) ==> o in objCu && c in objCu[o])
  }

  /** The second words of the lines that start with obj, in order. */
  function CusOf(input: seq<string>, obj: string): seq<string> {
    if input == [] then []
    else
      var (rest, sp) := (input[..|input| - 1], Tokens(StripRight(input[|input| - 1]), ""));
      CusOf(rest, obj) + if |sp| >= 2 && sp[0] == obj then [sp[1]] else []
  }

  ghost predicate HoldsLists(objCu: map<string, seq<string>>, input: seq<string>) {
    forall o :: CusOf(input, o) == if o in objCu then objCu[o] else []
  }

  lemma ListAdded(objCu: map<string, seq<string>>, input: seq<string>, l: string, obj: string, cu: string)
    requires HoldsLists(objCu, input) && Says(l, obj, cu)
    ensures HoldsLists(AddPair(objCu, obj, cu), input + [l])
  {
    forall o
      ensures CusOf(input + [l], o) == CusOf(input, o) + if o == obj then [cu] else []
    {
      assert (input + [l])[..|input|] == input;
    }
  }

  lemma PairAdded(objCu: map<string, seq<string>>, input: seq<string>, l: string, obj: string, cu: string)
    requires HoldsPairs(objCu, input) && IsToken(obj) && IsToken(cu)
    requires Says(l, obj, cu)
    ensures HoldsPairs(AddPair(objCu, obj, cu), input + [l])
  {
    var more := AddPair(objCu, obj, cu);
    var lines := input + [l];
    assert l in lines;
    forall o, c | o in more && c in more[o]
      ensures IsToken(c) && exists x <- lines :: Says(x, o, c)
    {
      if o in objCu && c in objCu[o] {
        var x :| x in input && Says(x, o, c);
        assert x in lines;
      }
    }
    forall x, o, c | x in lines && Says(x, o, c)
      ensures o in more && c in more[o]
    {
      if x in input { assert o in objCu && c in objCu[o]; }
    }
  }

  lemma {:induction false} TokensAreTokens(s: string, word: string)
    requires forall c <- word :: !IsSpace(c)
    ensures forall t <- Tokens(s, word) :: IsToken(t)
  {
    if s != "" {
      if IsSpace(s[0]) { TokensAreTokens(s[1..], ""); } else { TokensAreTokens(s[1..], word + [s[0]]); }
    }
  }

  /** The order of strings: by the first character that differs. */
  predicate Less(a: string, b: string)
    decreases |b|
  {
    b != "" && (a == "" || a[0] < b[0] || (a[0] == b[0] && Less(a[1..], b[1..])))
  }

  lemma {:induction false} LessTransitive(a: string, b: string, c: string)
    requires Less(a, b) && Less(b, c)
    ensures Less(a, c)
    decreases |a|
  {
    if a != "" && a[0] == b[0] && b[0] == c[0] { LessTransitive(a[1..], b[1..], c[1..]); }
  }

  lemma {:induction false} LessTotal(a: string, b: string)
    ensures a == b || Less(a, b) || Less(b, a)
    decreases |a|
  {
    if a != "" && b != "" && a[0] == b[0] {
      LessTotal(a[1..], b[1..]);
      assert a == [a[0]] + a[1..] && b == [b[0]] + b[1..];
    }
  }

  method First(names: set<string>) returns (m: string)
    requires names != {}
    ensures m in names && forall k <- names :: k == m || Less(m, k)
  {
    m :| m in names;
    var rest := names - {m};
    while rest != {}
      invariant rest <= names && m in names
      invariant forall k <- names :: k in rest || k == m || Less(m, k)
      decreases rest
    {
      var k :| k in rest;
      LessTotal(m, k);
      if Less(k, m) {
        forall x | x in names && Less(m, x)
          ensures Less(k, x)
        {
          LessTransitive(k, m, x);
        }
        m := k;
      }
      rest := rest - {k};
    }
  }

  /** One group for each object, in the order of the objects. */
  ghost predicate Sorted(groups: seq<Group>) {
    forall i, j :: 0 <= i < j < |groups| ==> Less(groups[i].linked, groups[j].linked)
  }

  lemma {:induction false} PrintedAppend(groups: seq<Group>, g: Group)
    ensures Printed(groups + [g]) == Printed(groups) + (Rule(g.linked, g.objs) + "\n")
  {
    if groups == [] {
      assert (groups + [g])[1..] == [] && Printed([]) == "";
    } else {
      assert (groups + [g])[1..] == groups[1..] + [g];
      PrintedAppend(groups[1..], g);
    }
  }

  /** What has been grouped when `todo` is left: the other objects, in order. */
  ghost predicate Grouped(objCu: map<string, seq<string>>, todo: set<string>, groups: seq<Group>) {
    && todo <= objCu.Keys && Sorted(groups)
    && (forall g <- groups :: g.linked in objCu && g.objs == objCu[g.linked])
    && (forall g <- groups, k <- todo :: Less(g.linked, k))
    && (forall o <- objCu.Keys - todo :: Group(o, objCu[o]) in groups)
  }

  lemma GroupStep(objCu: map<string, seq<string>>, todo: set<string>, groups: seq<Group>, obj: string)
    requires Grouped(objCu, todo, groups) && obj in todo && forall k <- todo :: k == obj || Less(obj, k)
    ensures Grouped(objCu, todo - {obj}, groups + [Group(obj, objCu[obj])])
  {
    var more := groups + [Group(obj, objCu[obj])];
    assert forall i :: 0 <= i < |groups| ==> groups[i] in groups;
    assert forall g <- more :: g in groups || g == Group(obj, objCu[obj]);
    assert forall g <- groups :: g in more;
  }

  /** All objects grouped: the groups hold the pairs of the input. */
  lemma GroupsRender(objCu: map<string, seq<string>>, groups: seq<Group>, input: seq<string>)
    requires Grouped(objCu, {}, groups) && Collected(objCu, input)
    ensures ValidGroups(groups) && Renders(groups, input)
    ensures forall g <- groups :: g.objs == CusOf(input, g.linked)
  {
    forall o, c
      ensures Lists(groups, o, c) <==> SaidBy(input, o, c)
    {
      if SaidBy(input, o, c) { assert o in objCu.Keys - {} && Group(o, objCu[o]) in groups; }
    }
  }

  /** gen-dep.py prints one rule per object, sorted by object, with the second
      words of its lines in their order. */
  method GenDep(input: seq<string>) returns (r: Option<string>, ghost groups: seq<Group>)
    ensures r.Some? <==> AllSplit(input)
    ensures r.Some? ==> r.value == Printed(groups) && ValidGroups(groups) && Renders(groups, input)
    ensures r.Some? ==> Sorted(groups) && forall g <- groups :: g.objs == CusOf(input, g.linked)
  {
    groups := [];
    var collected := CollectPairs(input);
    if collected.None? {
      return None, groups;
    }
    var objCu := collected.value;
    var todo := objCu.Keys;
    var out := "";
    while todo != {}
      invariant out == Printed(groups) && Grouped(objCu, todo, groups)
      decreases todo
    {
      var obj := First(todo);
      GroupStep(objCu, todo, groups, obj);
      todo := todo - {obj};
      var rule := PrintRule(obj, objCu[obj]);
      out := out + rule;
      PrintedAppend(groups, Group(obj, objCu[obj]));
      groups := groups + [Group(obj, objCu[obj])];
    }
    GroupsRender(objCu, groups, input);
    return Some(out), groups;
  }

  method PrintRule(obj: string, cus: seq<string>) returns (out: string)
    ensures out == Rule(obj, cus) + "\n"
  {
    out := obj + ":";
    for i := 0 to |cus|
      invariant out + Spaced(cus[i..]) == Rule(obj, cus)
    {
      assert cus[i..][1..] == cus[i + 1..];
      out := out + (" " + cus[i]);
    }
    assert Spaced(cus[|cus|..]) == "";
    out := out + "\n";
  }

  ghost predicate Lists(groups: seq<Group>, o: string, c: string) {
    exists g <- groups :: g.linked == o && c in g.objs
  }

  ghost predicate SaidBy(input: seq<string>, o: string, c: string) {
    exists l <- input :: Says(l, o, c)
  }

  /** The groups hold exactly the pairs of the input lines. */
  ghost predicate Renders(groups: seq<Group>, input: seq<string>) {
    forall o, c :: Lists(groups, o, c) <==> SaidBy(input, o, c)
  }

  /** p is a pair of the input, inverted and renamed. */
  ghost predicate Inverts(build: string, input: seq<string>, p: (Name, Name)) {
    exists o, c :: SaidBy(input, o, c) && p == (Norm(build, c), Norm(build, o))
  }

  /** Printing and reading back inverts the pairs, up to the renaming. */
  lemma PrintThenLoad(build: string, groups: seq<Group>, input: seq<string>)
    requires ValidGroups(groups) && Renders(groups, input)
    ensures ParseData(build, Printed(groups)).Rel?
    ensures forall p :: p in ParseData(build, Printed(groups)).pairs <==> Inverts(build, input, p)
  {
    RulesReadBack(build, groups);
    forall p ensures p in GroupsPairs(build, groups) <==> Inverts(build, input, p) {
      PairInverts(build, groups, input, p);
    }
  }

  lemma PairInverts(build: string, groups: seq<Group>, input: seq<string>, p: (Name, Name))
    requires Renders(groups, input)
    ensures p in GroupsPairs(build, groups) <==> Inverts(build, input, p)
  {
    if p in GroupsPairs(build, groups) {
      var g :| g in groups && p in GroupPairs(build, g);
      var c :| c in g.objs && p == (Norm(build, c), Norm(build, g.linked));
      assert Lists(groups, g.linked, c);
    }
    if o, c :| SaidBy(input, o, c) && p == (Norm(build, c), Norm(build, o)) {
      assert Lists(groups, o, c);
      var g :| g in groups && g.linked == o && c in g.objs;
      assert p in GroupPairs(build, g);
    }
  }

  /** The dictionary holds the relation, with a set object of its own per key. */
  ghost predicate HoldsRel(sets: map<Name, NameSet>, pairs: set<(Name, Name)>)
    reads sets.Values
  {
    && ObjDeps.Distinct(sets) && sets.Keys == Firsts(pairs)
    && forall k <- sets :: sets[k].elems == Image(pairs, k)
  }

  lemma LineRead(build: string, lines: seq<string>, i: nat)
    requires i < |lines| && ParseLines(build, lines[..i]).Rel?
    ensures var (seen, words) := (ParseLines(build, lines[..i]).pairs, Tokens(Strip(lines[i]), ""));
      ParseLines(build, lines[..i + 1]) ==
        if lines[i] == "" then Rel(seen)
        else if words == [] || !IsHead(words[0]) then Bad
        else Rel(seen + ObjPairs(build, words[1..], Norm(build, words[0][..|words[0]| - 1])))
  {
    var (seen, line) := (lines[..i], lines[..i + 1]);
    assert line[..i] == seen && line[i] == lines[i];
    if lines[i] == "" { assert ParseLines(build, seen).pairs + {} == ParseLines(build, seen).pairs; }
  }

  /** `load_btobj_deps`; it fails on a line that is not a rule. */
  method LoadBtobjDeps(build: string, data: string) returns (r: Option<map<Name, NameSet>>)
    ensures r.Some? <==> ParseData(build, data).Rel?
    ensures r.Some? ==> HoldsRel(r.value, ParseData(build, data).pairs)
  {
    var lines := Lines(Strip(data), "");
    var revdeps: map<Name, NameSet> := map[];
    for i := 0 to |lines|
      invariant ParseLines(build, lines[..i]).Rel?
      invariant HoldsRel(revdeps, ParseLines(build, lines[..i]).pairs)
      invariant forall k <- revdeps :: fresh(revdeps[k])
    {
      LineRead(build, lines, i);
      if lines[i] == "" {
        continue;
      }
      var words := Tokens(Strip(lines[i]), "");
      if words == [] || !IsHead(words[0]) {
        BadLine(build, lines, i);
        return None;
      }
      var linked := Norm(build, words[0][..|words[0]| - 1]);
      revdeps := AddObjects(build, linked, words[1..], revdeps, ParseLines(build, lines[..i]).pairs);
    }
    assert lines[..|lines|] == lines;
    return Some(revdeps);
  }

  lemma {:induction false} BadLine(build: string, lines: seq<string>, i: nat)
    requires i < |lines| && lines[i] != "" && ParseLine(build, lines[i]).Bad?
    ensures ParseLines(build, lines).Bad?
  {
    var n := |lines| - 1;
    if i < n { BadLine(build, lines[..n], i); }
  }

  function ObjPairs(build: string, objs: seq<string>, linked: Name): set<(Name, Name)> {
    set o | o in objs :: (Norm(build, o), linked)
  }

  lemma ObjPairsNext(build: string, objs: seq<string>, i: nat, linked: Name, pairs: set<(Name, Name)>)
    requires i < |objs|
    ensures pairs + ObjPairs(build, objs[..i + 1], linked) ==
      pairs + ObjPairs(build, objs[..i], linked) + {(Norm(build, objs[i]), linked)}
  {
    assert objs[..i + 1] == objs[..i] + [objs[i]];
  }

  method AddObjects(build: string, linked: Name, objs: seq<string>, before: map<Name, NameSet>,
                    ghost pairs: set<(Name, Name)>)
    returns (revdeps: map<Name, NameSet>)
    requires HoldsRel(before, pairs)
    modifies before.Values
    ensures HoldsRel(revdeps, pairs + ObjPairs(build, objs, linked))
    ensures forall k <- revdeps :: revdeps[k] in before.Values || fresh(revdeps[k])
  {
    revdeps := before;
    for i := 0 to |objs|
      invariant HoldsRel(revdeps, pairs + ObjPairs(build, objs[..i], linked))
      invariant forall k <- revdeps :: revdeps[k] in before.Values || fresh(revdeps[k])
    {
      ObjPairsNext(build, objs, i, linked, pairs);
      revdeps := AddTo(revdeps, Norm(build, objs[i]), linked, pairs + ObjPairs(build, objs[..i], linked));
    }
    assert objs[..|objs|] == objs;
  }

  /** obj_build_revdeps[key].add(linked) on a defaultdict. */
  method AddTo(before: map<Name, NameSet>, key: Name, linked: Name, ghost rel: set<(Name, Name)>)
    returns (revdeps: map<Name, NameSet>)
    requires HoldsRel(before, rel)
    modifies before.Values
    ensures HoldsRel(revdeps, rel + {(key, linked)})
    ensures forall k <- revdeps :: revdeps[k] in before.Values || fresh(revdeps[k])
  {
    revdeps := before;
    if key !in revdeps {
      var cell := new NameSet({});
      revdeps := revdeps[key := cell];
    }
    var cell := revdeps[key];
    cell.Add(linked);
    assert Image(rel + {(key, linked)}, key) == Image(rel, key) + {linked};
    assert forall k :: k != key ==> Image(rel + {(key, linked)}, k) == Image(rel, k);
  }

  lemma {:induction false} UnderscoredIs(s: string)
    ensures |Underscored(s)| == |s|
    ensures forall i :: 0 <= i < |s| ==> Underscored(s)[i] == if s[i] == '-' then '_' else s[i]
  {
    if s != "" { UnderscoredIs(s[1..]); }
  }

  /** A name of the rules, put behind the build directory unless it is absolute,
      and with `_` for every `-`. */
  lemma NormIs(build: string, o: string)
    ensures var (n, p) := (Norm(build, o).text,
                           if "/" <= o then o else if build == "" || build[|build| - 1] == '/' then build + o
                           else build + "/" + o);
      '-' !in n && |n| == |p| && forall i :: 0 <= i < |p| ==> n[i] == if p[i] == '-' then '_' else p[i]
  {
    UnderscoredIs(JoinPath(build, o));
  }

  /** The words of a text: those before a white space, then those after it; a
      text without white space is one word. */
  lemma {:induction false} TokensSplit(a: string, c: char, b: string, word: string)
    requires c in {' ', '\t', '\n', '\U{B}', '\U{C}', '\r', '\U{1C}', '\U{1D}', '\U{1E}', '\U{1F}'}
    ensures Tokens(a + [c] + b, word) == Tokens(a, word) + Tokens(b, "")
  {
    if a == "" {
      assert a + [c] + b == [c] + b && ([c] + b)[1..] == b;
    } else {
      assert (a + [c] + b)[1..] == a[1..] + [c] + b && (a + [c] + b)[0] == a[0];
      TokensSplit(a[1..], c, b, if IsSpace(a[0]) then "" else word + [a[0]]);
    }
  }

  lemma TokensOfWord(w: string)
    requires w != "" && forall c <- w :: c > ' ' && c < '\U{7F}'
    ensures Tokens(w, "") == [w]
  {
    TokensWord(w, "", "");
    assert w + "" == w && "" + w == w;
  }

  lemma {:induction false} StripLeftIs(s: string) returns (i: nat)
    ensures i <= |s| && StripLeft(s) == s[i..] && forall k :: 0 <= k < i ==> IsSpace(s[k])
    ensures i < |s| ==> !IsSpace(s[i])
  {
    i := 0;
    if s != "" && IsSpace(s[0]) {
      var j := StripLeftIs(s[1..]);
      i := j + 1;
    }
  }

  lemma {:induction false} StripRightIs(s: string) returns (j: nat)
    ensures j <= |s| && StripRight(s) == s[..j] && forall k :: j <= k < |s| ==> IsSpace(s[k])
    ensures j > 0 ==> !IsSpace(s[j - 1])
  {
    j := |s|;
    if s != "" && IsSpace(s[|s| - 1]) { j := StripRightIs(s[..|s| - 1]); } else { assert s[..|s|] == s; }
  }

  /** What strip leaves: the text but for the white space at its two ends. */
  lemma StripIs(s: string) returns (i: nat, j: nat)
    ensures i <= j <= |s| && Strip(s) == s[i..j]
    ensures (forall k :: 0 <= k < i ==> IsSpace(s[k])) && forall k :: j <= k < |s| ==> IsSpace(s[k])
    ensures i < j ==> !IsSpace(s[i]) && !IsSpace(s[j - 1])
  {
    i := StripLeftIs(s);
    var n := StripRightIs(s[i..]);
    j := i + n;
  }

  /** "linked: object object": one space before each object. */
  lemma {:induction false} RuleIs(linked: string, objs: seq<string>, o: string)
    ensures Rule(linked, []) == linked + ":"
    ensures Rule(linked, objs + [o]) == Rule(linked, objs) + " " + o
  {
    SpacedMore(objs, o);
    assert Spaced([]) == "" && linked + ":" + "" == linked + ":";
    assert linked + ":" + (Spaced(objs) + " " + o) == linked + ":" + Spaced(objs) + " " + o;
  }

  lemma {:induction false} SpacedMore(objs: seq<string>, o: string)
    ensures Spaced(objs + [o]) == Spaced(objs) + " " + o
  {
    if objs == [] {
      assert (objs + [o])[1..] == [] && Spaced([]) == "";
      assert " " + o + "" == "" + " " + o;
    } else {
      assert (objs + [o])[1..] == objs[1..] + [o];
      SpacedMore(objs[1..], o);
      assert " " + objs[0] + (Spaced(objs[1..]) + " " + o) == " " + objs[0] + Spaced(objs[1..]) + " " + o;
    }
  }

  /** a and b share k characters, and then a ends or has the smaller one. */
  predicate SmallerAt(a: string, b: string, k: nat) {
    k <= |a| && k < |b| && a[..k] == b[..k] && (k == |a| || a[k] < b[k])
  }

  lemma {:induction false} LessIs(a: string, b: string)
    ensures Less(a, b) <==> exists k: nat :: SmallerAt(a, b, k)
    decreases |b|
  {
    if b != "" && a != "" && a[0] == b[0] {
      LessIs(a[1..], b[1..]);
      if k: nat :| SmallerAt(a, b, k) {
        assert k > 0 && a[..k] == [a[0]] + a[1..][..k - 1] && b[..k] == [b[0]] + b[1..][..k - 1];
        assert a[..k][1..] == a[1..][..k - 1] && b[..k][1..] == b[1..][..k - 1];
        assert SmallerAt(a[1..], b[1..], k - 1);
      }
      if k: nat :| SmallerAt(a[1..], b[1..], k) {
        assert a[..k + 1] == [a[0]] + a[1..][..k] && b[..k + 1] == [b[0]] + b[1..][..k];
        assert SmallerAt(a, b, k + 1);
      }
    } else if b != "" {
      if k: nat :| SmallerAt(a, b, k) {
        if k > 0 { assert a[..k][0] == b[..k][0]; }
      }
      if Less(a, b) { assert SmallerAt(a, b, 0); }
    }
  }

  /** Earlier lines come first. */
  lemma {:induction false} CusOfConcat(a: seq<string>, b: seq<string>, o: string)
    ensures CusOf(a + b, o) == CusOf(a, o) + CusOf(b, o)
  {
    if b == [] {
      assert a + b == a;
    } else {
      var n := |b| - 1;
      assert (a + b)[..|a| + n] == a + b[..n] && (a + b)[|a| + n] == b[n];
      CusOfConcat(a, b[..n], o);
    }
  }

  /** The line "a c" files c under a. */
  lemma LineIs(a: string, c: string, o: string)
    requires IsToken(a) && IsToken(c)
    ensures CusOf([a + " " + c], o) == if o == a then [c] else []
    ensures Says(a + " " + c, a, c)
  {
    var line := a + " " + c;
    assert c[|c| - 1] in c && line[|line| - 1] == c[|c| - 1];
    assert StripRight(line) == line;
    TokensSplit(a, ' ', c, "");
    TokensWord(a, "", "");
    TokensWord(c, "", "");
    assert a + "" == a && "" + a == a && c + "" == c && "" + c == c;
    assert Tokens(line, "") == [a, c];
    assert [line][..0] == [];
  }

  /** The rule "l: o" says that l is linked from o. */
  lemma OneRule(build: string, l: string, o: string)
    requires IsToken(l) && IsToken(o)
    ensures ParseData(build, l + ": " + o + "\n") == Rel({(Norm(build, o), Norm(build, l))})
  {
    var g := Group(l, [o]);
    RuleIs(l, [], o);
    assert [] + [o] == [o] && l + ":" + " " + o == l + ": " + o;
    assert Printed([g]) == Rule(l, [o]) + "\n" + Printed([g][1..]) && Printed([g][1..]) == "";
    assert Rule(l, [o]) + "\n" + "" == l + ": " + o + "\n";
    RulesReadBack(build, [g]);
    assert GroupPairs(build, g) == {(Norm(build, o), Norm(build, l))};
    assert GroupsPairs(build, [g]) == GroupPairs(build, g);
  }
}
