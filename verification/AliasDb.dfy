/** load_db of kernel_patch/hwfilter.py: device aliases, rewritten from shell
    patterns to regular expressions, are matched against a machine's devices. */
module AliasDb {
  import opened Glob
  import opened Options

  predicate Wild(c: char) { c == '*' || c == '?' }

  /** `*` becomes `.*` and `?` becomes `.?`, wherever they stand. */
  function Rewrite(p: string): (q: string)
    ensures q == "" <==> p == ""
    ensures p != "" ==> q[0] == if Wild(p[0]) then '.' else p[0]
  {
    if p == "" then "" else (if Wild(p[0]) then ['.', p[0]] else [p[0]]) + Rewrite(p[1..])
  }

  /** Different aliases stay different: the database keeps one entry for each. */
  lemma {:induction false} RewriteIsInjective(p: string, q: string)
    ensures Rewrite(p) == Rewrite(q) ==> p == q
    decreases |p|
  {
    if Rewrite(p) == Rewrite(q) && p != "" && q != "" {
      RewriteHead(p);
      RewriteHead(q);
      var (a, b) := (Rewrite(p), Rewrite(q));
      if Wild(p[0]) <==> Wild(q[0]) {
        RewriteIsInjective(p[1..], q[1..]);
        assert p == [p[0]] + p[1..] && q == [q[0]] + q[1..];
      }
    }
  }

  /** How many characters of the rewritten text the first character takes, and
      that an unrewritten one is not followed by a star or question mark. */
  lemma RewriteHead(p: string)
    requires p != ""
    ensures Wild(p[0]) ==> |Rewrite(p)| >= 2 && Rewrite(p)[1] == p[0] && Rewrite(p)[2..] == Rewrite(p[1..])
    ensures !Wild(p[0]) ==> Rewrite(p)[1..] == Rewrite(p[1..])
    ensures !Wild(p[0]) && |Rewrite(p)| >= 2 ==> !Wild(Rewrite(p)[1])
  {
  }

  /** The expression at the start of p: a bracket expression or one character. */
  function AtomEnd(p: string): (k: nat)
    requires p != ""
    ensures 1 <= k <= |p|
  {
    if IsBracket(p) then Closing(p, BodyStart(p) + 1) + 1 else 1
  }

  predicate AtomHas(p: string, c: char)
    requires p != ""
  {
    if IsBracket(p) then InClass(p[1..AtomEnd(p) - 1], c)
    else if p[0] == '.' then c != '\n'
    else p[0] == c
  }

  /** Regular expressions without `\\ ^ $ + ( ) { } |`, matched from the start of
      s but not necessarily to its end, as re.match does. */
  predicate RegexMatch(p: string, s: string)
    decreases |p|, |s|
  {
    if p == "" then true
    else
      var k := AtomEnd(p);
      if k < |p| && p[k] == '*' then
        RegexMatch(p[k + 1..], s) || (s != "" && AtomHas(p, s[0]) && RegexMatch(p, s[1..]))
      else if k < |p| && p[k] == '?' then
        RegexMatch(p[k + 1..], s) || (s != "" && AtomHas(p, s[0]) && RegexMatch(p[k + 1..], s[1..]))
      else
        s != "" && AtomHas(p, s[0]) && RegexMatch(p[k..], s[1..])
  }

  /** Lists that mean the same in both notations: nothing that one of them
      treats specially, and no descending range. */
  predicate PlainClass(body: string) {
    && body != "" && body[0] !in "!^"
    && (forall c <- body :: !Wild(c) && c != '[' && c != '\\')
    && forall i :: 0 < i < |body| - 1 && body[i] == '-' ==> body[i - 1] <= body[i + 1]
  }

  /** Aliases of plain characters, bracket expressions, `*` and `?`. */
  predicate PlainAlias(p: string)
    decreases |p|
  {
    p != "" ==>
      if p[0] == '[' then
        IsBracket(p) && PlainClass(p[1..Closing(p, 2)]) && PlainAlias(p[Closing(p, 2) + 1..])
      else p[0] !in "\\^$+(){}|" && PlainAlias(p[1..])
  }

  lemma {:induction false} RewriteKeeps(lit: string, rest: string)
    requires forall c <- lit :: !Wild(c)
    ensures Rewrite(lit + rest) == lit + Rewrite(rest)
  {
    if lit == "" {
      assert lit + rest == rest;
    } else {
      RewriteHead(lit + rest);
      assert (lit + rest)[1..] == lit[1..] + rest;
      RewriteKeeps(lit[1..], rest);
      assert lit == [lit[0]] + lit[1..];
    }
  }

  lemma RewriteSplits(p: string, n: nat)
    requires n <= |p| && forall c <- p[..n] :: !Wild(c)
    ensures n <= |Rewrite(p)| && Rewrite(p)[..n] == p[..n] && Rewrite(p)[n..] == Rewrite(p[n..])
  {
    var (lit, rest) := (p[..n], p[n..]);
    assert p == lit + rest;
    RewriteKeeps(lit, rest);
  }

  lemma BracketIsPlain(p: string)
    requires PlainAlias(p) && p != "" && p[0] == '['
    ensures BodyStart(p) == 1 && Closing(p, 2) < |p|
    ensures forall c <- p[..Closing(p, 2) + 1] :: !Wild(c)
  {
    var k := Closing(p, 2);
    var body := p[1..k];
    assert body[0] == p[1];
    forall i | 0 <= i <= k
      ensures !Wild(p[i])
    {
      if 0 < i < k { assert p[i] == body[i - 1]; }
    }
  }

  /** Two texts with the same first k + 1 characters, the last of them a `]`,
      have the same bracket expression there. */
  lemma SameBracket(p: string, q: string, k: nat)
    requires IsBracket(p) && BodyStart(p) == 1 && k == Closing(p, 2) && k < |q| && q[..k + 1] == p[..k + 1]
    ensures IsBracket(q) && AtomEnd(q) == k + 1
  {
    assert forall i :: 0 <= i <= k ==> q[i] == q[..k + 1][i] == p[..k + 1][i] == p[i];
    assert Closing(q, 2) == k;
  }

  /** A plain bracket expression at the start of p stays what it was. */
  lemma RewriteBracket(p: string)
    requires PlainAlias(p) && p != "" && p[0] == '['
    ensures var (k, q) := (Closing(p, 2), Rewrite(p));
      && BodyStart(p) == 1 && k < |p| && k + 1 <= |q|
      && IsBracket(q) && AtomEnd(q) == k + 1 && q[..k + 1] == p[..k + 1] && q[k + 1..] == Rewrite(p[k + 1..])
  {
    BracketIsPlain(p);
    var k := Closing(p, 2);
    RewriteSplits(p, k + 1);
    SameBracket(p, Rewrite(p), k);
  }

  /** Whatever an alias matches as a shell pattern, its rewritten form matches
      as a regular expression. */
  lemma {:induction false} GlobImpliesRegex(p: string, s: string)
    requires PlainAlias(p) && GlobMatch(p, s) && '\n' !in s
    ensures RegexMatch(Rewrite(p), s)
    decreases |p|, |s|
  {
    if p != "" {
      var q := Rewrite(p);
      RewriteHead(p);
      if p[0] == '*' {
        if GlobMatch(p[1..], s) { GlobImpliesRegex(p[1..], s); } else { GlobImpliesRegex(p, s[1..]); }
        assert RegexMatch(q[2..], s) || RegexMatch(q, s[1..]);
      } else if p[0] == '?' {
        GlobImpliesRegex(p[1..], s[1..]);
      } else if p[0] == '[' {
        BracketStep(p, s);
        GlobImpliesRegex(p[Closing(p, 2) + 1..], s[1..]);
      } else {
        GlobImpliesRegex(p[1..], s[1..]);
        assert AtomHas(q, s[0]);
      }
    }
  }

  lemma BracketStep(p: string, s: string)
    requires PlainAlias(p) && p != "" && p[0] == '[' && GlobMatch(p, s)
    ensures IsBracket(p) && s != "" && PlainAlias(p[Closing(p, 2) + 1..]) && GlobMatch(p[Closing(p, 2) + 1..], s[1..])
    ensures RegexMatch(Rewrite(p), s) <==> RegexMatch(Rewrite(p[Closing(p, 2) + 1..]), s[1..])
  {
    RewriteBracket(p);
    var (k, q) := (Closing(p, 2), Rewrite(p));
    var rest := p[k + 1..];
    assert q[1..k] == q[..k + 1][1..k] == p[..k + 1][1..k] == p[1..k];
    assert BracketHas(p, s[0]) && AtomHas(q, s[0]);
    if k + 1 < |q| { assert q[k + 1] == q[k + 1..][0] == Rewrite(rest)[0]; assert !Wild(q[k + 1]); }
  }

  /** re.compile and re.match, whatever they do. */
  type Compiles = string -> bool
  type Matches = (string, string) -> bool

  /** A database line holds a type, an entry, a module and an alias. */
  predicate GoodLine(compiles: Compiles, line: seq<string>) {
    |line| == 4 && compiles(Rewrite(line[3]))
  }

  /** Line i is the last of the first n with its field f. */
  predicate LastOf(lines: seq<seq<string>>, n: nat, f: nat, i: nat)
    requires n <= |lines| && forall j :: 0 <= j < n ==> f < |lines[j]|
  {
    i < n && forall j :: i < j < n ==> lines[j][f] != lines[i][f]
  }

  lemma {:induction false} LastExists(lines: seq<seq<string>>, n: nat, f: nat, i: nat) returns (j: nat)
    requires n <= |lines| && i < n && forall k :: 0 <= k < n ==> f < |lines[k]|
    ensures i <= j && LastOf(lines, n, f, j) && lines[j][f] == lines[i][f]
    decreases n - i
  {
    if LastOf(lines, n, f, i) {
      j := i;
    } else {
      var k :| i < k < n && lines[k][f] == lines[i][f];
      j := LastExists(lines, n, f, k);
    }
  }

  predicate Fields(lines: seq<seq<string>>, n: nat) {
    n <= |lines| && forall i :: 0 <= i < n ==> |lines[i]| == 4
  }

  /** After n lines: every rewritten alias leads to the module of the last line
      with that alias. */
  ghost predicate AliasTable(lines: seq<seq<string>>, n: nat, devdb: map<string, string>)
    requires Fields(lines, n)
  {
    && (forall i: nat :: LastOf(lines, n, 3, i) ==>
          Rewrite(lines[i][3]) in devdb && devdb[Rewrite(lines[i][3])] == lines[i][2])
    && (forall k <- devdb :: AliasFrom(lines, n, k))
  }

  ghost predicate AliasFrom(lines: seq<seq<string>>, n: nat, k: string)
    requires Fields(lines, n)
  {
    exists i: nat :: LastOf(lines, n, 3, i) && k == Rewrite(lines[i][3])
  }

  /** The keys of the table, each once. */
  ghost predicate Keys(devdb: map<string, string>, order: seq<string>) {
    && (forall k :: k in order <==> k in devdb)
    && (forall a, b :: 0 <= a < b < |order| ==> order[a] != order[b])
  }

  /** After n lines: every module leads to the entry of its last line. */
  ghost predicate DriverTable(lines: seq<seq<string>>, n: nat, drivers: map<string, string>)
    requires Fields(lines, n)
  {
    && (forall i: nat :: LastOf(lines, n, 2, i) ==> lines[i][2] in drivers && drivers[lines[i][2]] == lines[i][1])
    && (forall m <- drivers :: exists i: nat :: LastOf(lines, n, 2, i) && m == lines[i][2])
  }

  lemma AliasFromStep(lines: seq<seq<string>>, n: nat, k: string)
    requires n < |lines| && Fields(lines, n + 1)
    ensures k == Rewrite(lines[n][3]) ==> AliasFrom(lines, n + 1, k)
    ensures k != Rewrite(lines[n][3]) && AliasFrom(lines, n, k) ==> AliasFrom(lines, n + 1, k)
  {
    if k == Rewrite(lines[n][3]) {
      assert LastOf(lines, n + 1, 3, n);
    } else if i: nat :| LastOf(lines, n, 3, i) && k == Rewrite(lines[i][3]) {
      assert LastOf(lines, n + 1, 3, i);
    }
  }

  lemma AliasStep(lines: seq<seq<string>>, n: nat, devdb: map<string, string>)
    requires n < |lines| && Fields(lines, n + 1) && AliasTable(lines, n, devdb)
    ensures AliasTable(lines, n + 1, devdb[Rewrite(lines[n][3]) := lines[n][2]])
  {
    var k := Rewrite(lines[n][3]);
    var next := devdb[k := lines[n][2]];
    forall i: nat | LastOf(lines, n + 1, 3, i)
      ensures Rewrite(lines[i][3]) in next && next[Rewrite(lines[i][3])] == lines[i][2]
    {
      if i < n {
        assert LastOf(lines, n, 3, i) && lines[n][3] != lines[i][3];
        RewriteIsInjective(lines[n][3], lines[i][3]);
      }
    }
    forall x | x in next
      ensures AliasFrom(lines, n + 1, x)
    {
      AliasFromStep(lines, n, x);
    }
  }

  lemma KeysStep(devdb: map<string, string>, order: seq<string>, k: string, m: string)
    requires Keys(devdb, order)
    ensures Keys(devdb[k := m], if k in devdb then order else order + [k])
  {
  }

  lemma DriverStep(lines: seq<seq<string>>, n: nat, drivers: map<string, string>)
    requires n < |lines| && Fields(lines, n + 1) && DriverTable(lines, n, drivers)
    ensures DriverTable(lines, n + 1, drivers[lines[n][2] := lines[n][1]])
  {
    var next := drivers[lines[n][2] := lines[n][1]];
    forall i: nat | LastOf(lines, n + 1, 2, i)
      ensures lines[i][2] in next && next[lines[i][2]] == lines[i][1]
    {
      if i < n { assert LastOf(lines, n, 2, i) && lines[n][2] != lines[i][2]; }
    }
    forall x | x in next
      ensures exists i: nat :: LastOf(lines, n + 1, 2, i) && x == lines[i][2]
    {
      if x == lines[n][2] {
        assert LastOf(lines, n + 1, 2, n);
      } else {
        var i: nat :| LastOf(lines, n, 2, i) && x == lines[i][2];
        assert LastOf(lines, n + 1, 2, i);
      }
    }
  }

  ghost predicate TablesHold(lines: seq<seq<string>>, n: nat, devdb: map<string, string>, order: seq<string>,
                             drivers: map<string, string>) {
    && Fields(lines, n)
    && AliasTable(lines, n, devdb) && Keys(devdb, order) && DriverTable(lines, n, drivers)
  }

  lemma TablesStep(lines: seq<seq<string>>, n: nat, devdb: map<string, string>, order: seq<string>,
                   drivers: map<string, string>)
    requires TablesHold(lines, n, devdb, order, drivers) && n < |lines| && |lines[n]| == 4
    ensures var k := Rewrite(lines[n][3]);
      TablesHold(lines, n + 1, devdb[k := lines[n][2]], if k in devdb then order else order + [k],
                 drivers[lines[n][2] := lines[n][1]])
  {
    AliasStep(lines, n, devdb);
    KeysStep(devdb, order, Rewrite(lines[n][3]), lines[n][2]);
    DriverStep(lines, n, drivers);
  }

  /** The modules of all aliases in `order` that match the device. */
  function Hits(matches: Matches, devdb: map<string, string>, order: seq<string>, device: string): (ms: seq<string>)
    requires forall k <- order :: k in devdb
    ensures forall m :: m in ms <==> exists k <- order :: matches(k, device) && devdb[k] == m
    decreases |order|
  {
    if order == [] then []
    else
      var k := order[|order| - 1];
      Hits(matches, devdb, order[..|order| - 1], device) + if matches(k, device) then [devdb[k]] else []
  }

  ghost predicate Detected(matches: Matches, devdb: map<string, string>, devices: seq<string>, modlist: seq<string>) {
    forall m :: m in modlist <==> exists d, k :: d in devices && k in devdb && matches(k, d) && devdb[k] == m
  }

  datatype Tables = Tables(devdb: map<string, string>, order: seq<string>, drivers: map<string, string>)

  lemma TablesStart(lines: seq<seq<string>>)
    ensures TablesHold(lines, 0, map[], [], map[])
  {
  }

  ghost predicate AllGood(compiles: Compiles, lines: seq<seq<string>>, n: nat) {
    n <= |lines| && forall i :: 0 <= i < n ==> GoodLine(compiles, lines[i])
  }

  /** Reads the database; raises on a line without four fields and on an alias
      that does not compile. */
  method ReadDb(compiles: Compiles, lines: seq<seq<string>>) returns (r: Option<Tables>)
    ensures r.Some? <==> AllGood(compiles, lines, |lines|)
    ensures r.Some? ==> TablesHold(lines, |lines|, r.value.devdb, r.value.order, r.value.drivers)
  {
    var devdb: map<string, string>, drivers: map<string, string>, order: seq<string> := map[], map[], [];
    TablesStart(lines);
    for n := 0 to |lines|
      invariant AllGood(compiles, lines, n)
      invariant TablesHold(lines, n, devdb, order, drivers)
    {
      if |lines[n]| != 4 {
        assert !GoodLine(compiles, lines[n]);
        return None;
      }
      var sig := Rewrite(lines[n][3]);
      if !compiles(sig) {
        assert !GoodLine(compiles, lines[n]);
        return None;
      }
      assert GoodLine(compiles, lines[n]);
      TablesStep(lines, n, devdb, order, drivers);
      order := if sig in devdb then order else order + [sig];
      devdb := devdb[sig := lines[n][2]];
      drivers := drivers[lines[n][2] := lines[n][1]];
    }
    r := Some(Tables(devdb, order, drivers));
  }

  method Detect(matches: Matches, devdb: map<string, string>, order: seq<string>, devices: seq<string>)
    returns (modlist: seq<string>)
    requires forall k :: k in order <==> k in devdb
    ensures Detected(matches, devdb, devices, modlist)
  {
    modlist := [];
    for i := 0 to |devices|
      invariant forall m :: m in modlist <==>
        exists d, k :: d in devices[..i] && k in devdb && matches(k, d) && devdb[k] == m
    {
      var hits := Collect(matches, devdb, order, devices[i]);
      modlist := modlist + hits;
    }
    assert devices[..|devices|] == devices;
  }

  method Collect(matches: Matches, devdb: map<string, string>, order: seq<string>, device: string)
    returns (ms: seq<string>)
    requires forall k <- order :: k in devdb
    ensures ms == Hits(matches, devdb, order, device)
  {
    ms := [];
    for j := 0 to |order|
      invariant ms == Hits(matches, devdb, order[..j], device)
    {
      assert order[..j + 1][..j] == order[..j];
      if matches(order[j], device) { ms := ms + [devdb[order[j]]]; }
    }
    assert order[..|order|] == order;
  }

  datatype Db = Db(tables: Tables, modlist: seq<string>)

  /** Reads the database, then collects for each device the modules of all
      matching aliases. */
  method LoadDb(compiles: Compiles, matches: Matches, lines: seq<seq<string>>, devices: seq<string>)
    returns (r: Option<Db>)
    ensures r.Some? <==> AllGood(compiles, lines, |lines|)
    ensures r.Some? ==>
      var t := r.value.tables;
      TablesHold(lines, |lines|, t.devdb, t.order, t.drivers) && Detected(matches, t.devdb, devices, r.value.modlist)
  {
    var t := ReadDb(compiles, lines);
    if t.None? { return None; }
    var modlist := Detect(matches, t.value.devdb, t.value.order, devices);
    r := Some(Db(t.value, modlist));
  }

  /** The database is read iff every line has four fields, the last of which
      compiles. */
  lemma GoodIs(compiles: Compiles, lines: seq<seq<string>>)
    ensures AllGood(compiles, lines, |lines|) <==> forall l <- lines :: |l| == 4 && compiles(Rewrite(l[3]))
  {
    if AllGood(compiles, lines, |lines|) {
      forall l | l in lines
        ensures |l| == 4 && compiles(Rewrite(l[3]))
      {
        var i :| 0 <= i < |lines| && lines[i] == l;
        assert GoodLine(compiles, lines[i]);
      }
    }
    if forall l <- lines :: |l| == 4 && compiles(Rewrite(l[3])) {
      forall i | 0 <= i < |lines| ensures GoodLine(compiles, lines[i]) { assert lines[i] in lines; }
    }
  }

  /** No line behind line i has the same field f. */
  predicate LastLine(lines: seq<seq<string>>, i: nat, f: nat) {
    i < |lines| && f < |lines[i]| && forall j :: i < j < |lines| ==> f < |lines[j]| && lines[j][f] != lines[i][f]
  }

  /** Fields: type, entry, module, alias. The last line with an alias names its
      module, the last line with a module names its entry. */
  lemma TablesAre(lines: seq<seq<string>>, devdb: map<string, string>, order: seq<string>, drivers: map<string, string>,
                  i: nat)
    requires TablesHold(lines, |lines|, devdb, order, drivers)
    ensures LastLine(lines, i, 3) ==> Rewrite(lines[i][3]) in devdb && devdb[Rewrite(lines[i][3])] == lines[i][2]
    ensures LastLine(lines, i, 2) ==> lines[i][2] in drivers && drivers[lines[i][2]] == lines[i][1]
  {
    if LastLine(lines, i, 3) { assert LastOf(lines, |lines|, 3, i); }
    if LastLine(lines, i, 2) { assert LastOf(lines, |lines|, 2, i); }
  }

  /** Line i gives the module m to the device d. */
  ghost predicate Gives(matches: Matches, lines: seq<seq<string>>, i: nat, d: string, m: string) {
    LastLine(lines, i, 3) && 2 < |lines[i]| && lines[i][2] == m && matches(Rewrite(lines[i][3]), d)
  }

  /** The detected modules are those of the last lines whose alias matches. */
  lemma ModlistIs(matches: Matches, lines: seq<seq<string>>, devices: seq<string>, devdb: map<string, string>,
                  modlist: seq<string>, m: string)
    requires Fields(lines, |lines|) && AliasTable(lines, |lines|, devdb) && Detected(matches, devdb, devices, modlist)
    ensures m in modlist <==> exists d, i: nat :: d in devices && Gives(matches, lines, i, d, m)
  {
    if m in modlist {
      var d, k :| d in devices && k in devdb && matches(k, d) && devdb[k] == m;
      assert AliasFrom(lines, |lines|, k);
      var i: nat :| LastOf(lines, |lines|, 3, i) && k == Rewrite(lines[i][3]);
      assert Gives(matches, lines, i, d, m);
    }
    if d, i: nat :| d in devices && Gives(matches, lines, i, d, m) {
      assert LastOf(lines, |lines|, 3, i);
    }
  }

  /** re.match means what RegexMatch says on rewritten plain aliases. */
  ghost predicate FaithfulRegex(matches: Matches) {
    forall p, s :: PlainAlias(p) ==> matches(Rewrite(p), s) == RegexMatch(Rewrite(p), s)
  }

  /** A device that some plain alias matches as a shell pattern gets the module
      of the last database line with that alias. */
  lemma MatchedAliasIsDetected(matches: Matches, lines: seq<seq<string>>, devices: seq<string>,
                               devdb: map<string, string>, modlist: seq<string>, i: nat, d: string) returns (j: nat)
    requires Fields(lines, |lines|) && AliasTable(lines, |lines|, devdb)
    requires Detected(matches, devdb, devices, modlist) && FaithfulRegex(matches)
    requires i < |lines| && PlainAlias(lines[i][3])
    requires d in devices && '\n' !in d && GlobMatch(lines[i][3], d)
    ensures i <= j && LastOf(lines, |lines|, 3, j) && lines[j][3] == lines[i][3] && lines[j][2] in modlist
  {
    GlobImpliesRegex(lines[i][3], d);
    j := LastExists(lines, |lines|, 3, i);
    assert matches(Rewrite(lines[i][3]), d);
  }
}
