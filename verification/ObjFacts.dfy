/** The per-object files that dependency/gen_objdep.py reads, and the relations
    they amount to, independently of the order in which they are read. */
module ObjFacts {
  import opened ObjTables
  import opened Multimap

  type Row = (Name, Name)

  /** One file of the build tree; `stem` is its normalized name without suffix. */
  datatype ObjFile =
    | Symtab(stem: string, symbols: seq<Row>)  // (type, symbol)
    | Imptab(stem: string, rows: seq<Row>)     // (symbol, call)
    | Impnoin(stem: string, rows: seq<Row>)    // (symbol, call), without inlining
    | Symlnk(stem: string, rows: seq<Row>)     // (function, global)
    | Symcbs(stem: string, rows: seq<Row>)     // (global, callback)
    | Fptref(stem: string, rows: seq<Row>)     // (symbol, function pointer stored)
    | ModFile(stem: string, objects: seq<string>)  // a driver and the stems of its objects
    | NonBc(stem: string)
  {
    /** The object that a per-object file belongs to. */
    function Mod(): Name { ObjectName(stem) }
  }

  const MODULE_SYMBOLS: set<string> := {
    "module_get", "modver_version_show", "cleanup_module", "do_init_module",
    "init_module", "load_module", "module_put", "module_put_and_exit",
    "print_modules", "retpoline_module_ok", "try_module_get"
  }

  function StripUnderscores(s: string): string {
    if s != "" && s[0] == '_' then StripUnderscores(s[1..]) else s
  }

  predicate IsModuleSymbol(n: Name) {
    var norm := StripUnderscores(n.text);
    norm in MODULE_SYMBOLS || "llvm." <= norm
  }

  predicate Kept(r: Row) { !IsModuleSymbol(r.0) && !IsModuleSymbol(r.1) }

  function KoName(stem: string): Name { Name(stem + ".ko") }

  function ObjectName(stem: string): Name { Name(stem + ".o") }

  const UNDEFINED := Name("U")
  const TEXT := Name("T")

  /** The symbols with a line of their own in a .impnoin file. */
  function LocalSyms(rows: seq<Row>): set<Name> {
    set r | r in rows && Kept(r) :: r.0
  }

  datatype Facts = Facts(
    imports: set<(Name, Name)>,
    exports: set<(Name, Name)>,
    globals: set<(Name, Name)>,
    calls: set<Triple>,      // (object, caller, callee)
    noinline: set<Triple>,   // (object, callee, caller)
    links: set<Triple>,      // (object, function, global)
    callbacks: set<(Name, Name)>,
    refs: set<Triple>,       // (object, pointed-to, storing symbol)
    drivers: set<(Name, Name)>,
    nonIr: set<Name>)

  const NOTHING := Facts({}, {}, {}, {}, {}, {}, {}, {}, {}, {})

  function Join(a: Facts, b: Facts): Facts {
    Facts(a.imports + b.imports, a.exports + b.exports, a.globals + b.globals, a.calls + b.calls,
          a.noinline + b.noinline, a.links + b.links, a.callbacks + b.callbacks, a.refs + b.refs,
          a.drivers + b.drivers, a.nonIr + b.nonIr)
  }

  /** What one row of a file says. */
  function SymbolFacts(mod: Name, r: Row): Facts {
    if r.0 == UNDEFINED then NOTHING.(imports := {(mod, r.1)})
    else NOTHING.(exports := {(mod, r.1)}, globals := if r.0 == TEXT then {(mod, r.1)} else {})
  }

  function RowFacts(f: ObjFile, r: Row): Facts
    requires f.Imptab? || f.Impnoin? || f.Symlnk? || f.Symcbs? || f.Fptref?
  {
    if !Kept(r) then NOTHING
    else match f
      case Imptab(_, _) => NOTHING.(calls := {Triple(f.Mod(), r.0, r.1)})
      case Impnoin(_, rows) =>
        if r.0 != r.1 && r.1 in LocalSyms(rows) then NOTHING.(noinline := {Triple(f.Mod(), r.1, r.0)}) else NOTHING
      case Symlnk(_, _) => NOTHING.(links := {Triple(f.Mod(), r.0, r.1)})
      case Symcbs(_, _) => NOTHING.(callbacks := {r})
      case Fptref(_, _) => NOTHING.(refs := {Triple(f.Mod(), r.1, r.0)})
  }

  function FileFacts(f: ObjFile): Facts {
    match f
    case Symtab(_, symbols) => SymbolsFacts(f.Mod(), symbols)
    case ModFile(stem, objects) => NOTHING.(drivers := set o | o in objects :: (ObjectName(o), KoName(stem)))
    case NonBc(_) => NOTHING.(nonIr := {f.Mod()})
    case _ => RowsFacts(f, f.rows)
  }

  function SymbolsFacts(mod: Name, symbols: seq<Row>): Facts {
    if symbols == [] then NOTHING
    else Join(SymbolsFacts(mod, symbols[..|symbols| - 1]), SymbolFacts(mod, symbols[|symbols| - 1]))
  }

  function RowsFacts(f: ObjFile, rows: seq<Row>): Facts
    requires f.Imptab? || f.Impnoin? || f.Symlnk? || f.Symcbs? || f.Fptref?
  {
    if rows == [] then NOTHING
    else Join(RowsFacts(f, rows[..|rows| - 1]), RowFacts(f, rows[|rows| - 1]))
  }

  function FilesFacts(files: seq<ObjFile>): Facts {
    if files == [] then NOTHING
    else Join(FilesFacts(files[..|files| - 1]), FileFacts(files[|files| - 1]))
  }

  ghost predicate Within(a: Facts, b: Facts) { Join(a, b) == b }

  lemma {:induction false} FilesFactsAbove(files: seq<ObjFile>, f: ObjFile)
    requires f in files
    ensures Within(FileFacts(f), FilesFacts(files))
  {
    var n := |files| - 1;
    if f != files[n] { FilesFactsAbove(files[..n], f); }
    WithinJoin(FileFacts(f), FilesFacts(files[..n]), FileFacts(files[n]));
  }

  lemma WithinJoin(a: Facts, b: Facts, c: Facts)
    ensures Within(a, b) || a == c ==> Within(a, Join(b, c))
  {
  }

  lemma {:induction false} FilesFactsLeast(files: seq<ObjFile>, bound: Facts)
    requires forall f <- files :: Within(FileFacts(f), bound)
    ensures Within(FilesFacts(files), bound)
  {
    if files == [] {
      assert Join(NOTHING, bound) == bound;
    } else {
      var n := |files| - 1;
      FilesFactsLeast(files[..n], bound);
      JoinWithin(FilesFacts(files[..n]), FileFacts(files[n]), bound);
    }
  }

  lemma JoinWithin(a: Facts, b: Facts, bound: Facts)
    requires Within(a, bound) && Within(b, bound)
    ensures Within(Join(a, b), bound)
  {
    assert Join(Join(a, b), bound) == Join(a, Join(b, bound));
  }

  /** The facts do not depend on the order of the files, nor on repetitions. */
  lemma FactsIgnoreOrder(files: seq<ObjFile>, files': seq<ObjFile>)
    requires forall f :: f in files <==> f in files'
    ensures FilesFacts(files) == FilesFacts(files')
  {
    forall f | f in files ensures Within(FileFacts(f), FilesFacts(files')) { FilesFactsAbove(files', f); }
    forall f | f in files' ensures Within(FileFacts(f), FilesFacts(files)) { FilesFactsAbove(files, f); }
    FilesFactsLeast(files, FilesFacts(files'));
    FilesFactsLeast(files', FilesFacts(files));
    JoinCommutes(FilesFacts(files), FilesFacts(files'));
  }

  lemma JoinCommutes(a: Facts, b: Facts)
    ensures Join(a, b) == Join(b, a)
  {
  }

  /** A function linked to a global calls the callbacks of that global. */
  function GlobalCalls(x: Facts): set<Triple> {
    set l, c | l in x.links && c in x.callbacks && l.snd == c.0 :: Triple(l.mod, l.fst, c.1)
  }

  function EarlyCalls(x: Facts): set<Triple> { x.calls + GlobalCalls(x) }

  ghost predicate IsCaller(calls: set<Triple>, mod: Name, s: Name) {
    exists e <- calls :: e.mod == mod && e.fst == s
  }

  ghost predicate IsCallee(calls: set<Triple>, s: Name) {
    exists e <- calls :: e.snd == s
  }

  /** A call seen without inlining, restored when both ends are known. */
  ghost predicate Restored(x: Facts, n: Triple) {
    n in x.noinline && IsCaller(EarlyCalls(x), n.mod, n.snd) && IsCallee(EarlyCalls(x), n.fst)
  }

  ghost function FinalCalls(x: Facts): set<Triple> {
    EarlyCalls(x) + set n | n in x.noinline && Restored(x, n) :: Triple(n.mod, n.snd, n.fst)
  }
}
