# A verified model of Hacksaw's algorithms

Hacksaw debloats a Linux kernel for one machine: it finds the drivers the
machine does not need, decides which kernel functions may be neutered with them,
and overwrites those functions in the kernel image. Most of the repository
drives LLVM, z3, capstone and binutils. This project models the algorithms that
are its own and proves what they promise. Libraries are arbitrary parameters: a
solver is any function that decides satisfiability, a disassembler any function
from offsets to instructions, `re` any matcher that agrees with the pattern
language on the syntax that is used. The results are for all inputs; only the
lemmas named examples, and the few others that the table below says are about
one input, are not.

`dafny verify dfyconfig.toml` checks everything.

## What is proved

**Which functions may be neutered** (`ObjTables`, `Multimap`, `ObjFacts`,
`ObjDeps`, `ObjBuild`, `ObjRows`, `PatchRules`, `CheckFdep`, `PatchMeaning`,
`DriverOrder`, `DriverPairs`). `ObjDeps` is a class over dictionaries of sets,
some of them shared with the caller, that its queries extend behind the reader's
back. Its tables are shown to hold exactly the relation the per-object files
describe, whatever the order of the files, table by table and line by line
(`ObjRows`); `related` is shown to change no later answer, and the two rules of
`check_fdep` are restated on table entries (`PatchMeaning`). On top of that the
iteration of `check_fdep`, which visits the check list, the patch set and the
dictionaries in any order and stops on a size comparison, is shown to end in the
least set that contains the seed and is closed under its two rules, hence, on
given tables, in the same set for every order. One order that the tables hold
does count: `related` takes the first member of each Python set of drivers. The
callers it names are the same for every order of these sets if and only if each
name that a caller may have is one that some caller of the same function must
have (`DriverOrder.Determined`), as when no caller's object has two drivers;
then two builds from the same files patch the same functions. Membership is
never circular: there is a ranking in which all callers of a function are
patched before it, except for seeds and for pairs whose module does not define
the symbol; every cycle of callers in the result goes through one of these. For
built tables and a list of defined pairs the pairs of the second kind are
functions under the name of a driver, and recorded callers that the symbol table
of their object lacks.

**USB version ranges as shell patterns** (`Digits`, `Bcd`, `UsbRange`,
`UsbSaturation`, `Glob`, `UsbText`, `UsbDump`, `UsbExact`, `UsbWide`,
`UsbAllDigits`). `dump_usb_id` turns a range of bcdDevice (section 9.6.1 of USB
2.0) into patterns (section 2.13 of POSIX.1-2017 XCU) by peeling digits from
both ends. The model has any number of digits `n` (the source: 4) and any wider
machine word `w` (8). A range is taken to be decimal when its bounds are. Over
values whose digits do not exceed the largest digit of that reading (9 or F),
the printed patterns match exactly the values of the range if and only if the
range is in none of three families:

- a full decade in the last digit, such as d1230 to d1239, whose one entry
  prints neither a class nor a `*` and so matches nothing;
- no upper bound and a lower bound above max times 16^(n-1), such as d9991 and
  up: the carry leaves the top digit and every value matches;
- decimal mode with an upper bound above 99..9 that has some digit below 9,
  unless the lower bound is above everything that digit makes the loop lose,
  such as d0000 to dA003: d9999 is not matched.

Versions with a digit above 9 are another matter in a decimal range: d0100 to
d9999 misses d0A00, and d1000 to d1999 also matches d1FFF, though neither is in
a family. Over all n-digit values the patterns of a decimal range agree with it
if and only if the lower bound has only zeros below the highest digit in which
it differs from the upper bound and the upper bound does not end in 9 (or both
lie in one incomplete decade of the last digit); with an upper bound above 99..9
if and only if the two bounds are the ends of one block of free digits; with no
upper bound if and only if there is no lower bound either and n > 1; and always
if the bounds are crossed (`UsbAllDigits.Closes`).

**Closures and worklists** (`CallPaths`, `Bitcode`, `RegisterApis`,
`ModuleWorklist`, `GlobalUsers`). The sweep-then-commit and the in-place caller
closures compute the functions with a call path to a seed. On one call graph
they agree if and only if `init_module` reaches no seed or all its callers are
seeds or reach one without it; of the functions with a path to a seed the
committing form misses exactly those whose every path calls `init_module`. The
worklist of `processModuleFile`, which marks on popping and re-expands
duplicates, ends on every call graph, and so does the traversal of cyclic
constant use chains.

**Build dependencies** (`BuildDeps`, `DepRules`). With every variable fixed,
asking the solver is evaluating, so the second round of solver calls never
rejects a candidate; the printed pairs are exactly the inclusions of variable
sets, each once. Printing rules and reading them back inverts the pairs.

**Patching the image** (`Intervals`, `Disasm`, `ScanStops`, `PatchKernel`,
`PatchOrder`, `PatchReturns`, `PatchScans`). The scan of a function's entry
yields one interval of at most three instructions; merging is a canonical form.
When any two symbols are aliases of one range or do not come within each other's
bytes, the patched image shows every symbol as if it alone had been patched,
whatever the order and however many aliases. For any two ranges, overlapping
ones too, `PatchOrder` says exactly when their order does not matter, and
`PatchReturns` when both entries still return, for either order.

**Recognizing devices** (`AliasDb`, `AliasExact`, `AliasFields`, `UsbDetect`,
`UsbLine`). Every device that a plain alias matches as a shell pattern gets the
module of the last database line with that alias. The rewritten form matches
nothing more if and only if the alias has no `?`, no `.` outside brackets, and
ends in a star. Together with the range theorems: a version that a printed
pattern matches is recognized, and so is every version of a range with digits up
to 9, or up to F if the range is hexadecimal, outside the first and third
family. For whole aliases the `.*` of the rewritten form can run past the end of
a field, but on a signature of the kernel's form it gains nothing: a printed
alias recognizes a device if and only if every value the entry asks for agrees
and the version is matched. So the aliases of one table entry recognize exactly
the devices the entry means, over versions with digits of its reading if and
only if its range is in none of the families, and over all versions by the
conditions above.

## Notes on the code

- `related` never returns an empty entry (`ObjTables.FoundHasCallers`), so the
  branch of the patch loop for an entry without callers
  (`kernel_patch/hwfilter.py:233-237`) is modelled but never taken.
- While the check list is expanded, a (symbol, module) key is compared with a
  (module, symbol) pair (`kernel_patch/hwfilter.py:194-200`), and the callers of
  a function are skipped when its module imports nothing (`:204-205`). The model
  does the same (`CheckFdep.EntryPairs`).
- `related` asserts that an object of the unit belongs to one driver. The model
  keeps that failure as the answer `Crash`, and `check_fdep` then fails.
- A pair whose module does not define its symbol is patched by the leaf rule
  even if unpatched functions call the symbol
  (`DriverPairs.UndefinedIgnoresCallers`), because `related` answers None for
  it. Expanding the check list adds such pairs: a related function of an object
  in a driver is listed under the driver's name
  (`kernel_patch/hwfilter.py:198-200`), and symbol tables belong to objects, so
  no driver defines a symbol (`DriverPairs.DriversDefineNothing`).
- The order of a Python set of drivers can decide which driver's function is
  patched (`DriverOrder.DriverOrderMatters`).

## Model

| member | source | states |
|---|---|---|
| ObjTables.RelatedIsPure | dependency/gen_objdep.py:249-299 | after any run of calls of `related`, with any arguments in any order, `related`, `has_referencer` and `get_mods` (None read as empty) answer as before it |
| ObjTables.EffectKeepsAnswers | dependency/gen_objdep.py:250-271 | entering a module into its own reverse dependencies and creating empty entries leaves every answer alone |
| ObjTables.SameAnswers | dependency/gen_objdep.py:244-299 | tables that differ only in empty entries and in a unit's own module answer all queries alike |
| ObjTables.FoundHasCallers | dependency/gen_objdep.py:259-271 | no entry of the dictionary of `related` is empty |
| ObjDepsModel.ObjDeps.Related | dependency/gen_objdep.py:249-271 | the answer is None, the assertion failure or the map from called symbols of the unit to their callers, as on the tables before; the heap changes only as `RelatedEffect` says |
| ObjDepsModel.ObjDeps.EnterUnit | dependency/gen_objdep.py:252-257 | the module joins the caller's own set of reverse dependencies, in place, and no other set changes |
| ObjDepsModel.ObjDeps.AddModule | dependency/gen_objdep.py:260-270 | one object of the unit adds its called exports, under its driver's name; it fails exactly if it has exports and several drivers |
| ObjDepsModel.ObjDeps.AddCallers | dependency/gen_objdep.py:267-270 | a symbol's callers, drivers standing for their objects, join its entry; a symbol without callers makes none |
| ObjDepsModel.ObjDeps.HasReferencer | dependency/gen_objdep.py:273-285 | true iff some function storing a pointer to the symbol is not in the patch set |
| ObjDepsModel.ObjDeps.GetMods | dependency/gen_objdep.py:287-299 | the modules defining the symbol, restricted to global definitions on request, None when there are none |
| PatchMeaning.RelatedOutcome | dependency/gen_objdep.py:249-265 | `related` answers None iff the module does not define the symbol, and asserts iff it does and some object of the unit (the module or one linked with it) has exports and not one driver |
| PatchMeaning.RelatedKeysAre | dependency/gen_objdep.py:252-270 | the keys of the dictionary are exactly the called exports of the module and of the objects linked with it, under the driver's name if there is one |
| PatchMeaning.LinkedIsRelated | dependency/gen_objdep.py:252-270 | a called export of an object linked with the module is a key |
| PatchMeaning.RelatedCallers | dependency/gen_objdep.py:267-270 | the entry of a key is exactly its recorded callers, drivers standing for their objects |
| ObjFacts.FactsIgnoreOrder | dependency/gen_objdep.py:92-209 | what the files say depends neither on their order nor on repetitions |
| ObjBuild.TreeWalk.LoadFile | dependency/gen_objdep.py:95-209 | reading one file adds exactly its facts to the tables |
| ObjBuild.TreeWalk.LoadSymtab | dependency/gen_objdep.py:95-110 | undefined symbols become imports, all others exports with their module, `T` symbols global exports |
| ObjBuild.TreeWalk.LinkGlobals | dependency/gen_objdep.py:212-221 | every function linked to a global gets all its callbacks as callees, in both call tables |
| ObjBuild.TreeWalk.RestoreCall | dependency/gen_objdep.py:237-242 | a call that only inlining had hidden is entered in both tables when both its ends are known |
| ObjBuild.TreeWalk.RestoreCalls | dependency/gen_objdep.py:237-242 | after the last pass the call tables hold exactly the calls, the calls through globals and the restored ones |
| ObjBuild.EndsUnchanged | dependency/gen_objdep.py:237-242 | the last pass makes no new caller or callee, so its guard does not depend on the order of the pass |
| ObjBuild.Build | dependency/gen_objdep.py:72-242 | the constructor's tables hold exactly the relations the files describe, driver sets without repetition, and keep the caller's reverse dependencies |
| ObjBuild.TablesIgnoreOrder | dependency/gen_objdep.py:92-242 | visiting the files in another order gives the same tables, driver sets up to their order: the same members and size, so the same set where it has one member |
| ObjRows.ImportsAreRows | dependency/gen_objdep.py:95-106 | an object imports a symbol iff its symbol table has it with type U |
| ObjRows.ExportsAreRows | dependency/gen_objdep.py:107-110 | it exports, and `mod_map` leads back from, exactly the symbols of any other type |
| ObjRows.GlobalsAreRows | dependency/gen_objdep.py:108-109 | global exports are exactly those of type T |
| ObjRows.RefsAreRows | dependency/gen_objdep.py:171-186 | a stores a pointer to p in an object iff its .fptref file has the line "a : p", neither being a module symbol |
| ObjRows.DriversAreRows | dependency/gen_objdep.py:187-206 | k is a driver of o iff the .mod file of k lists o |
| ObjRows.NonIrAreRows | dependency/gen_objdep.py:207-209 | objects without IR are exactly those with a .nonbc file |
| ObjRows.CallersAreRows | dependency/gen_objdep.py:111-242 | a of m is a recorded caller of b iff an .imptab file of m has "a : b", or a .symlnk file of m has "a : g" and a .symcbs file "g : b", or an .impnoin file of m has "a : b" with a line for b and a calls and b is called in one of these ways |
| ObjRows.ImptabCalls | dependency/gen_objdep.py:111-124 | the line "a : b" of an .imptab file makes a a caller of b |
| ObjRows.GlobalsCall | dependency/gen_objdep.py:147-170 | the lines "a : g" and "g : b" of .symlnk and .symcbs files do too |
| ObjRows.ImpnoinCalls | dependency/gen_objdep.py:125-146 | and "a : b" of an .impnoin file under its conditions |
| ObjRows.ModuleSymbolIs | dependency/gen_objdep.py:29-33 | a name is skipped iff what follows its leading underscores is a listed name or begins with "llvm." |
| ObjBuild.TablesAreInverse | dependency/gen_objdep.py:104-124 | `fdep_map` and `frevdep_map` are inverse, `export_table` and `mod_map` are inverse, and a function linked to a global calls all its callbacks |
| ObjBuild.SuffixesDiffer | dependency/gen_objdep.py:64-69 | the driver of an object is never itself an object of a driver |
| CheckFdep.CheckFdep | kernel_patch/hwfilter.py:173-254 | fails iff some `related` does; otherwise the patch set is the least set above the seed closed under the two rules for the expanded check list, after at most 1 + the number of addable pairs passes, and the object still answers every query as before |
| CheckFdep.Iterate | kernel_patch/hwfilter.py:218-254 | the loop that stops on an unchanged size reaches the least closed set within that bound |
| CheckFdep.Sweep | kernel_patch/hwfilter.py:220-248 | a pass adds only what every closed set contains, and one that adds nothing proves the set closed |
| CheckFdep.ApplyPair | kernel_patch/hwfilter.py:221-248 | one check-list pair: the same for the rules of that pair |
| CheckFdep.TryKey | kernel_patch/hwfilter.py:230-248 | a function is added iff it and all its callers have IR, the callers are patched and no outstanding function refers to it |
| CheckFdep.TryLeaf | kernel_patch/hwfilter.py:222-228 | a pair with nothing related is added iff it has IR and no outstanding referencer |
| CheckFdep.Populate | kernel_patch/hwfilter.py:179-216 | the check list grows by exactly the import targets, related functions and callers of its pairs |
| CheckFdep.AddEntry | kernel_patch/hwfilter.py:198-214 | what one related function contributes, with the code's own comparison and its skipping of callers |
| CheckFdep.SplitUp | kernel_patch/hwfilter.py:256-264 | the patch set split into functions of objects and (function, module) pairs of loadable modules |
| PatchMeaning.SplitIs | kernel_patch/hwfilter.py:256-264 | functions of `.o` modules and no others are built-in functions; those of `.ko` modules are paired with their module |
| PatchRules.LeastIsUnique | kernel_patch/hwfilter.py:219-254 | on given tables the result does not depend on the order in which check list, dictionaries and patch set are visited |
| PatchMeaning.EnabledIff | kernel_patch/hwfilter.py:219-248 | said on table entries: a pair is added iff its module has IR, all functions storing its pointer are patched, and it is listed and undefined, or listed with nothing called in its unit, or offered by the unit of a listed pair with all callers patched and with IR |
| PatchMeaning.StorersArePatched | dependency/gen_objdep.py:273-285 | every function of the module that stores a pointer to a patched non-seed function is patched |
| PatchMeaning.PatchedHasIr | kernel_patch/hwfilter.py:223-231 | the module of a patched non-seed function has IR |
| PatchMeaning.UnstoredIsPatched | kernel_patch/hwfilter.py:222-228 | a listed undefined function is patched when its module has IR and all functions storing its pointer are patched |
| PatchMeaning.CallersFollow | kernel_patch/hwfilter.py:239-248 | on inverse tables every recorded caller of a patched function is patched, under its driver's name if it has one, but for seeds and listed undefined pairs |
| PatchMeaning.ExpandedIff | kernel_patch/hwfilter.py:179-216 | the expanded list is the list, the definitions of what its modules import, the related functions, and for related modules with imports these imports and the callers |
| PatchRules.LeastExists | kernel_patch/hwfilter.py:219-254 | there is a least set for every table, check list and seed |
| PatchRules.LeastIsMonotone | kernel_patch/hwfilter.py:219-254 | more seeds or a longer check list never patch less |
| PatchRules.LeastIsIdempotent | kernel_patch/hwfilter.py:219-254 | running again from the result adds nothing |
| PatchRules.LeastIsBounded | kernel_patch/hwfilter.py:219-254 | only seeds and pairs some rule names are ever patched |
| PatchRules.LeastIsJustified | kernel_patch/hwfilter.py:219-248 | the result has an order of addition in which each pair is enabled by the seed and earlier pairs alone |
| PatchRules.LeastIsRanked | kernel_patch/hwfilter.py:219-248 | a ranking: every non-seed pair entered by the leaf rule because its module does not define it, or because nothing is related, or all its recorded callers have IR, are patched and rank lower |
| PatchRules.UncalledHasNoCallers | dependency/gen_objdep.py:249-271 | when export table and module map are inverse, a defined symbol with nothing related has no recorded callers |
| PatchRules.CallersArePatched | kernel_patch/hwfilter.py:219-248 | every recorded caller of a patched pair is patched and has IR, unless the pair is a seed or undefined in its module |
| PatchRules.UndefinedIsPatched | kernel_patch/hwfilter.py:221-228 | an undefined pair of the check list with IR and no outstanding referencer is patched, whatever calls it |
| PatchRules.CycleHasGround | kernel_patch/hwfilter.py:239-248 | every cycle of recorded callers in the result passes through a seed or a pair undefined in its module, when export table and module map are inverse |
| ObjBuild.BuiltInverse | dependency/gen_objdep.py:104-110 | the built export table and module map are inverse |
| DriverPairs.UndefinedKeyIsPatched | kernel_patch/hwfilter.py:198-228 | a related function of a check-list pair that its module does not define is patched as soon as it has IR and no outstanding referencer |
| DriverPairs.DriversDefineNothing | dependency/gen_objdep.py:92-110 | for all files, no driver of the built tables defines or exports a symbol |
| DriverPairs.DriverKeyIsPatched | kernel_patch/hwfilter.py:198-228 | on built tables a related function under its driver's name is patched if the driver has IR and no outstanding function refers to it, whatever calls it |
| DriverPairs.UndefinedOnList | kernel_patch/hwfilter.py:179-216 | from a list of defined pairs, the undefined pairs that the expansion adds are functions under a driver's name and recorded callers missing in their object's symbol table |
| DriverPairs.BuiltCycleHasGround | kernel_patch/hwfilter.py:239-248 | on built tables, from a list of defined pairs, every cycle of recorded callers in the result passes through a seed or one of these |
| DriverPairs.UndefinedIgnoresCallers | kernel_patch/hwfilter.py:198-228 | for any names: from a list of one defined pair the driver's function is patched and the built-in function that calls it is not |
| DriverOrder.CallersAgreeIff | dependency/gen_objdep.py:265-269 | the callers named are the same for every order of the driver sets iff each name a caller may have is one some caller of that function must have |
| DriverOrder.OrderMatters | dependency/gen_objdep.py:265-269 | otherwise a caller that one order of the sets names and another does not |
| DriverOrder.SingleIsDetermined | dependency/gen_objdep.py:265-269 | the condition holds when no caller's object has two drivers |
| DriverOrder.SharedNameSettles | dependency/gen_objdep.py:265-269 | it can hold beside that: a caller in two drivers, and functions of its name in objects of each driver alone |
| DriverOrder.BuiltOrderOnly | dependency/gen_objdep.py:92-242 | two builds from the same files with the same reverse dependencies differ in nothing but the order of driver sets |
| DriverOrder.OrderedKeys | dependency/gen_objdep.py:249-271 | whether `related` fails, and the keys of its dictionary, do not depend on the order in any case |
| DriverOrder.BuildsAgree | kernel_patch/hwfilter.py:173-254 | where all callers are determined, two builds from the same files in any order fail alike and patch the same set |
| DriverOrder.DriverOrderMatters | dependency/gen_objdep.py:265-269 | for any two drivers of a caller's object: the order of their set decides which driver's function is patched |
| Bcd.IncBcd | hwdb/platform/buildplatform.cpp:89-124 | returns the old value and stores the incremented one: machine addition in hex mode, the BCD code of the clamped decimal plus inc otherwise |
| Bcd.ReadDecimal | hwdb/platform/buildplatform.cpp:103-110 | the decimal value of the low digits, digits above 9 read as 9 |
| Bcd.WriteDecimal | hwdb/platform/buildplatform.cpp:116-122 | the BCD code of the low decimal digits |
| Bcd.IncrementAdds | hwdb/platform/buildplatform.cpp:89-124 | on a BCD number the increment adds modulo 10^chars whenever the sum is not negative |
| Bcd.IncrementUndo | hwdb/platform/buildplatform.cpp:89-124 | +1 and -1 undo each other away from the ends |
| Bcd.IncrementWraps | hwdb/platform/buildplatform.cpp:116-122 | 99..9 + 1 is 0 |
| Bcd.DecodeEncode | hwdb/platform/buildplatform.cpp:103-122 | encoding then decoding keeps the low decimal digits |
| Bcd.EncodeDecode | hwdb/platform/buildplatform.cpp:103-122 | decoding then encoding a BCD number gives it back |
| Bcd.BcdOrder | hwdb/platform/buildplatform.cpp:384-408 | BCD numbers compare as integers as their decimal values do |
| UsbRange.CountIsHits | hwdb/platform/buildplatform.cpp:384-408 | the number of emitted entries covering a value, by recursion on digits |
| UsbRange.RangeExact | hwdb/platform/buildplatform.cpp:384-408 | with both bounds in the digit range a value is covered once if lo <= v <= hi and never otherwise, for any number of digits |
| UsbRange.RangesOrdered | hwdb/platform/buildplatform.cpp:384-408 | entries are printed with ever fewer digits spelled out, and of two with as many digits the lower one first |
| UsbRange.RangeOpen | hwdb/platform/buildplatform.cpp:369-408 | with no upper bound a value from lo up is covered, and everything once more exactly when lo is above max * 16^(n-1) |
| UsbSaturation.RangeSaturated | hwdb/platform/buildplatform.cpp:377-408 | decimal mode with an upper bound above 99..9: exact on decimal values if the bound saturates, otherwise 99..9 is covered by nothing |
| UsbSaturation.RangeUnsaturated | hwdb/platform/buildplatform.cpp:377-408 | if it does not saturate, the decimal values from lo to one computed from the bounds are covered once, and no others |
| UsbSaturation.RangeSaturatedAtMost | hwdb/platform/buildplatform.cpp:377-408 | and in either case no decimal value is covered twice or below lo |
| UsbText.DoUsbEntry | hwdb/platform/buildplatform.cpp:303-323 | prints the prefix, the digit class and the star of an entry |
| UsbText.PrintRange | hwdb/platform/buildplatform.cpp:306-321 | prints the digit, the class, or nothing for a full range |
| UsbText.ClassMembers | hwdb/platform/buildplatform.cpp:309-320 | the members of the class are exactly the hexadecimal digits lo..hi, never a character between `9` and `A` |
| UsbText.GlobDenotes | hwdb/platform/buildplatform.cpp:303-323 | over values with digits up to max, the printed text matches what the entry covers, and nothing if the entry is a full range on the last digit |
| UsbText.GlobDenotesAll | hwdb/platform/buildplatform.cpp:303-323 | over all n-digit values: a full range leaves its digit free if a star follows |
| UsbText.HexSplit | hwdb/platform/buildplatform.cpp:305-305 | zero-filled hexadecimal splits at any digit |
| UsbDump.FindMode | hwdb/platform/buildplatform.cpp:373-382 | hex mode iff some digit of the bounds, the upper one cut to 99..9, exceeds 9 |
| UsbDump.ModeDigits | hwdb/platform/buildplatform.cpp:373-382 | what the mode says about the digits of both bounds |
| UsbDump.EntriesShaped | hwdb/platform/buildplatform.cpp:384-408 | every entry has its digits in order and a prefix of its own length |
| UsbDump.Round | hwdb/platform/buildplatform.cpp:384-408 | one iteration: the entries printed, the bounds it leaves, and whether it was the last |
| UsbDump.Peel | hwdb/platform/buildplatform.cpp:397-407 | the entries for the digits above lo's and below hi's, and the stepped bounds |
| UsbDump.DumpUsbId | hwdb/platform/buildplatform.cpp:366-408 | the lines printed are the texts of the range's entries in order |
| UsbExact.DumpIsFaithful | hwdb/platform/buildplatform.cpp:366-408 | over values whose digits do not exceed the largest of the reading (9 or F), the printed patterns match exactly the range iff it is in none of the three families |
| UsbExact.Misjudged | hwdb/platform/buildplatform.cpp:366-408 | for every range in a family, such a value it misses or adds |
| UsbExact.DeviceCount | hwdb/platform/buildplatform.cpp:366-408 | over values with digits up to the largest of the reading: how many entries cover each, for every range; in the third family one from lo to some value below 99..9, and none after |
| UsbExact.PatternsDenote | hwdb/platform/buildplatform.cpp:303-408 | over values with digits up to the largest of the reading, a value is matched iff some entry covers it and the last digit is not lost |
| UsbExact.EntryBound | hwdb/platform/buildplatform.cpp:384-408 | at most 2(n-1)+1 entries for every range |
| UsbExact.EntriesDisjoint | hwdb/platform/buildplatform.cpp:384-408 | over values with digits up to the largest of the reading, none is covered by two entries unless the carry was lost |
| UsbWide.SomeIsWide | hwdb/platform/buildplatform.cpp:384-408 | over all values, which of them the entries of a decimal range match, by recursion on digits |
| UsbWide.AskedIsTight | hwdb/platform/buildplatform.cpp:384-408 | those entries match exactly an interval of all values iff each round leaves neither a gap nor an excess |
| UsbAllDigits.PatternsMatch | hwdb/platform/buildplatform.cpp:303-408 | over all n-digit values, a value is matched iff some entry matches it |
| UsbAllDigits.AllDigitsAgree | hwdb/platform/buildplatform.cpp:366-408 | over all n-digit values the patterns match exactly the range iff it closes (decimal) or is in none of the families (hexadecimal) |
| UsbAllDigits.MissedExample | hwdb/platform/buildplatform.cpp:366-408 | one range: d0100-d9999, in no family, misses d0A00 |
| UsbAllDigits.AddedExample | hwdb/platform/buildplatform.cpp:366-408 | one range: d1000-d1999, in no family, matches d1FFF |
| UsbExact.UnfaithfulExamples | hwdb/platform/buildplatform.cpp:366-408 | a range of each family with four digits |
| RegisterApis.CollectFunction | hwdb/platform/buildplatform.cpp:1246-1262 | a function is collected iff it makes a plain call to a known name |
| RegisterApis.Commit | hwdb/platform/buildplatform.cpp:1265-1268 | the collected names become known, but for `init_module` |
| RegisterApis.RegisterFixpoint | hwdb/platform/buildplatform.cpp:1240-1269 | collected are exactly the functions with a call path to a seed on which nothing calls `init_module` |
| RegisterApis.DrvDevRegPass.SweepInPlace | driver_model/llvm-pass/drvdevreg/DrvDevReg.cpp:58-77 | a sweep adds only functions with a call path to the start, and one that adds nothing is closed |
| RegisterApis.DrvDevRegPass.CloseInPlace | driver_model/llvm-pass/drvdevreg/DrvDevReg.cpp:56-83 | the closure is the start and the functions with a call path to it |
| RegisterApis.DrvDevRegPass.RunOnModule | driver_model/llvm-pass/drvdevreg/DrvDevReg.cpp:27-149 | the new state of all four sets and which functions are reported |
| RegisterApis.ReportedIffClimbs | driver_model/llvm-pass/drvdevreg/DrvDevReg.cpp:114-146 | an exported function with arguments is reported iff it has a call path to a seed |
| RegisterApis.SchedulesAgree | hwdb/platform/buildplatform.cpp:1240-1269 | on one call graph both schedules compute the same closure iff `init_module` reaches no seed or each of its callers is a seed or reaches one without it |
| RegisterApis.SchedulesDiffer | hwdb/platform/buildplatform.cpp:1265-1268 | one call graph on which they differ |
| RegisterApis.CollectedIffAvoids | hwdb/platform/buildplatform.cpp:1265-1268 | a function is missed by the committing form iff every path from it to a seed calls `init_module` |
| RegisterApis.CommitCollectsLess | hwdb/platform/buildplatform.cpp:1265-1268 | what the committing form misses has a path to `init_module`, which has one to a seed |
| Bitcode.PlainEdgesAre | hwdb/platform/buildplatform.cpp:1246-1262 | the calls main looks at: direct, not inline assembly, with an operand that is not null |
| Bitcode.NamedEdgesAre | driver_model/llvm-pass/drvdevreg/DrvDevReg.cpp:58-77 | the pass looks at every call with an operand |
| ModuleWorklist.Visit | hwdb/platform/buildplatform.cpp:1140-1176 | the list empties on every call graph and visits exactly the functions reachable from the entry |
| ModuleWorklist.Expand | hwdb/platform/buildplatform.cpp:1147-1175 | one popped function pushes its unmarked callees and finds its register calls |
| ModuleWorklist.ResolveFinds | hwdb/platform/buildplatform.cpp:1095-1138 | an entry resolves iff some candidate name is a function of the module, and then to the first function with the first such name |
| ModuleWorklist.EntryResolves | hwdb/platform/buildplatform.cpp:1095-1138 | which function an entry resolves to: the first named as the entry, else with `_init`, else with `_driver_init`, else `usb_serial_module_init`, else `init_module` |
| ModuleWorklist.CallsAre | hwdb/platform/buildplatform.cpp:1148-1166 | which calls are followed and which are register calls |
| ModuleWorklist.VisitEntries | hwdb/platform/buildplatform.cpp:1095-1177 | when every entry resolves, left over are exactly the register calls in functions unreachable from all entries |
| ModuleWorklist.ProcessModuleFile | hwdb/platform/buildplatform.cpp:1065-1202 | the outcome, and for which module names each register call was handled, fix-up of merged drivers included; if an entry does not resolve, the first such entry, with what the entries before it handled |
| GlobalUsers.CheckStructInit | hwdb/platform/buildcallgraph.cpp:41-51 | true iff `collectCB` would be non-empty |
| GlobalUsers.CollectCB | hwdb/platform/buildcallgraph.cpp:53-63 | the union over the nested initializers |
| GlobalUsers.CallbacksOccur | hwdb/platform/buildcallgraph.cpp:41-63 | a function is collected iff it occurs somewhere in the initializer |
| GlobalUsers.TraceUsers | hwdb/platform/buildcallgraph.cpp:250-281 | ends on cyclic use chains with exactly the functions holding an instruction reachable through constants |
| GlobalUsers.UsersAre | hwdb/platform/buildcallgraph.cpp:250-281 | a function uses a value iff a chain of constants leads from a direct user to one of its instructions |
| GlobalUsers.InsertKeeps | hwdb/platform/buildcallgraph.cpp:262-268 | inserting keeps earlier entries and adds to the given keys only |
| GlobalUsers.CallGraph.AddGlobal | hwdb/platform/buildcallgraph.cpp:235-282 | the new tables: users import the callbacks of an initialized global, or are linked to an external one by name |
| BuildDeps.FixedIsEval | comp_unit/get-build-deps.py:85-102 | with all variables fixed satisfiability is evaluation under the configuration |
| BuildDeps.EvalDependsOnVars | comp_unit/get-build-deps.py:85-102 | a formula's value depends on its own variables only |
| BuildDeps.Analysis.ExecuteCheckSat | comp_unit/get-build-deps.py:85-102 | an object survives iff its formula holds under the configuration |
| BuildDeps.Analysis.SelectSat | comp_unit/get-build-deps.py:174-189 | kept are exactly the surviving objects, in order |
| BuildDeps.KeptMembers | comp_unit/get-build-deps.py:174-189 | kept are exactly the objects whose formula holds, each as often as listed |
| BuildDeps.KeptOrder | comp_unit/get-build-deps.py:183-189 | of two kept objects the one listed first comes first |
| BuildDeps.KeptStaysSorted | comp_unit/get-build-deps.py:183-189 | a list sorted in any sense stays sorted |
| BuildDeps.VarsAreReplaceable | comp_unit/get-build-deps.py:171-172 | the variables of a formula are exactly those that can be replaced in it |
| BuildDeps.EvalSubst | comp_unit/get-build-deps.py:85-102 | replacing a variable by a formula sets it to the formula's value |
| BuildDeps.Analysis.CheckBuildDeps | comp_unit/get-build-deps.py:104-124 | no candidate whose variables occur in the parent is rejected |
| BuildDeps.Analysis.DepsInRange | comp_unit/get-build-deps.py:133-153 | the dependencies of a parent within one half |
| BuildDeps.Analysis.PrintDeps | comp_unit/get-build-deps.py:193-209 | printed are exactly the pairs i < j with the variables of j among those of i, each once; a transitive acyclic relation |
| DepRules.RuleReadsBack | dependency/gen_objdep.py:39-49 | a printed rule reads back as its pairs |
| DepRules.RulesReadBack | dependency/gen_objdep.py:35-50 | printed rules read back as the inverse of all their pairs |
| DepRules.GenDep | comp_unit/gen-dep.py:10-32 | the text is one rule per object, sorted by object, each with the second words of its lines in order; it fails iff a line has fewer than two words |
| DepRules.CollectPairs | comp_unit/gen-dep.py:12-16 | every line's second word is filed under its first, in order |
| DepRules.LoadBtobjDeps | dependency/gen_objdep.py:35-50 | the dictionary holds exactly the relation the text says, no set shared; it fails iff a non-empty line is not a rule |
| DepRules.PrintThenLoad | comp_unit/gen-dep.py:12-22 | printing and reading back inverts the pairs, up to path join and renaming |
| DepRules.OneRule | dependency/gen_objdep.py:35-50 | the rule "l: o" gives exactly the pair (o, l), renamed |
| DepRules.NormIs | dependency/gen_objdep.py:44-48 | a name is put behind the build directory unless absolute, and every `-` becomes `_` |
| DepRules.RuleIs | comp_unit/gen-dep.py:18-22 | the text of a rule, one space before each object |
| DepRules.LineIs | comp_unit/gen-dep.py:13-16 | the line "a c" files c under a |
| DepRules.CusOfConcat | comp_unit/gen-dep.py:13-16 | words of earlier lines come first |
| DepRules.TokensSplit | comp_unit/gen-dep.py:15-15 | `split` cuts at every white space |
| DepRules.StripIs | dependency/gen_objdep.py:38-42 | `strip` takes the white space at both ends and nothing else |
| DepRules.LessIs | comp_unit/gen-dep.py:18-18 | strings are ordered by their first difference |
| Intervals.Merge | kernel_patch/disasm.py:93-110 | for any disjoint intervals the merged ones cover the same bytes and none touches the next |
| Intervals.SeparatedIsCanonical | kernel_patch/disasm.py:93-110 | there is only one such set of intervals |
| Disasm.Scan | kernel_patch/disasm.py:68-92 | keeps the first n instructions where the decoder, the limit or a final instruction with no outstanding jump stops it; fails on a jump to a non-number that does not stop it |
| Disasm.OutcomeIsUnique | kernel_patch/disasm.py:68-92 | the count kept is determined, and excludes failure |
| Disasm.Disasm | kernel_patch/disasm.py:55-110 | nothing, or one interval from the entry of at most three instructions |
| ScanStops.EndsIff | kernel_patch/disasm.py:83-91 | an instruction ends the scan iff its mnemonic begins with "ret", or with "j" and its operand is not all digits, and no earlier forward jump leads past it; it makes the scan fail iff it begins with "j", is no number and does not end it |
| ScanStops.IntervalIs | kernel_patch/disasm.py:68-92 | the interval ends with the first such instruction, exactly, if no jump comes before |
| ScanStops.IntervalEndsBy | kernel_patch/disasm.py:68-92 | it never reaches past one that no jump precedes |
| ScanStops.SingleReturn | kernel_patch/disasm.py:90-91 | a function that is a single return takes no byte of the next one |
| ScanStops.ReturnJumpedOver | kernel_patch/disasm.py:87-91 | a jump past a return keeps the scan going behind it |
| PatchKernel.PatchImage | kernel_patch/hwfilter.py:546-571 | the image after all symbols; fails iff an index leaves the image |
| PatchKernel.WriteEntry | kernel_patch/hwfilter.py:553-568 | skips endbr and call stub, then writes RET and NOPs |
| PatchKernel.ImageStaysInside | kernel_patch/hwfilter.py:546-571 | the image keeps its length and every byte outside the ranges |
| PatchKernel.EntryBecomesRet | kernel_patch/hwfilter.py:553-566 | a range longer than its stub becomes stub, one RET, NOPs |
| PatchKernel.EntryBytes | kernel_patch/hwfilter.py:553-566 | byte for byte: f3 0f 1e fa/fb and e8 with four bytes stay, then c3 and 90 to the end |
| PatchKernel.NextRange | kernel_patch/hwfilter.py:551-571 | a second range of a symbol is all 90 if the first got its RET, else treated as the entry |
| PatchKernel.StubOnlyIsKept | kernel_patch/hwfilter.py:562-568 | a range no longer than its stub is left alone |
| PatchKernel.PatchTwice | kernel_patch/hwfilter.py:546-571 | patching a range twice equals patching it once |
| PatchKernel.PatchedIndependently | kernel_patch/hwfilter.py:546-571 | with aliased or separate symbols each looks as if it alone had been patched |
| PatchKernel.OrderAndAliasesIrrelevant | kernel_patch/hwfilter.py:546-571 | then neither order nor repetition of the symbols matters |
| PatchOrder.OrdersAgreeIff | kernel_patch/hwfilter.py:546-571 | any two ranges that can be patched alone may be patched in either order iff they start together, or the higher one does not start in the lower one's endbr and their RETs and NOPs, placed by starts, lengths and stub lengths, leave the same bytes either way |
| PatchOrder.StubOfHigher | kernel_patch/hwfilter.py:553-561 | the stub that the higher range has left after the lower one was patched |
| PatchOrder.StubOfLower | kernel_patch/hwfilter.py:553-561 | the stub that the lower range has left after the higher one was patched |
| PatchOrder.OverlapsDoNotCommute | kernel_patch/hwfilter.py:546-571 | one image: the six bytes a scan takes from a push before an endbr and the six it takes from the endbr depend on the order |
| PatchOrder.OverlapsMayCommute | kernel_patch/hwfilter.py:546-571 | one image: the six bytes a scan takes from an endbr and the three it takes from the push behind it do not |
| PatchScans.StraightScan | kernel_patch/disasm.py:68-92 | three instructions without jump and return are the one outcome of a scan |
| PatchScans.ScannedDoNotCommute | kernel_patch/hwfilter.py:546-571 | the ranges of `OverlapsDoNotCommute` are what scans of that image yield |
| PatchScans.ScannedMayCommute | kernel_patch/hwfilter.py:546-571 | and so are those of `OverlapsMayCommute` |
| PatchReturns.BothReturnIff | kernel_patch/hwfilter.py:546-571 | for any two ranges that get a RET each, and both orders: the later one returns; the earlier returns iff its endbr is unbroken and, placed by starts, lengths and stub lengths, the other's bytes spare its stub and RET or put a RET in place |
| PatchReturns.SameStartReturns | kernel_patch/hwfilter.py:546-571 | from the same start both return |
| AliasDb.RewriteIsInjective | kernel_patch/hwfilter.py:120-122 | different aliases keep different entries |
| AliasDb.GlobImpliesRegex | kernel_patch/hwfilter.py:120-128 | what a plain alias matches as a shell pattern its rewritten form matches as a regular expression |
| AliasExact.ExactImpliesGlob | kernel_patch/hwfilter.py:120-128 | for an alias without `?`, without `.` outside brackets and with a star at its end, the converse holds |
| AliasExact.Disagreement | kernel_patch/hwfilter.py:120-128 | for any other plain ASCII alias, a device that only the rewritten form matches |
| AliasExact.AgreesIffExact | kernel_patch/hwfilter.py:120-128 | a plain ASCII alias and its rewritten form match the same devices iff the alias has no `?`, no `.` outside brackets, and ends in a star |
| AliasExact.StarExample | kernel_patch/hwfilter.py:120-128 | one alias: `a` also matches `ab` |
| AliasExact.QuestionExample | kernel_patch/hwfilter.py:120-128 | one alias: `a?*` also matches `a` |
| AliasExact.DotExample | kernel_patch/hwfilter.py:120-128 | one alias: `a.*` also matches `ab` |
| AliasDb.LoadDb | kernel_patch/hwfilter.py:109-130 | raises iff a line lacks four fields or an alias does not compile; each alias leads to the module of its last line, and `modlist` holds exactly the modules of aliases matching a device |
| AliasDb.ReadDb | kernel_patch/hwfilter.py:116-123 | the alias and driver tables, each key with its last line |
| AliasDb.GoodIs | kernel_patch/hwfilter.py:116-122 | the database is read iff every line has four fields and its rewritten fourth field compiles |
| AliasDb.TablesAre | kernel_patch/hwfilter.py:116-123 | the last line with an alias gives its module, the last line with a module its entry |
| AliasDb.ModlistIs | kernel_patch/hwfilter.py:109-130 | `modlist` holds exactly the modules of last lines whose rewritten alias matches a device |
| AliasDb.MatchedAliasIsDetected | kernel_patch/hwfilter.py:109-130 | for each plain alias matching a device the module on its last line is in `modlist` |
| AliasFields.GlobConcat | kernel_patch/hwfilter.py:120-128 | patterns that match the parts of a text match it in one |
| UsbDetect.DeviceGlobIsPlain | hwdb/platform/buildplatform.cpp:303-323 | every printed device pattern is a plain alias |
| UsbDetect.MatchedIsDetected | kernel_patch/hwfilter.py:109-130 | every version that a printed pattern matches, inside any plain alias around it, is matched by the rewritten form of that line |
| UsbDetect.RangeIsDetected | kernel_patch/hwfilter.py:109-130 | so is every version of a range with digits up to the largest of the reading outside the first and third family, and every version of a decimal range that closes |
| AliasFields.RegexSplits | kernel_patch/hwfilter.py:120-128 | what the rewritten form of two patterns matches falls into two parts, one for each |
| AliasFields.RegexJoins | kernel_patch/hwfilter.py:120-128 | and two such parts make a whole |
| AliasFields.TagPlace | kernel_patch/hwfilter.py:120-128 | a tag that is in no earlier tag stands in a signature only in its place |
| AliasFields.MatchesFieldwise | kernel_patch/hwfilter.py:120-128 | a rewritten alias of tagged fields matches a signature of that form iff each field is matched (the last one up to its end or before) |
| UsbLine.PrintAlias | hwdb/platform/buildplatform.cpp:295-333 | the text of the alias: each tag with its value or a star, the version pattern, and a star after an interface number |
| UsbLine.AddField | hwdb/platform/buildplatform.cpp:68-73 | a tag, then the zero-filled value or a star |
| UsbLine.HubText | hwdb/platform/buildplatform.cpp:295-333 | one device: its signature, part by part |
| UsbLine.HubAlias | hwdb/platform/buildplatform.cpp:295-333 | one entry, with and without an interface number: its alias, part by part |
| UsbLine.LineMatches | kernel_patch/hwfilter.py:109-130 | a printed alias recognizes a device signature iff the values asked for agree and the version pattern matches |
| UsbLine.EntryRecognizes | kernel_patch/hwfilter.py:109-130 | some alias of a table entry recognizes a device iff the values agree and some version pattern matches |
| UsbLine.EntryFaithfulIff | hwdb/platform/buildplatform.cpp:295-408 | over versions with digits up to the largest of the reading, the aliases recognize exactly the devices the entry means iff the range is in none of the families |
| UsbLine.EntryExactIff | hwdb/platform/buildplatform.cpp:295-408 | over all devices they do iff the range closes (decimal) or is in none of the families (hexadecimal) |

## Left out

- Reading constants out of LLVM (`dump_*_id` fields, `handle_*`, `findBaseClass`, `collectFP`), ELF files, `nm` and `objdump`: their results are given sequences, sets and trees.
- The early returns of `dump_usb_id` on missing or 0xFFFF fields: the model starts from the values of an entry and its flags.
- The type, entry and module words in front of an alias in a database line, which are printed as given.
- Locales and backslash quoting in shell patterns, and character classes such as `[:alpha:]`: patterns are ASCII text.
- White space beyond ASCII in `split` and `strip` of the dependency rules.
- The tables `inlined` and `fpref_map` of ObjDeps, which nothing reads.
- ObjBuild.TreeWalk.LoadFile: takes the objects of a `.mod` file as given, because which of them are skipped depends on the Makefiles around them.
- Splitting the per-object files into lines and rows, and the file name suffixes that tell their kind: files are given as rows of names.
- What order a Python set of drivers has: a driver set is a sequence without repetition in its iteration order, and any order is allowed.
- The four callback parameters of `check_fdep`, which it never reads, `load_busreg_apis`, which always returns the empty set, and `check_drivers`.
- Basic blocks: the instructions of a function are one sequence.
- ModuleWorklist.ProcessModuleFile: exceptions of `dispatch_callinst` and the entry name it is given are not modelled, because they only affect the text it writes.
- RegisterApis.DrvDevRegPass.RunOnModule: reports one entry a function where the source prints one line a call, because only which functions are reported is used.
- GlobalUsers.CallGraph.AddGlobal: `checkStructType` is a given flag, because it walks LLVM types only.
- Parsing the formulas of the build dependencies, which the source leaves to `eval`, and the worker processes, which return results in order.
- AliasDb.LoadDb: takes the database as lines of fields; `modlist` is stated by its members, because apart from a log line its users only test membership.
- The second patch loop, for loadable modules (`kernel_patch/hwfilter.py:711-742`), which differs by slices and an assertion.
- `modinitcb.py`, `kreader-normalize.py`, `uniq-funcs.py` and the suffix stripping of initcall names: text handling.
- The process pools of `kernel/buildir.py` and `kernel/linkir.py`.
