/** LLVM modules as far as the register-API analyses look at them. */
module Bitcode {
  import opened Options

  /** A call: the name of its operand, if any, and the function it resolves to,
      as an index into the functions of its module. */
  datatype Inst =
    | Other
    | Call(operand: Option<string>, inlineAsm: bool, indirect: bool, nullOperand: bool, callee: Option<nat>)
  {
    /** The filter of hwdb/platform/buildplatform.cpp. */
    predicate Plain() { Call? && !inlineAsm && !indirect && operand.Some? && !nullOperand }

    /** The filter of driver_model/llvm-pass/drvdevreg/DrvDevReg.cpp. */
    predicate Named() { Call? && operand.Some? }
  }

  datatype Function = Function(name: string, hasArgs: bool, insts: seq<Inst>)

  datatype Module = Module(name: string, functions: seq<Function>) {
    ghost predicate Valid() {
      forall f <- functions, i <- f.insts :: i.Call? && i.callee.Some? ==> i.callee.value < |functions|
    }
  }

  type Edge = (string, string)

  /** (caller, callee) by name, for the calls main looks at. */
  function PlainEdges(m: Module): set<Edge> {
    set f, i | f in m.functions && i in f.insts && i.Plain() :: (f.name, i.operand.value)
  }

  function NamedEdges(m: Module): set<Edge> {
    set f, i | f in m.functions && i in f.insts && i.Named() :: (f.name, i.operand.value)
  }

  function AllPlainEdges(ms: seq<Module>): set<Edge> {
    set m, e | m in ms && e in PlainEdges(m) :: e
  }

  predicate CallTo(i: Inst, name: string) { i.Call? && i.operand == Some(name) }

  /** A call that main looks at: not inline assembly, direct, with an operand that
      is no null pointer. */
  lemma PlainEdgesAre(m: Module, a: string, b: string)
    ensures (a, b) in PlainEdges(m) <==> exists f <- m.functions, i <- f.insts ::
      f.name == a && CallTo(i, b) && !i.inlineAsm && !i.indirect && !i.nullOperand
  {
    if (a, b) in PlainEdges(m) {
      var f, i :| f in m.functions && i in f.insts && i.Plain() && (a, b) == (f.name, i.operand.value);
      assert CallTo(i, b);
    }
    if exists f <- m.functions, i <- f.insts ::
      f.name == a && CallTo(i, b) && !i.inlineAsm && !i.indirect && !i.nullOperand
    {
      var f, i :| f in m.functions && i in f.insts && f.name == a && CallTo(i, b) && i.Plain();
    }
  }

  /** The pass looks at every call with an operand. */
  lemma NamedEdgesAre(m: Module, a: string, b: string)
    ensures (a, b) in NamedEdges(m) <==> exists f <- m.functions, i <- f.insts ::
      f.name == a && CallTo(i, b)
  {
    if (a, b) in NamedEdges(m) {
      var f, i :| f in m.functions && i in f.insts && i.Named() && (a, b) == (f.name, i.operand.value);
      assert CallTo(i, b);
    }
    if f, i :| f in m.functions && i in f.insts && f.name == a && CallTo(i, b) {
      assert (f.name, i.operand.value) in NamedEdges(m);
    }
  }
}
