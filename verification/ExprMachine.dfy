/** The two-stack evaluator of src/exp.c as functions on its stacks: what stackarg, evaltop, doop
    and eval compute. The stacks are the parts above Argibase and Opibase. */
module ExprMachine {
  import opened Operators
  import opened AddressModes
  import opened Lexer
  import opened Symbols

  /** A cell of the operator stack: Oppri and Opdis. An open bracket has priority 0. */
  datatype Entry = Entry(pri: nat, op: Operator)

  const BRACKET := Entry(0, Unary(Invert))

  datatype Machine = Machine(args: seq<Arg>, ops: seq<Entry>, lastWasOp: bool, errors: nat)

  /** One element of the list eval returns. */
  datatype Operand = Operand(mode: Mode, arg: Arg)

  /** eval's local variables: the machine, wantmode, the current symbol's addressing mode and the
      list elements already finished. */
  datatype Scan = Scan(m: Machine, want: bool, mode: Mode, done: seq<Operand>)

  /** What names mean during an evaluation: the table, the scope, and the special symbols. */
  datatype Env = Env(syms: Table, scope: Scope, pc: Arg, dv: Arg, checksum: int)

  datatype Looked = Looked(arg: Arg, errors: nat)

  function Top(ops: seq<Entry>): Entry
    requires ops != []
  {
    ops[|ops| - 1]
  }

  /** stackarg: a value goes through every prefix operator waiting on top, then is pushed. */
  function StackArg(m: Machine, a: Arg): (r: Machine)
    ensures |r.ops| <= |m.ops| && r.ops == m.ops[..|r.ops|]
    decreases |m.ops|
  {
    if m.ops != [] && Top(m.ops).pri == UNARY_PRIORITY then
      StackArg(m.(ops := m.ops[..|m.ops| - 1]), Apply(Top(m.ops).op, a, ZERO))
    else
      m.(args := m.args + [a], lastWasOp := false)
  }

  /** evaltop: pop an operator and apply it to one or two arguments. */
  function EvalTop(m: Machine): (r: Machine)
    requires m.ops != []
    ensures |r.ops| < |m.ops| && r.ops == m.ops[..|r.ops|]
  {
    var top := Top(m.ops);
    var p := m.(ops := m.ops[..|m.ops| - 1]);
    var n := |m.args|;
    if top.pri == UNARY_PRIORITY then
      if n < 1 then p.(args := [], errors := m.errors + 1)
      else StackArg(p.(args := m.args[..n - 1]), Apply(top.op, m.args[n - 1], ZERO))
    else
      if n < 2 then p.(args := [], errors := m.errors + 1)
      else StackArg(p.(args := m.args[..n - 2]), Apply(top.op, m.args[n - 2], m.args[n - 1]))
  }

  /** The reduction loops: apply operators of at least this priority, down to a bracket. */
  function Reduce(m: Machine, pri: nat): (r: Machine)
    ensures |r.ops| <= |m.ops| && r.ops == m.ops[..|r.ops|]
    decreases |m.ops|
  {
    if m.ops != [] && Top(m.ops).pri != 0 && pri <= Top(m.ops).pri
    then Reduce(EvalTop(m), pri)
    else m
  }

  /** doop for a prefix operator. */
  function DoPrefix(m: Machine, u: UnaryOp): Machine {
    m.(lastWasOp := true, ops := m.ops + [Entry(UNARY_PRIORITY, Unary(u))])
  }

  /** doop for a binary operator: reduce what binds at least as tightly, then push. */
  function DoInfix(m: Machine, b: BinaryOp): Machine {
    var r := Reduce(m.(lastWasOp := true), Priority(b));
    r.(ops := r.ops + [Entry(Priority(b), Operator.Binary(b))])
  }

  function DoOpen(m: Machine): Machine {
    m.(ops := m.ops + [BRACKET])
  }

  function DoClose(m: Machine): Machine {
    var r := Reduce(m, 1);
    if r.ops == [] then r else r.(ops := r.ops[..|r.ops| - 1])
  }

  /** A comma: finish the current list element. */
  function DoNext(sc: Scan): Scan {
    var r := Reduce(sc.m, 1).(lastWasOp := true);
    var n := |r.args|;
    var errors := if n == 1 then r.errors else r.errors + 1;
    if n == 0 then
      sc.(m := r.(errors := errors), done := sc.done + [Operand(sc.mode, ZERO)], mode := Imp)
    else
      sc.(m := r.(args := r.args[..n - 1], errors := errors),
          done := sc.done + [Operand(sc.mode, r.args[n - 1])], mode := Imp)
  }

  /** The end of the text: finish the last list element. */
  function Finish(sc: Scan): (seq<Operand>, nat) {
    var r := Reduce(sc.m, 1);
    var n := |r.args|;
    var all := sc.done + [Operand(sc.mode, if n == 0 then ZERO else r.args[n - 1])];
    var fixed := if n != 0 && all[0].mode == Imp then all[0 := all[0].(mode := ByteAdr)] else all;
    (fixed, if n <= 1 && r.ops == [] then r.errors else r.errors + 1)
  }

  const START := Machine([], [], true, 0)

  function Begin(want: bool): Scan {
    Scan(START, want, Imp, [])
  }

  /** What a leaf stands for. An EQM symbol is evaluated on the spot by a nested eval; depth
      bounds that nesting. */
  function Resolve(env: Env, leaf: Leaf, depth: nat): Looked
    decreases depth, 0, 0
  {
    match leaf
    case Decimal(ds) => Looked(Arg(NumberValue(ds, Radix10), false), 0)
    case Octal(ds) => Looked(Arg(NumberValue(ds, Radix8), false), 0)
    case Hex(ds) => Looked(Arg(NumberValue(ds, Radix16), false), 0)
    case Bits(ds) => Looked(Arg(NumberValue(ds, Radix2), false), 0)
    case Character(c) => Looked(Arg(c as int, false), 0)
    case Dot => Looked(env.pc, 0)
    case Star => Looked(env.pc, 0)
    case Name(n) =>
      if n == [] then Looked(ZERO, 0)
      else if n == ".." then Looked(env.dv, 0)
      else if n == "..." then Looked(Arg(env.checksum, false), 0)
      else
        var sym := Find(env.syms, Mangle(n, env.scope));
        if sym.eqm.None? then Looked(Arg(sym.value, sym.unknown), 0)
        else if depth == 0 then Looked(Arg(0, true), 1)
        else
          var r := EvalText(sym.eqm.value, false, env, depth - 1);
          Looked(r.0[0].arg, r.1)
  }

  function Perform(sc: Scan, a: Action, env: Env, depth: nat): Scan
    decreases depth, 0, 1
  {
    match a
    case Skip => sc
    case Push(leaf) =>
      var l := Resolve(env, leaf, depth);
      sc.(m := StackArg(sc.m.(errors := sc.m.errors + l.errors), l.arg))
    case Prefix(u) => sc.(m := DoPrefix(sc.m, u))
    case Infix(b) => sc.(m := DoInfix(sc.m, b))
    case Open => sc.(m := DoOpen(sc.m))
    case Close => sc.(m := DoClose(sc.m))
    case Immediate => sc.(mode := Imm8, want := false)
    case ParenOpen => sc.(mode := IndWord)
    case ParenClose(y) => if y then sc.(mode := IndByteY) else sc
    case Index(mode) => sc.(m := Reduce(sc.m, 1).(lastWasOp := true), mode := mode)
    case Next => DoNext(sc)
    case Bad => sc.(m := sc.m.(errors := sc.m.errors + 1))
  }

  function LexIn(s: string, sc: Scan): (r: Step)
    requires s != []
    ensures 1 <= r.length <= |s|
  {
    Lex(s, sc.m.lastWasOp, sc.want, sc.mode)
  }

  /** eval's loop over the text. */
  function RunText(s: string, sc: Scan, env: Env, depth: nat): Scan
    decreases depth, |s|, 2
  {
    if s == [] then sc
    else
      var l := LexIn(s, sc);
      RunText(s[l.length..], Perform(sc, l.action, env, depth), env, depth)
  }

  /** eval: the list of operands and the number of errors reported. */
  function EvalText(s: string, want: bool, env: Env, depth: nat): (r: (seq<Operand>, nat))
    ensures r.0 != []
    decreases depth, |s|, 3
  {
    Finish(RunText(s, Begin(want), env, depth))
  }
}
