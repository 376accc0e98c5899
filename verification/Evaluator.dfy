/** The evaluator of src/exp.c in its own form: arrays for the two stacks, indices and bases into
    them, and a nested call of eval for every EQM symbol. Each method computes what the functions
    of ExprMachine say. */
module Evaluator {
  import opened Operators
  import opened AddressModes
  import opened Lexer
  import opened Symbols
  import M = ExprMachine
  import opened ExprTree
  import opened ExprText
  import opened EvalSafety

  /** pushdec, pushoct, pushhex and pushbin: convert the digits at the front of a text. */
  method ReadNumber(s: string, r: Radix) returns (val: int, n: nat)
    ensures n == DigitSpan(s, r)
    ensures val == NumberValue(s[..n], r)
  {
    val, n := 0, 0;
    while n < |s| && r.IsDigit(s[n])
      invariant n <= |s|
      invariant forall i :: 0 <= i < n ==> r.IsDigit(s[i])
      invariant val == NumberValue(s[..n], r)
    {
      assert s[..n + 1][..n] == s[..n];
      val := val * r.Base() + DigitValue(s[n]);
      n := n + 1;
    }
    SpanIs(s, r, n);
  }

  lemma {:induction false} SpanIs(s: string, r: Radix, n: nat)
    requires n <= |s| && (forall i :: 0 <= i < n ==> r.IsDigit(s[i]))
    requires n < |s| ==> !r.IsDigit(s[n])
    ensures DigitSpan(s, r) == n
  {
    if n > 0 {
      SpanIs(s[1..], r, n - 1);
    }
  }

  /** Two symbols that stand for the same thing. */
  predicate SameMeaning(a: Symbol, b: Symbol) {
    a.(ref := false) == b.(ref := false)
  }

  ghost predicate Agree(t: Table, syms: Table) {
    forall k :: SameMeaning(Find(t, k), Find(syms, k))
  }

  class Evaluator {
    const argStack: array<int>
    const argFlags: array<bool>
    const opPri: array<nat>
    const opDis: array<Operator>
    var argi: nat
    var opi: nat
    var argiBase: nat
    var opiBase: nat
    var lastWasOp: bool
    var errors: nat

    var table: Table
    var scope: Scope
    var pc: Arg
    var dv: Arg
    var checksum: int
    var redoEval: nat

    // The contents of the stacks: what lies below the bases, and the machine above them.
    ghost var lowArgs: seq<Arg>
    ghost var lowOps: seq<M.Entry>
    ghost var view: M.Machine
    ghost var errorBase: nat

    predicate ArgIs(i: nat, a: Arg)
      requires i < argStack.Length && i < argFlags.Length
      reads argStack, argFlags
    {
      a == Arg(argStack[i], argFlags[i])
    }

    predicate OpIs(i: nat, e: M.Entry)
      requires i < opPri.Length && i < opDis.Length
      reads opPri, opDis
    {
      e.pri == opPri[i] && (e.pri != 0 ==> e.op == opDis[i])
    }

    ghost predicate Valid()
      reads this, argStack, argFlags, opPri, opDis
    {
      && argStack.Length == argFlags.Length == MAXARGS
      && opPri.Length == opDis.Length == MAXOPS
      && argStack as object != opPri
      && argiBase == |lowArgs| && argi == argiBase + |view.args| < MAXARGS
      && opiBase == |lowOps| && opi == opiBase + |view.ops| < MAXOPS
      && lastWasOp == view.lastWasOp && errors == errorBase + view.errors
      && (forall i :: 0 <= i < |lowArgs| ==> ArgIs(i, lowArgs[i]))
      && (forall i :: 0 <= i < |view.args| ==> ArgIs(argiBase + i, view.args[i]))
      && (forall i :: 0 <= i < |lowOps| ==> OpIs(i, lowOps[i]))
      && (forall i :: 0 <= i < |view.ops| ==> OpIs(opiBase + i, view.ops[i]))
    }

    constructor ()
      ensures Valid() && fresh(argStack) && fresh(argFlags) && fresh(opPri) && fresh(opDis)
      ensures argi == 0 && opi == 0 && argiBase == 0 && opiBase == 0 && errors == 0
      ensures table == map[] && redoEval == 0
    {
      argStack := new int[MAXARGS];
      argFlags := new bool[MAXARGS];
      opPri := new nat[MAXOPS];
      opDis := new Operator[MAXOPS](_ => Unary(Invert));
      argi, opi, argiBase, opiBase := 0, 0, 0, 0;
      lastWasOp, errors, errorBase := true, 0, 0;
      lowArgs, lowOps, view := [], [], M.START;
      table, scope, pc, dv, checksum, redoEval := map[], Scope(0, 0), ZERO, ZERO, 0, 0;
    }

    // -------------------------------------------------------------------------
    // The stacks. The source's reports of a full stack are out of reach under the preconditions.

    method PushArgument(val: int, flags: bool)
      requires Valid() && argi + 1 < MAXARGS
      modifies `argi, `lastWasOp, `view, argStack, argFlags
      ensures Valid()
      ensures view == old(view).(args := old(view).args + [Arg(val, flags)], lastWasOp := false)
    {
      lastWasOp := false;
      argStack[argi] := val;
      argFlags[argi] := flags;
      argi := argi + 1;
      view := view.(args := view.args + [Arg(val, flags)], lastWasOp := false);
    }

    method StackArg(val: int, flags: bool)
      requires Valid() && argi + 1 < MAXARGS
      modifies `argi, `opi, `lastWasOp, `errors, `view, argStack, argFlags
      ensures Valid() && view == M.StackArg(old(view), Arg(val, flags))
      decreases opi, 1
    {
      hide Apply, M.EvalTop;
      ghost var m, a := view, Arg(val, flags);
      TopIsNoPrefix(m, a);
      PushArgument(val, flags);
      while opi != opiBase && opPri[opi - 1] == UNARY_PRIORITY
        invariant Valid() && opi <= old(opi)
        invariant view == M.StackArg(m, a) || view == m.(args := m.args + [a], lastWasOp := false)
        decreases opi
      {
        assert OpIs(opiBase + |view.ops| - 1, M.Top(view.ops));
        if view == m.(args := m.args + [a], lastWasOp := false) {
          PrefixReduces(view, m, a);
        }
        EvalTop();
      }
      assert opi != opiBase ==> OpIs(opiBase + |view.ops| - 1, M.Top(view.ops));
    }

    method PopOperator() returns (pri: nat, op: Operator)
      requires Valid() && opiBase < opi && opPri[opi - 1] != 0
      modifies `opi, `view
      ensures Valid() && opi == old(opi) - 1 && old(view).ops != []
      ensures M.Entry(pri, op) == M.Top(old(view).ops)
      ensures view == old(view).(ops := old(view).ops[..|old(view).ops| - 1])
    {
      assert OpIs(opiBase + |view.ops| - 1, M.Top(view.ops));
      opi := opi - 1;
      view := view.(ops := view.ops[..|view.ops| - 1]);
      pri, op := opPri[opi], opDis[opi];
    }

    method PopArgument() returns (val: int, flags: bool)
      requires Valid() && argiBase < argi
      modifies `argi, `view
      ensures Valid() && argi == old(argi) - 1 && old(view).args != []
      ensures Arg(val, flags) == old(view).args[|old(view).args| - 1]
      ensures view == old(view).(args := old(view).args[..|old(view).args| - 1])
    {
      assert ArgIs(argiBase + |view.args| - 1, view.args[|view.args| - 1]);
      argi := argi - 1;
      view := view.(args := view.args[..|view.args| - 1]);
      val, flags := argStack[argi], argFlags[argi];
    }

    method Underflow()
      requires Valid()
      modifies `argi, `errors, `view
      ensures Valid() && view == old(view).(args := [], errors := old(view).errors + 1)
    {
      errors := errors + 1;
      argi := argiBase;
      view := view.(args := [], errors := view.errors + 1);
    }

    method EvalTop()
      requires Valid() && opiBase < opi && opPri[opi - 1] != 0
      modifies `argi, `opi, `lastWasOp, `errors, `view, argStack, argFlags
      ensures Valid() && view == M.EvalTop(old(view)) && opi < old(opi)
      decreases opi, 0
    {
      hide Apply, M.StackArg;
      ghost var n := |view.args|;
      var pri, op := PopOperator();
      if pri == UNARY_PRIORITY {
        if argi < argiBase + 1 {
          Underflow();
          return;
        }
        var v1, f1 := PopArgument();
        CallOperator(op, v1, 0, f1, false);
      } else {
        if argi < argiBase + 2 {
          Underflow();
          return;
        }
        var v2, f2 := PopArgument();
        var v1, f1 := PopArgument();
        assert old(view).args[..n - 1][..n - 2] == old(view).args[..n - 2];
        CallOperator(op, v1, v2, f1, f2);
      }
    }

    /** (*Opdis[Opi])(...): an op_* routine computes its result and hands it to stackarg. */
    method CallOperator(op: Operator, v1: int, v2: int, f1: bool, f2: bool)
      requires Valid() && argi + 1 < MAXARGS
      modifies `argi, `opi, `lastWasOp, `errors, `view, argStack, argFlags
      ensures Valid() && view == M.StackArg(old(view), Apply(op, Arg(v1, f1), Arg(v2, f2))) && opi <= old(opi)
      decreases opi, 2
    {
      hide Apply;
      var r := Apply(op, Arg(v1, f1), Arg(v2, f2));
      StackArg(r.value, r.unknown);
    }

    /** The loops that reduce: while the top operator is no bracket and binds at least this
        tightly, apply it. */
    method Reduce(pri: nat)
      requires Valid()
      modifies `argi, `opi, `lastWasOp, `errors, `view, argStack, argFlags
      ensures Valid() && view == M.Reduce(old(view), pri)
    {
      hide Apply, M.EvalTop;
      while opi != opiBase && opPri[opi - 1] != 0 && pri <= opPri[opi - 1]
        invariant Valid()
        invariant M.Reduce(view, pri) == M.Reduce(old(view), pri)
        decreases opi
      {
        assert OpIs(opiBase + |view.ops| - 1, M.Top(view.ops));
        EvalTop();
      }
      assert opi != opiBase ==> OpIs(opiBase + |view.ops| - 1, M.Top(view.ops));
    }

    method PushOperator(e: M.Entry)
      requires Valid() && opi + 1 < MAXOPS
      modifies `opi, `view, opPri, opDis
      ensures Valid() && view == old(view).(ops := old(view).ops + [e])
    {
      if e.pri != 0 {
        opDis[opi] := e.op;
      }
      opPri[opi] := e.pri;
      opi := opi + 1;
      view := view.(ops := view.ops + [e]);
    }

    method DoOp(op: Operator, pri: nat)
      requires Valid()
      requires opiBase + |(if op.Unary? then M.DoPrefix(view, op.u) else M.DoInfix(view, op.b)).ops| < MAXOPS
      requires pri == if op.Unary? then UNARY_PRIORITY else Priority(op.b)
      modifies `argi, `opi, `lastWasOp, `errors, `view, argStack, argFlags, opPri, opDis
      ensures Valid() && view == if op.Unary? then M.DoPrefix(old(view), op.u) else M.DoInfix(old(view), op.b)
    {
      lastWasOp := true;
      view := view.(lastWasOp := true);
      if opi == opiBase || pri == UNARY_PRIORITY {
        PushOperator(M.Entry(pri, op));
        return;
      }
      Reduce(pri);
      PushOperator(M.Entry(pri, op));
    }

    /** ] and, where it closes a bracket, ) */
    method CloseBracket()
      requires Valid()
      modifies `argi, `opi, `lastWasOp, `errors, `view, argStack, argFlags
      ensures Valid() && view == M.DoClose(old(view))
    {
      Reduce(1);
      if opi != opiBase {
        opi := opi - 1;
        view := view.(ops := view.ops[..|view.ops| - 1]);
      }
    }

    // -------------------------------------------------------------------------
    // eval

    /** The evaluation environment is the one the caller reasons about: symbols may have been
        created or marked referenced since, but nothing changed its meaning. */
    ghost predicate Knows(env: M.Env)
      reads this
    {
      Agree(table, env.syms) && scope == env.scope && pc == env.pc && dv == env.dv && checksum == env.checksum
    }

    /** pushsymbol on a symbol that is no macro, or is not in the table yet. */
    method PushSymbol(key: string)
      requires Valid() && argi + 1 < MAXARGS && Find(table, key).eqm.None?
      modifies `argi, `opi, `lastWasOp, `errors, `view, `table, `redoEval, argStack, argFlags
      ensures Valid()
      ensures var sym := Find(old(table), key);
              view == M.StackArg(old(view), Arg(sym.value, sym.unknown))
              && redoEval == old(redoEval) + CountIf(sym.unknown)
      ensures table == Touch(old(table), {key})
    {
      hide M.StackArg;
      if key in table {
        var sym := table[key];
        if sym.unknown {
          redoEval := redoEval + 1;
        }
        StackArg(sym.value, sym.unknown);
        table := table[key := sym.(ref := true)];
      } else {
        StackArg(0, true);
        table := table[key := CREATED.(ref := true)];
        redoEval := redoEval + 1;
      }
      assert table == Touch(old(table), {key});
    }

    /** pushsymbol on an EQM symbol: evaluate its text on top of what is on the stacks. */
    method PushMacro(text: string, ghost env: M.Env, ghost depth: nat)
      requires Valid() && Knows(env) && argi + 1 < MAXARGS
      requires Safe(text, M.Begin(false), env, depth, argi, opi)
      modifies this, argStack, argFlags, opPri, opDis
      ensures Valid() && Knows(env)
      ensures var r := M.EvalText(text, false, env, depth);
              view == M.StackArg(old(view).(errors := old(view).errors + r.1), r.0[0].arg)
      ensures unchanged(`argiBase, `opiBase, `lowArgs, `lowOps, `errorBase)
      ensures var t := TextEffect(text, M.Begin(false), env, depth);
              table == Touch(old(table), t.keys) && redoEval == old(redoEval) + t.unknowns
      decreases depth, 10
    {
      hide M.StackArg, M.EvalText, TextEffect;
      var result := Eval(text, false, env, depth);
      StackArgFlag(old(view).(errors := view.errors), result[0].arg, view.lastWasOp);
      StackArg(result[0].arg.value, result[0].arg.unknown);
    }

    /** pushsymbol: find what the name stands for and put its value on the stack. */
    method PushName(n: string, ghost env: M.Env, ghost depth: nat)
      requires Valid() && Knows(env) && argi + 1 < MAXARGS
      requires EqmText(Name(n), env).Some? ==>
                 depth > 0 && Safe(EqmText(Name(n), env).value, M.Begin(false), env, depth - 1, argi, opi)
      modifies this, argStack, argFlags, opPri, opDis
      ensures Valid() && Knows(env)
      ensures var l := M.Resolve(env, Name(n), depth);
              view == M.StackArg(old(view).(errors := old(view).errors + l.errors), l.arg)
      ensures unchanged(`argiBase, `opiBase, `lowArgs, `lowOps, `errorBase)
      ensures var t := LeafEffect(Name(n), env, depth);
              table == Touch(old(table), t.keys) && redoEval == old(redoEval) + t.unknowns
      decreases depth, 5
    {
      hide M.StackArg, M.EvalText, Trace, Safe, TraceEffect, Mangle;
      TouchNothing(table);
      assert view == view.(errors := view.errors + 0);
      if n == [] {
        StackArg(0, false);
      } else if n == ".." {
        PushSpecial(dv);
      } else if n == "..." {
        StackArg(checksum, false);
      } else {
        PushKey(n, Mangle(n, scope), env, depth);
      }
    }

    method PushKey(n: string, key: string, ghost env: M.Env, ghost depth: nat)
      requires Valid() && Knows(env) && argi + 1 < MAXARGS
      requires n != [] && n != ".." && n != "..." && key == Mangle(n, scope)
      requires EqmText(Name(n), env).Some? ==>
                 depth > 0 && Safe(EqmText(Name(n), env).value, M.Begin(false), env, depth - 1, argi, opi)
      modifies this, argStack, argFlags, opPri, opDis
      ensures Valid() && Knows(env)
      ensures var l := M.Resolve(env, Name(n), depth);
              view == M.StackArg(old(view).(errors := old(view).errors + l.errors), l.arg)
      ensures unchanged(`argiBase, `opiBase, `lowArgs, `lowOps, `errorBase)
      ensures var t := LeafEffect(Name(n), env, depth);
              table == Touch(old(table), t.keys) && redoEval == old(redoEval) + t.unknowns
      decreases depth, 4
    {
      hide M.StackArg, M.EvalText, Trace, Safe, TraceEffect, Mangle, Touch;
      TouchKeepsMeaning(table, LeafEffect(Name(n), env, depth).keys, env.syms);
      assert view == view.(errors := view.errors + 0);
      assert SameMeaning(Find(table, key), Find(env.syms, key));
      if key in table && table[key].eqm.Some? {
        if table[key].unknown {
          redoEval := redoEval + 1;
        }
        ghost var inner := TextEffect(table[key].eqm.value, M.Begin(false), env, depth - 1);
        assert {} + inner.keys == inner.keys;
        PushMacro(table[key].eqm.value, env, depth - 1);
      } else {
        PushSymbol(key);
      }
    }

    /** Put the value of a leaf on the stack. */
    method PushLeaf(leaf: Leaf, ghost env: M.Env, ghost depth: nat)
      requires Valid() && Knows(env) && Spans(leaf) && argi + 1 < MAXARGS
      requires EqmText(leaf, env).Some? ==>
                 depth > 0 && Safe(EqmText(leaf, env).value, M.Begin(false), env, depth - 1, argi, opi)
      modifies this, argStack, argFlags, opPri, opDis
      ensures Valid() && Knows(env)
      ensures var l := M.Resolve(env, leaf, depth);
              view == M.StackArg(old(view).(errors := old(view).errors + l.errors), l.arg)
      ensures unchanged(`argiBase, `opiBase, `lowArgs, `lowOps, `errorBase)
      ensures var t := LeafEffect(leaf, env, depth);
              table == Touch(old(table), t.keys) && redoEval == old(redoEval) + t.unknowns
      decreases depth, 6
    {
      hide M.StackArg, M.EvalText, Trace, Safe, TraceEffect, DigitSpan, NumberValue, Find, Mangle;
      TouchNothing(table);
      assert view == view.(errors := view.errors + 0);
      match leaf
      case Decimal(ds) => PushNumber(ds, Radix10);
      case Octal(ds) => PushNumber(ds, Radix8);
      case Hex(ds) => PushNumber(ds, Radix16);
      case Bits(ds) => PushNumber(ds, Radix2);
      case Character(c) => StackArg(c as int, false);
      case Dot => PushSpecial(pc);
      case Star => PushSpecial(pc);
      case Name(n) => PushName(n, env, depth);
    }

    method PushNumber(ds: string, r: Radix)
      requires Valid() && argi + 1 < MAXARGS && DigitSpan(ds, r) == |ds|
      modifies `argi, `opi, `lastWasOp, `errors, `view, argStack, argFlags
      ensures Valid() && view == M.StackArg(old(view), Arg(NumberValue(ds, r), false))
    {
      var val, n := ReadNumber(ds, r);
      assert ds[..n] == ds;
      StackArg(val, false);
    }

    method PushSpecial(a: Arg)
      requires Valid() && argi + 1 < MAXARGS
      modifies `argi, `opi, `lastWasOp, `errors, `view, `redoEval, argStack, argFlags
      ensures Valid() && view == M.StackArg(old(view), a)
      ensures redoEval == old(redoEval) + CountIf(a.unknown)
    {
      if a.unknown {
        redoEval := redoEval + 1;
      }
      StackArg(a.value, a.unknown);
    }

    /** One case of eval's switch. */
    method Act(a: Action, want: bool, mode: Mode, done: seq<M.Operand>, ghost env: M.Env, ghost depth: nat)
      returns (want': bool, mode': Mode, done': seq<M.Operand>)
      requires Valid() && Knows(env) && (a.Push? ==> Spans(a.leaf))
      requires StepSafe(M.Scan(view, want, mode, done), a, env, depth, argiBase, opiBase)
      modifies this, argStack, argFlags, opPri, opDis
      ensures Valid() && Knows(env)
      ensures M.Scan(view, want', mode', done') == M.Perform(M.Scan(old(view), want, mode, done), a, env, depth)
      ensures unchanged(`argiBase, `opiBase, `lowArgs, `lowOps, `errorBase)
      ensures var t := if a.Push? then LeafEffect(a.leaf, env, depth) else NOTHING;
              table == Touch(old(table), t.keys) && redoEval == old(redoEval) + t.unknowns
      decreases depth, 7
    {
      hide M.StackArg, M.EvalText, M.EvalTop, M.Resolve, M.Reduce, M.DoNext, Safe, LeafEffect, Apply, Touch, Agree,
        TextEffect, Spans;
      TouchNothing(table);
      want', mode', done' := want, mode, done;
      match a
      case Skip =>
      case Push(leaf) => PushLeaf(leaf, env, depth);
      case Prefix(u) => DoOp(Unary(u), UNARY_PRIORITY);
      case Infix(b) => DoOp(Operator.Binary(b), Priority(b));
      case Open => PushOperator(M.BRACKET);
      case Close => CloseBracket();
      case Immediate => want', mode' := false, Imm8;
      case ParenOpen => mode' := IndWord;
      case ParenClose(y) => if y { mode' := IndByteY; }
      case Index(m) =>
        Reduce(1);
        SetLastWasOp();
        mode' := m;
      case Next => mode', done' := FinishListElement(want, mode, done);
      case Bad =>
        errors := errors + 1;
        view := view.(errors := view.errors + 1);
    }

    method SetLastWasOp()
      requires Valid()
      modifies `lastWasOp, `view
      ensures Valid() && view == old(view).(lastWasOp := true)
    {
      lastWasOp := true;
      view := view.(lastWasOp := true);
    }

    /** A comma: move the argument to the list. */
    method FinishListElement(want: bool, mode: Mode, done: seq<M.Operand>)
      returns (mode': Mode, done': seq<M.Operand>)
      requires Valid() && M.Reduce(view, 1).args != []
      modifies `argi, `opi, `lastWasOp, `errors, `view, argStack, argFlags
      ensures Valid()
      ensures M.Scan(view, want, mode', done') == M.DoNext(M.Scan(old(view), want, mode, done))
    {
      hide M.Reduce, M.StackArg;
      Reduce(1);
      SetLastWasOp();
      var val, flags := PopArgument();
      if argi != argiBase {
        errors := errors + 1;
        view := view.(errors := view.errors + 1);
      }
      mode', done' := Imp, done + [M.Operand(mode, Arg(val, flags))];
    }

    /** What eval does at the end of the text. */
    method FinishList(want: bool, mode: Mode, done: seq<M.Operand>) returns (result: seq<M.Operand>)
      requires Valid()
      modifies `argi, `opi, `lastWasOp, `errors, `view, argStack, argFlags
      ensures Valid()
      ensures (result, view.errors) == M.Finish(M.Scan(old(view), want, mode, done))
    {
      hide M.Reduce;
      Reduce(1);
      if argi != argiBase {
        var val, flags := PopArgument();
        result := done + [M.Operand(mode, Arg(val, flags))];
        if result[0].mode == Imp {
          result := result[0 := result[0].(mode := ByteAdr)];
        }
      } else {
        result := done + [M.Operand(mode, ZERO)];
      }
      if argi != argiBase || opi != opiBase {
        errors := errors + 1;
        view := view.(errors := view.errors + 1);
      }
    }

    /** eval: the operands the text stands for. The stacks of an evaluation in progress are left
        as they were, down to every cell; only symbols the text mentions are touched. */
    method Eval(str: string, wantmode: bool, ghost env: M.Env, ghost depth: nat) returns (result: seq<M.Operand>)
      requires Valid() && Knows(env)
      requires Safe(str, M.Begin(wantmode), env, depth, argi, opi)
      modifies this, argStack, argFlags, opPri, opDis
      ensures Valid() && Knows(env)
      ensures (result, errors - old(errors)) == M.EvalText(str, wantmode, env, depth)
      ensures unchanged(`argi, `opi, `argiBase, `opiBase, `lowArgs, `lowOps, `errorBase)
      ensures view.args == old(view).args && view.ops == old(view).ops
      ensures var t := TextEffect(str, M.Begin(wantmode), env, depth);
              table == Touch(old(table), t.keys) && redoEval == old(redoEval) + t.unknowns
      decreases depth, 9
    {
      var oldargibase, oldopibase := argiBase, opiBase;
      ghost var outer, lows, base := view, (lowArgs, lowOps), errorBase;
      EnterEval();
      result := EvalLoop(str, wantmode, env, depth);
      LeaveEval(oldargibase, oldopibase, outer, lows.0, lows.1, base);
    }

    /** Back to the bases of the evaluation in progress. */
    method LeaveEval(oldargibase: nat, oldopibase: nat, ghost outer: M.Machine,
                     ghost outerArgs: seq<Arg>, ghost outerOps: seq<M.Entry>, ghost base: nat)
      requires Valid()
      requires oldargibase == |outerArgs| && oldopibase == |outerOps|
      requires lowArgs == outerArgs + outer.args && lowOps == outerOps + outer.ops
      requires errorBase == base + outer.errors
      modifies `argi, `opi, `argiBase, `opiBase, `lowArgs, `lowOps, `view, `errorBase
      ensures Valid() && lowArgs == outerArgs && lowOps == outerOps && errorBase == base
      ensures argi == old(argiBase) && opi == old(opiBase) && argiBase == oldargibase && opiBase == oldopibase
      ensures view == outer.(errors := outer.errors + old(view).errors, lastWasOp := lastWasOp)
    {
      forall i | 0 <= i < |outer.args| ensures ArgIs(oldargibase + i, outer.args[i]) {
        assert ArgIs(oldargibase + i, lowArgs[oldargibase + i]);
      }
      forall i | 0 <= i < |outer.ops| ensures OpIs(oldopibase + i, outer.ops[i]) {
        assert OpIs(oldopibase + i, lowOps[oldopibase + i]);
      }
      forall i | 0 <= i < |outerArgs| ensures ArgIs(i, outerArgs[i]) {
        assert ArgIs(i, lowArgs[i]);
      }
      forall i | 0 <= i < |outerOps| ensures OpIs(i, outerOps[i]) {
        assert OpIs(i, lowOps[i]);
      }
      argi := argiBase;
      opi := opiBase;
      argiBase := oldargibase;
      opiBase := oldopibase;
      view := outer.(errors := outer.errors + view.errors, lastWasOp := lastWasOp);
      lowArgs, lowOps, errorBase := outerArgs, outerOps, base;
    }

    /** The new bases are the current heights. */
    method EnterEval()
      requires Valid()
      modifies `argiBase, `opiBase, `lastWasOp, `view, `lowArgs, `lowOps, `errorBase
      ensures Valid() && view == M.START && argiBase == argi && opiBase == opi
      ensures lowArgs == old(lowArgs) + old(view).args && lowOps == old(lowOps) + old(view).ops
      ensures errorBase == errors
    {
      argiBase := argi;
      opiBase := opi;
      lastWasOp := true;
      lowArgs, lowOps := lowArgs + view.args, lowOps + view.ops;
      errorBase := errors;
      view := M.START;
    }

    method EvalLoop(str: string, wantmode: bool, ghost env: M.Env, ghost depth: nat) returns (result: seq<M.Operand>)
      requires Valid() && Knows(env) && view == M.START
      requires Safe(str, M.Begin(wantmode), env, depth, argiBase, opiBase)
      modifies this, argStack, argFlags, opPri, opDis
      ensures Valid() && Knows(env)
      ensures (result, view.errors) == M.EvalText(str, wantmode, env, depth)
      ensures unchanged(`argiBase, `opiBase, `lowArgs, `lowOps, `errorBase)
      ensures var t := TextEffect(str, M.Begin(wantmode), env, depth);
              table == Touch(old(table), t.keys) && redoEval == old(redoEval) + t.unknowns
      decreases depth, 8
    {
      hide Lex, Safe, StepSafe, LeafEffect, OnTrack, M.Perform, M.RunText, M.EvalText, TextEffect, Touch, M.Finish,
        Spans, Agree;
      var want, mode, done, pos := wantmode, Imp, [], 0;
      ghost var seen := NOTHING;
      ghost var ab, ob := argiBase, opiBase;
      TouchNothing(table);
      LoopStarts(str, wantmode, env, depth, ab, ob);
      while pos < |str|
        invariant pos <= |str| && Valid() && Knows(env)
        invariant unchanged(`argiBase, `opiBase, `lowArgs, `lowOps, `errorBase)
        invariant OnTrack(str, pos, M.Scan(view, want, mode, done), seen, wantmode, env, depth, ab, ob)
        invariant table == Touch(old(table), seen.keys) && redoEval == old(redoEval) + seen.unknowns
      {
        ghost var sc := M.Scan(view, want, mode, done);
        var l := Lex(str[pos..], lastWasOp, want, mode);
        ghost var t := if l.action.Push? then LeafEffect(l.action.leaf, env, depth) else NOTHING;
        LoopStep(str, pos, sc, seen, wantmode, env, depth, ab, ob);
        want, mode, done := Act(l.action, want, mode, done, env, depth);
        TouchTwice(old(table), seen.keys, t.keys);
        seen := Plus(seen, t);
        pos := pos + l.length;
      }
      LoopEnds(str, M.Scan(view, want, mode, done), seen, wantmode, env, depth, ab, ob);
      result := FinishList(want, mode, done);
    }
  }

  /** eval's loop is at this position: the rest of the text, run from here, gives the result and
      the effect the whole text has. */
  ghost predicate OnTrack(str: string, pos: nat, sc: M.Scan, seen: Effect, want: bool, env: M.Env, depth: nat,
      argi: nat, opi: nat) {
    && pos <= |str|
    && Safe(str[pos..], sc, env, depth, argi, opi)
    && M.RunText(str[pos..], sc, env, depth) == M.RunText(str, M.Begin(want), env, depth)
    && Plus(seen, TextEffect(str[pos..], sc, env, depth)) == TextEffect(str, M.Begin(want), env, depth)
  }

  lemma LoopStarts(str: string, want: bool, env: M.Env, depth: nat, argi: nat, opi: nat)
    requires Safe(str, M.Begin(want), env, depth, argi, opi)
    ensures OnTrack(str, 0, M.Begin(want), NOTHING, want, env, depth, argi, opi)
  {
    hide Safe, M.RunText, TextEffect;
    assert str[0..] == str;
  }

  lemma LoopStep(str: string, pos: nat, sc: M.Scan, seen: Effect, want: bool, env: M.Env, depth: nat, argi: nat,
      opi: nat)
    requires pos < |str| && OnTrack(str, pos, sc, seen, want, env, depth, argi, opi)
    ensures var l := Lex(str[pos..], sc.m.lastWasOp, sc.want, sc.mode);
            var t := if l.action.Push? then LeafEffect(l.action.leaf, env, depth) else NOTHING;
            && pos + l.length <= |str|
            && (l.action.Push? ==> Spans(l.action.leaf))
            && StepSafe(sc, l.action, env, depth, argi, opi)
            && OnTrack(str, pos + l.length, M.Perform(sc, l.action, env, depth), Plus(seen, t), want, env, depth,
                 argi, opi)
  {
    hide Lex, M.Perform, LeafEffect, StepSafe, Spans, Trace, TraceEffect;
    var s := str[pos..];
    var l := M.LexIn(s, sc);
    LexSpans(s, sc.m.lastWasOp, sc.want, sc.mode);
    EffectStep(s, sc, env, depth);
    assert str[pos + l.length..] == s[l.length..];
  }

  lemma LoopEnds(str: string, sc: M.Scan, seen: Effect, want: bool, env: M.Env, depth: nat, argi: nat, opi: nat)
    requires OnTrack(str, |str|, sc, seen, want, env, depth, argi, opi)
    ensures M.Finish(sc) == M.EvalText(str, want, env, depth)
    ensures seen == TextEffect(str, M.Begin(want), env, depth)
  {
    hide Safe, Lex, M.Perform, M.Finish;
    assert str[|str|..] == [];
  }

  lemma LexSpans(s: string, lastWasOp: bool, want: bool, mode: Mode)
    requires s != []
    ensures var a := Lex(s, lastWasOp, want, mode).action; a.Push? ==> Spans(a.leaf)
  {
    hide DigitSpan, NameSpan;
    forall t: string, r: Radix ensures DigitSpan(t[..DigitSpan(t, r)], r) == DigitSpan(t, r) {
      SpanIs(t[..DigitSpan(t, r)], r, DigitSpan(t, r));
    }
  }

  /** The digits of a literal are all of them digits: what Lex passes on. */
  predicate Spans(leaf: Leaf) {
    match leaf
    case Decimal(ds) => DigitSpan(ds, Radix10) == |ds|
    case Octal(ds) => DigitSpan(ds, Radix8) == |ds|
    case Hex(ds) => DigitSpan(ds, Radix16) == |ds|
    case Bits(ds) => DigitSpan(ds, Radix2) == |ds|
    case _ => true
  }

  lemma TouchKeepsMeaning(t: Table, keys: set<string>, syms: Table)
    requires Agree(t, syms)
    ensures Agree(Touch(t, keys), syms)
  {
    forall k ensures SameMeaning(Find(Touch(t, keys), k), Find(syms, k)) {
      assert SameMeaning(Find(t, k), Find(syms, k));
    }
  }

  lemma {:induction false} TopIsNoPrefix(m: M.Machine, a: Arg)
    ensures var r := M.StackArg(m, a); r.ops == [] || M.Top(r.ops).pri != UNARY_PRIORITY
    decreases |m.ops|
  {
    if m.ops != [] && M.Top(m.ops).pri == UNARY_PRIORITY {
      TopIsNoPrefix(m.(ops := m.ops[..|m.ops| - 1]), Apply(M.Top(m.ops).op, a, ZERO));
    }
  }
}
