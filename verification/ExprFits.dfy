/** Which expressions the fixed stacks of src/exp.c have room for: bounds on the depth of a tree
    under which the evaluation of its text is safe. */
module ExprFits {
  import opened Operators
  import opened AddressModes
  import opened Lexer
  import opened ExprMachine
  import opened ExprTree
  import opened ExprText
  import opened ExprTheorems
  import opened EvalSafety

  function Max(a: nat, b: nat): nat {
    if a < b then b else a
  }

  /** Room on the two stacks. */
  datatype Need = Need(args: nat, ops: nat)

  /** What the texts that EQM symbols stand for need, symbol by symbol. */
  type Needs = Leaf -> Need

  /** Without EQM symbols there is no such text. */
  function NoTexts(leaf: Leaf): Need {
    Need(0, 0)
  }

  /** Arguments an expression has on the stack at once. */
  function ArgNeed(e: Expr, needs: Needs): nat {
    match e
    case Atom(leaf) => Max(1, needs(leaf).args)
    case PrefixOp(_, e1) => ArgNeed(e1, needs)
    case Bracket(e1) => ArgNeed(e1, needs)
    case BinaryOp(_, _, l, r) => Max(ArgNeed(l, needs), 1 + ArgNeed(r, needs))
  }

  /** Operators and brackets an expression has on the stack at once. */
  function OpNeed(e: Expr, needs: Needs): nat {
    match e
    case Atom(leaf) => needs(leaf).ops
    case PrefixOp(_, e1) => 1 + OpNeed(e1, needs)
    case Bracket(e1) => 1 + OpNeed(e1, needs)
    case BinaryOp(_, _, l, r) => Max(OpNeed(l, needs), 1 + OpNeed(r, needs))
  }

  /** Above these heights the stacks have this room. */
  predicate Room(need: Need, argi: nat, opi: nat) {
    argi + need.args < MAXARGS && opi + need.ops < MAXOPS
  }

  /** From these heights the stacks hold the expression. */
  predicate Fits(e: Expr, argi: nat, opi: nat, needs: Needs) {
    Room(Need(ArgNeed(e, needs), OpNeed(e, needs)), argi, opi)
  }

  /** The text this leaf stands for, if it does, can be evaluated wherever there is the room it needs. */
  ghost predicate LeafHeld(leaf: Leaf, env: Env, depth: nat, needs: Needs) {
    EqmText(leaf, env).Some? ==>
      && depth > 0
      && forall argi: nat, opi: nat :: Room(needs(leaf), argi, opi) ==>
           Safe(EqmText(leaf, env).value, Begin(false), env, depth - 1, argi, opi)
  }

  ghost predicate LeavesHeld(e: Expr, env: Env, depth: nat, needs: Needs) {
    forall leaf :: leaf in Leaves(e) ==> LeafHeld(leaf, env, depth, needs)
  }

  lemma HeldParts(e: Expr, env: Env, depth: nat, needs: Needs)
    requires LeavesHeld(e, env, depth, needs)
    ensures match e
            case PrefixOp(_, e1) => LeavesHeld(e1, env, depth, needs)
            case Bracket(e1) => LeavesHeld(e1, env, depth, needs)
            case BinaryOp(_, _, l, r) => LeavesHeld(l, env, depth, needs) && LeavesHeld(r, env, depth, needs)
            case Atom(leaf) => LeafHeld(leaf, env, depth, needs)
  {
    hide LeafHeld;
  }

  /** None of these leaves is an EQM symbol. */
  ghost predicate NoMacros(e: Expr, env: Env) {
    forall leaf :: leaf in Leaves(e) ==> EqmText(leaf, env).None?
  }

  lemma NoMacrosHeld(e: Expr, env: Env, depth: nat, needs: Needs)
    requires NoMacros(e, env)
    ensures LeavesHeld(e, env, depth, needs)
  {
  }

  lemma SafeStep(t: string, rest: string, sc: Scan, a: Action, env: Env, depth: nat, argi: nat, opi: nat)
    requires t != [] && LexIn(t + rest, sc) == Step(a, |t|) && (a == Infix(NotEq) ==> |t| > 1)
    ensures Safe(t + rest, sc, env, depth, argi, opi)
        <==> StepSafe(sc, a, env, depth, argi, opi)
             && Safe(rest, Perform(sc, a, env, depth), env, depth, argi, opi)
  {
    hide Lex, Perform, StepSafe;
    assert (t + rest)[|t|..] == rest;
  }

  lemma {:induction false} SafeSpaces(n: nat, rest: string, sc: Scan, env: Env, depth: nat, argi: nat, opi: nat)
    ensures Safe(Spaces(n) + rest, sc, env, depth, argi, opi) <==> Safe(rest, sc, env, depth, argi, opi)
  {
    hide Safe, RunText;
    if n == 0 {
      assert Spaces(n) + rest == rest;
    } else {
      assert Spaces(n) + rest == [' '] + (Spaces(n - 1) + rest);
      SafeStep([' '], Spaces(n - 1) + rest, sc, Skip, env, depth, argi, opi);
      SafeSpaces(n - 1, rest, sc, env, depth, argi, opi);
    }
  }

  /** The text of an expression is safe to evaluate if the stacks hold the expression and what
      comes after it is safe. */
  lemma {:induction false} TextIsSafe(e: Expr, rest: string, sc: Scan, base: nat, p: nat, env: Env, depth: nat,
      argi: nat, opi: nat, needs: Needs)
    requires Grammatical(e) && Shaped(e) && Boundary(rest) && ErrorFree(e, env, depth)
        && LeavesHeld(e, env, depth, needs)
    requires Waiting(sc.m.ops, base, p) && 1 <= p <= Level(e) && (e.BinaryOp? ==> |sc.m.ops| == base)
    requires ReadsRight(e, sc.m.lastWasOp)
    requires Fits(e, argi + |sc.m.args|, opi + |sc.m.ops|, needs)
    requires Safe(rest, Ran(e, sc, env, depth), env, depth, argi, opi)
    ensures Safe(Text(e) + rest, sc, env, depth, argi, opi)
    decreases e, 1
  {
    hide Lex, Safe, LeavesHeld, LeafHeld, Resolve, Reduce, Spaces, Perform, StackArg, Shaped, EqmText, Meaning,
      LeafShaped;
    ShapedParts(e);
    HeldParts(e, env, depth, needs);
    match e
    case Atom(leaf) => LeafIsSafe(leaf, rest, sc, env, depth, argi, opi, needs);
    case PrefixOp(u, e1) =>
      var sc1 := sc.(m := DoPrefix(sc.m, u));
      WaitingPrefix(sc.m.ops, base, p, Entry(UNARY_PRIORITY, Unary(u)));
      TextIsSafe(e1, rest, sc1, base, p, env, depth, argi, opi, needs);
      PrefixIsSafe(u, Text(e1) + rest, sc, env, depth, argi, opi);
      assert Text(e) + rest == [UnaryText(u)] + (Text(e1) + rest);
    case Bracket(e1) => BracketIsSafe(e1, rest, sc, env, depth, argi, opi, needs);
    case BinaryOp(b, gap, l, r) =>
      assert sc.m.ops[..base] == sc.m.ops;
      BinaryIsSafe(b, gap, l, r, rest, sc, p, env, depth, argi, opi, needs);
  }

  lemma WaitingPrefix(ops: seq<Entry>, base: nat, p: nat, e: Entry)
    requires Waiting(ops, base, p) && e.pri == UNARY_PRIORITY
    ensures Waiting(ops + [e], base, p)
  {
    assert (ops + [e])[..base] == ops[..base] && (ops + [e])[base..] == ops[base..] + [e];
  }

  lemma {:induction false} BracketIsSafe(e1: Expr, rest: string, sc: Scan, env: Env, depth: nat, argi: nat, opi: nat,
      needs: Needs)
    requires var e := Bracket(e1);
             && Grammatical(e) && Shaped(e1) && ErrorFree(e, env, depth) && LeavesHeld(e, env, depth, needs)
             && ReadsRight(e, sc.m.lastWasOp) && Fits(e, argi + |sc.m.args|, opi + |sc.m.ops|, needs)
             && Safe(rest, Ran(e, sc, env, depth), env, depth, argi, opi)
    requires Boundary(rest)
    ensures Safe(Text(Bracket(e1)) + rest, sc, env, depth, argi, opi)
    decreases Bracket(e1), 0
  {
    hide Lex, Safe, LeavesHeld, LeafHeld, Resolve, Reduce, Perform, StackArg, Shaped, EqmText, Meaning;
    var sc1 := sc.(m := DoOpen(sc.m));
    assert sc1.m.ops[..|sc1.m.ops|] == sc1.m.ops;
    CloseIsSafe(e1, rest, sc, env, depth, argi, opi);
    HeldParts(Bracket(e1), env, depth, needs);
    TextIsSafe(e1, "]" + rest, sc1, |sc1.m.ops|, 1, env, depth, argi, opi, needs);
    OpenIsSafe(Text(e1) + ("]" + rest), sc, env, depth, argi, opi);
    assert Text(Bracket(e1)) + rest == "[" + (Text(e1) + ("]" + rest));
  }

  lemma ShapedParts(e: Expr)
    requires Shaped(e)
    ensures match e
            case PrefixOp(_, e1) => Shaped(e1)
            case Bracket(e1) => Shaped(e1)
            case BinaryOp(_, _, l, r) => Shaped(l) && Shaped(r)
            case Atom(leaf) => LeafShaped(leaf)
  {
  }

  lemma {:induction false} BinaryIsSafe(b: Operators.BinaryOp, gap: nat, l: Expr, r: Expr, rest: string, sc: Scan,
      p: nat, env: Env, depth: nat, argi: nat, opi: nat, needs: Needs)
    requires var e := BinaryOp(b, gap, l, r);
             && Grammatical(e) && Shaped(e) && ErrorFree(e, env, depth) && LeavesHeld(e, env, depth, needs)
             && ReadsRight(e, sc.m.lastWasOp) && Fits(e, argi + |sc.m.args|, opi + |sc.m.ops|, needs)
             && Safe(rest, Ran(e, sc, env, depth), env, depth, argi, opi)
    requires Boundary(rest) && Blocked(sc.m.ops, p) && 1 <= p <= Priority(b)
    ensures Safe(Text(BinaryOp(b, gap, l, r)) + rest, sc, env, depth, argi, opi)
    decreases BinaryOp(b, gap, l, r), 0
  {
    hide Lex, Safe, LeavesHeld, LeafHeld, Resolve, Reduce, Spaces, Perform, StackArg, EqmText, Meaning, LeafShaped,
      Boundary, RunText, Trace, Actions, Text;
    var e := BinaryOp(b, gap, l, r);
    HeldParts(e, env, depth, needs);
    var m2 := InfixComputes(b, l, sc.m, Values(env, depth));
    assert Ran(e, sc, env, depth) == Ran(r, sc.(m := m2), env, depth);
    TextIsSafe(r, rest, sc.(m := m2), |m2.ops|, Priority(b) + 1, env, depth, argi, opi, needs);
    var opText := BinaryText(b) + (Spaces(gap) + (Text(r) + rest));
    InfixIsSafe(b, gap, l, r, rest, sc, env, depth, argi, opi);
    OperatorBoundary(b, Spaces(gap) + (Text(r) + rest));
    assert sc.m.ops[..|sc.m.ops|] == sc.m.ops;
    TextIsSafe(l, opText, sc, |sc.m.ops|, Priority(b), env, depth, argi, opi, needs);
    BinaryTextParts(b, gap, l, r, rest);
  }

  lemma BinaryTextParts(b: Operators.BinaryOp, gap: nat, l: Expr, r: Expr, rest: string)
    ensures Text(BinaryOp(b, gap, l, r)) + rest == Text(l) + (BinaryText(b) + (Spaces(gap) + (Text(r) + rest)))
  {
    hide Spaces, BinaryText;
  }

  lemma LeafIsSafe(leaf: Leaf, rest: string, sc: Scan, env: Env, depth: nat, argi: nat, opi: nat, needs: Needs)
    requires LeafShaped(leaf) && Boundary(rest) && Resolve(env, leaf, depth).errors == 0
    requires LeafHeld(leaf, env, depth, needs) && ReadsRight(Atom(leaf), sc.m.lastWasOp)
    requires Fits(Atom(leaf), argi + |sc.m.args|, opi + |sc.m.ops|, needs)
    requires Safe(rest, Ran(Atom(leaf), sc, env, depth), env, depth, argi, opi)
    ensures Safe(LeafText(leaf) + rest, sc, env, depth, argi, opi)
  {
    hide Lex, Safe, Resolve, StackArg, LeafShaped, Boundary, EqmText;
    LexLeaf(leaf, rest, sc.m.lastWasOp, sc.want, sc.mode);
    assert LeafText(leaf) != [];
    SafeStep(LeafText(leaf), rest, sc, Push(leaf), env, depth, argi, opi);
    assert sc.m.(errors := sc.m.errors + 0) == sc.m;
  }

  lemma PrefixIsSafe(u: UnaryOp, rest: string, sc: Scan, env: Env, depth: nat, argi: nat, opi: nat)
    requires sc.m.lastWasOp && opi + |sc.m.ops| + 1 < MAXOPS
    requires Safe(rest, sc.(m := DoPrefix(sc.m, u)), env, depth, argi, opi)
    ensures Safe([UnaryText(u)] + rest, sc, env, depth, argi, opi)
  {
    hide Lex, Safe;
    LexPrefix(u, rest, sc.m.lastWasOp, sc.want, sc.mode);
    SafeStep([UnaryText(u)], rest, sc, Prefix(u), env, depth, argi, opi);
  }

  lemma OpenIsSafe(rest: string, sc: Scan, env: Env, depth: nat, argi: nat, opi: nat)
    requires opi + |sc.m.ops| + 1 < MAXOPS
    requires Safe(rest, sc.(m := DoOpen(sc.m)), env, depth, argi, opi)
    ensures Safe("[" + rest, sc, env, depth, argi, opi)
  {
    hide Lex, Safe;
    LexOpen(rest, sc);
    SafeStep("[", rest, sc, Open, env, depth, argi, opi);
  }

  lemma CloseIsSafe(e1: Expr, rest: string, sc: Scan, env: Env, depth: nat, argi: nat, opi: nat)
    requires Grammatical(e1) && Boundary(rest)
    requires Safe(rest, Ran(Bracket(e1), sc, env, depth), env, depth, argi, opi)
    ensures Safe("]" + rest, Ran(e1, sc.(m := DoOpen(sc.m)), env, depth), env, depth, argi, opi)
  {
    hide Lex, Safe, Reduce;
    var m1 := DoOpen(sc.m);
    var sc2 := Ran(e1, sc.(m := m1), env, depth);
    LexClosing(rest, sc2);
    assert m1.ops[..|m1.ops|] == m1.ops;
    MachineComputesMeaning(e1, m1, |m1.ops|, 1, Values(env, depth));
    assert sc2.m.(lastWasOp := false) == sc2.m;
    SafeStep("]", rest, sc2, Close, env, depth, argi, opi);
  }

  lemma InfixIsSafe(b: Operators.BinaryOp, gap: nat, l: Expr, r: Expr, rest: string, sc: Scan, env: Env, depth: nat,
      argi: nat, opi: nat)
    requires Grammatical(l) && Level(l) >= Priority(b) && Blocked(sc.m.ops, Priority(b))
    requires Shaped(BinaryOp(b, gap, l, r)) && opi + |sc.m.ops| + 1 < MAXOPS
    requires Safe(Text(r) + rest, sc.(m := DoInfix(Ran(l, sc, env, depth).m, b)), env, depth, argi, opi)
    ensures Safe(BinaryText(b) + (Spaces(gap) + (Text(r) + rest)), Ran(l, sc, env, depth), env, depth, argi, opi)
  {
    hide Lex, Safe, Reduce, Spaces;
    var sc1 := Ran(l, sc, env, depth);
    assert sc.m.ops[..|sc.m.ops|] == sc.m.ops;
    MachineComputesMeaning(l, sc.m, |sc.m.ops|, Priority(b), Values(env, depth));
    var m2 := InfixComputes(b, l, sc.m, Values(env, depth));
    TextNonEmpty(r);
    GlueAhead(b, gap, Text(r), rest);
    var t := Spaces(gap) + (Text(r) + rest);
    LexInfix(b, t, sc1.want, sc1.mode);
    SafeStep(BinaryText(b), t, sc1, Infix(b), env, depth, argi, opi);
    SafeSpaces(gap, Text(r) + rest, sc.(m := m2), env, depth, argi, opi);
  }

  // ---------------------------------------------------------------------------
  // Effects

  /** What evaluating an expression does to the table. */
  function ExprEffect(e: Expr, env: Env, depth: nat): Effect {
    match e
    case Atom(leaf) => LeafEffect(leaf, env, depth)
    case PrefixOp(_, e1) => ExprEffect(e1, env, depth)
    case Bracket(e1) => ExprEffect(e1, env, depth)
    case BinaryOp(_, _, l, r) => Plus(ExprEffect(l, env, depth), ExprEffect(r, env, depth))
  }

  lemma {:induction false} TraceEffectSum(a: seq<Action>, b: seq<Action>, env: Env, depth: nat)
    ensures TraceEffect(a + b, env, depth) == Plus(TraceEffect(a, env, depth), TraceEffect(b, env, depth))
    decreases |a|
  {
    hide LeafEffect;
    if a == [] {
      assert a + b == b;
    } else {
      assert (a + b)[1..] == a[1..] + b;
      TraceEffectSum(a[1..], b, env, depth);
    }
  }

  lemma {:induction false} ActionsEffect(e: Expr, env: Env, depth: nat)
    ensures TraceEffect(Actions(e), env, depth) == ExprEffect(e, env, depth)
  {
    hide LeafEffect, TraceEffect, Plus;
    match e
    case Atom(leaf) =>
      OneEffect(Push(leaf), env, depth);
    case PrefixOp(u, e1) =>
      TraceEffectSum([Prefix(u)], Actions(e1), env, depth);
      OneEffect(Prefix(u), env, depth);
      PlusNothing(TraceEffect(Actions(e1), env, depth));
      ActionsEffect(e1, env, depth);
    case Bracket(e1) =>
      TraceEffectSum([Open] + Actions(e1), [Close], env, depth);
      TraceEffectSum([Open], Actions(e1), env, depth);
      OneEffect(Open, env, depth);
      OneEffect(Close, env, depth);
      PlusNothing(TraceEffect(Actions(e1), env, depth));
      ActionsEffect(e1, env, depth);
    case BinaryOp(b, _, l, r) =>
      TraceEffectSum(Actions(l) + [Infix(b)], Actions(r), env, depth);
      TraceEffectSum(Actions(l), [Infix(b)], env, depth);
      OneEffect(Infix(b), env, depth);
      PlusNothing(TraceEffect(Actions(l), env, depth));
      ActionsEffect(l, env, depth);
      ActionsEffect(r, env, depth);
  }

  lemma OneEffect(a: Action, env: Env, depth: nat)
    ensures TraceEffect([a], env, depth) == if a.Push? then LeafEffect(a.leaf, env, depth) else NOTHING
  {
    hide LeafEffect;
    assert [a][1..] == [];
  }

  lemma PlusNothing(t: Effect)
    ensures Plus(NOTHING, t) == t && Plus(t, NOTHING) == t
  {
  }

  lemma ElementEffect(e: Expr, rest: string, sc: Scan, env: Env, depth: nat)
    requires Reads(e, rest, sc, env, depth)
    ensures TextEffect(Text(e) + rest, sc, env, depth)
         == Plus(ExprEffect(e, env, depth), TextEffect(rest, Ran(e, sc, env, depth), env, depth))
  {
    hide Trace, RunText, TraceEffect, Text;
    TraceEffectSum(Actions(e), Trace(rest, Ran(e, sc, env, depth), env, depth), env, depth);
    ActionsEffect(e, env, depth);
  }

  // ---------------------------------------------------------------------------
  // Whole operands and lists

  /** A reduction that empties the stack met no bracket. */
  lemma {:induction false} ReducedAway(m: Machine)
    requires Reduce(m, 1).ops == []
    ensures NoBrackets(m.ops)
    decreases |m.ops|
  {
    if m.ops != [] {
      var r := EvalTop(m);
      ReducedAway(r);
      PoppedEntries(m);
      forall i | 0 <= i < |m.ops| ensures m.ops[i].pri != 0 {
        assert i < |r.ops| ==> m.ops[i] == r.ops[i];
      }
    }
  }

  lemma {:induction false} StackArgPops(m: Machine, a: Arg)
    ensures forall i :: |StackArg(m, a).ops| <= i < |m.ops| ==> m.ops[i].pri == UNARY_PRIORITY
    decreases |m.ops|
  {
    hide Apply;
    if m.ops != [] && Top(m.ops).pri == UNARY_PRIORITY {
      StackArgPops(m.(ops := m.ops[..|m.ops| - 1]), Apply(Top(m.ops).op, a, ZERO));
    }
  }

  lemma PoppedEntries(m: Machine)
    requires m.ops != [] && Top(m.ops).pri != 0
    ensures forall i :: |EvalTop(m).ops| <= i < |m.ops| ==> m.ops[i].pri != 0
  {
    hide Apply, StackArg;
    var top := Top(m.ops);
    var p := m.(ops := m.ops[..|m.ops| - 1]);
    var n := |m.args|;
    if top.pri == UNARY_PRIORITY {
      if n >= 1 {
        StackArgPops(p.(args := m.args[..n - 1]), Apply(top.op, m.args[n - 1], ZERO));
      }
    } else if n >= 2 {
      StackArgPops(p.(args := m.args[..n - 2]), Apply(top.op, m.args[n - 2], m.args[n - 1]));
    }
  }

  /** An expression that eval reads rightly and that the stacks hold from these heights. */
  ghost predicate Usable(e: Expr, env: Env, depth: nat, argi: nat, opi: nat, needs: Needs) {
    Readable(e, env, depth) && LeavesHeld(e, env, depth, needs) && Fits(e, argi, opi, needs)
  }

  lemma ElementIsSafe(e: Expr, rest: string, sc: Scan, env: Env, depth: nat, argi: nat, opi: nat, needs: Needs)
    requires Usable(e, env, depth, argi, opi, needs) && Boundary(rest)
    requires sc.m.args == [] && sc.m.ops == [] && sc.m.lastWasOp
    requires Safe(rest, Ran(e, sc, env, depth), env, depth, argi, opi)
    ensures Safe(Text(e) + rest, sc, env, depth, argi, opi)
  {
    hide Lex, Safe, LeavesHeld, Resolve, Reduce, Meaning, Text;
    assert Waiting(sc.m.ops, 0, 1);
    TextIsSafe(e, rest, sc, 0, 1, env, depth, argi, opi, needs);
  }

  /** The brackets of an expression are closed when its text ends. */
  lemma ElementNoBrackets(e: Expr, sc: Scan, env: Env, depth: nat)
    requires Readable(e, env, depth)
    requires sc.m.args == [] && sc.m.ops == [] && sc.m.lastWasOp
    ensures NoBrackets(Ran(e, sc, env, depth).m.ops)
  {
    hide Lex, Resolve, Reduce, RunText, Trace;
    RunElement(e, [], sc, env, depth);
    ReducedAway(Ran(e, sc, env, depth).m);
  }

  /** A step that is neither an operand nor an operator. */
  lemma MarkIsSafe(t: string, rest: string, sc: Scan, a: Action, env: Env, depth: nat, argi: nat, opi: nat)
    requires t != [] && LexIn(t + rest, sc) == Step(a, |t|) && !a.Push? && !a.Infix?
    requires StepSafe(sc, a, env, depth, argi, opi)
    ensures Safe(t + rest, sc, env, depth, argi, opi) <==> Safe(rest, Perform(sc, a, env, depth), env, depth, argi, opi)
    ensures TextEffect(t + rest, sc, env, depth) == TextEffect(rest, Perform(sc, a, env, depth), env, depth)
  {
    hide Lex, Safe, Perform, StepSafe, TextEffect;
    SafeStep(t, rest, sc, a, env, depth, argi, opi);
    EffectStep(t + rest, sc, env, depth);
    assert (t + rest)[|t|..] == rest;
  }

  lemma EndIsSafe(sc: Scan, env: Env, depth: nat, argi: nat, opi: nat)
    requires NoBrackets(sc.m.ops)
    ensures Safe([], sc, env, depth, argi, opi) && TextEffect([], sc, env, depth) == NOTHING
  {
  }

  lemma IndexIsSafe(t: string, mode: AddressModes.Mode, rest: string, sc: Scan, env: Env, depth: nat, argi: nat,
      opi: nat)
    requires rest == "" || rest == ")"
    requires (t == ",x" && mode == if sc.mode == IndWord then IndByteX else ZeroX) || (t == ",y" && mode == ZeroY)
    requires NoBrackets(sc.m.ops)
    ensures var sc' := sc.(m := Reduce(sc.m, 1).(lastWasOp := true), mode := mode);
            && (Safe(t + rest, sc, env, depth, argi, opi) <==> Safe(rest, sc', env, depth, argi, opi))
            && TextEffect(t + rest, sc, env, depth) == TextEffect(rest, sc', env, depth)
  {
    hide Lex, Safe, Reduce, TextEffect;
    LexIndex(t, mode, rest, sc);
    MarkIsSafe(t, rest, sc, Index(mode), env, depth, argi, opi);
  }

  lemma ParenIsSafe(y: bool, sc: Scan, env: Env, depth: nat, argi: nat, opi: nat)
    requires sc.want && (y ==> sc.mode == IndWord) && NoBrackets(sc.m.ops)
    ensures var t := if y then "),y" else ")";
            Safe(t, sc, env, depth, argi, opi) && TextEffect(t, sc, env, depth) == NOTHING
  {
    hide Lex, Safe, TextEffect, Reduce;
    var t := if y then "),y" else ")";
    LexParen(y, sc);
    assert t + [] == t;
    MarkIsSafe(t, [], sc, ParenClose(y), env, depth, argi, opi);
    EndIsSafe(Perform(sc, ParenClose(y), env, depth), env, depth, argi, opi);
  }

  lemma TailIsSafe(f: Form, sc: Scan, env: Env, depth: nat, argi: nat, opi: nat)
    requires sc.want == AfterHead(f).want && sc.mode == AfterHead(f).mode
    requires NoBrackets(sc.m.ops) && Reduce(sc.m, 1).ops == []
    ensures Safe(f.Tail(), sc, env, depth, argi, opi) && TextEffect(f.Tail(), sc, env, depth) == NOTHING
  {
    hide Lex, Safe, Reduce, TextEffect, LexIn, Perform;
    assert ",x" + "" == ",x" && ",y" + "" == ",y" && ",x" + ")" == ",x)";
    var indexed := sc.(m := Reduce(sc.m, 1).(lastWasOp := true));
    if f.Direct? || f.Hash? {
      EndIsSafe(sc, env, depth, argi, opi);
    } else if f.Indirect? || f.IndirectY? {
      ParenIsSafe(f.IndirectY?, sc, env, depth, argi, opi);
    } else if f.IndirectX? {
      IndexIsSafe(",x", IndByteX, ")", sc, env, depth, argi, opi);
      ParenIsSafe(false, indexed.(mode := IndByteX), env, depth, argi, opi);
    } else {
      var mode := if f.IndexedX? then ZeroX else ZeroY;
      IndexIsSafe(f.Tail(), mode, "", sc, env, depth, argi, opi);
      EndIsSafe(indexed.(mode := mode), env, depth, argi, opi);
      assert f.Tail() + "" == f.Tail();
    }
  }

  lemma HeadIsSafe(f: Form, t: string, env: Env, depth: nat, argi: nat, opi: nat)
    ensures Safe(f.Head() + t, Begin(true), env, depth, argi, opi) <==> Safe(t, AfterHead(f), env, depth, argi, opi)
    ensures TextEffect(f.Head() + t, Begin(true), env, depth) == TextEffect(t, AfterHead(f), env, depth)
  {
    hide Lex, Safe, TextEffect;
    if f.Head() == "" {
      assert f.Head() + t == t;
    } else {
      LexHead(f, t);
      MarkIsSafe(f.Head(), t, Begin(true), HeadAction(f), env, depth, argi, opi);
    }
  }

  /** Everything v_mnemonic needs to know about the evaluation of its operand: it is safe, it
      yields the mode and the meaning, and it touches the symbols of the expression. */
  lemma OperandIsSafe(f: Form, e: Expr, env: Env, depth: nat, argi: nat, opi: nat, needs: Needs)
    requires Usable(e, env, depth, argi, opi, needs)
    ensures Safe(FormText(f, e), Begin(true), env, depth, argi, opi)
    ensures TextEffect(FormText(f, e), Begin(true), env, depth) == ExprEffect(e, env, depth)
    ensures EvalText(FormText(f, e), true, env, depth) == ([Operand(f.Mode(), Meaning(e, Values(env, depth)))], 0)
  {
    hide Lex, Safe, Reduce, TextEffect, Text, RunText, LeavesHeld, EvalText, Resolve;
    EvalComputesOperand(f, e, env, depth);
    HeadIsSafe(f, Text(e) + f.Tail(), env, depth, argi, opi);
    var sc := AfterHead(f);
    RunElement(e, f.Tail(), sc, env, depth);
    ElementNoBrackets(e, sc, env, depth);
    ElementEffect(e, f.Tail(), sc, env, depth);
    TailIsSafe(f, Ran(e, sc, env, depth), env, depth, argi, opi);
    ElementIsSafe(e, f.Tail(), sc, env, depth, argi, opi, needs);
  }

  function ListEffect(es: seq<Expr>, env: Env, depth: nat): Effect {
    if es == [] then NOTHING else Plus(ExprEffect(es[0], env, depth), ListEffect(es[1..], env, depth))
  }

  ghost predicate UsableList(es: seq<Expr>, env: Env, depth: nat, argi: nat, opi: nat, needs: Needs) {
    && es != []
    && (forall e :: e in es ==> Usable(e, env, depth, argi, opi, needs))
    && (forall i :: 0 < i < |es| ==> !LooksIndexed(ListText(es[i..])))
  }

  lemma ElementReads(e: Expr, rest: string, sc: Scan, env: Env, depth: nat, argi: nat, opi: nat, needs: Needs)
    requires Usable(e, env, depth, argi, opi, needs) && Boundary(rest) && sc.m == START
    ensures Reads(e, rest, sc, env, depth)
  {
    hide Reduce, RunText, Resolve, Meaning, Trace, Lex;
    RunElement(e, rest, sc, env, depth);
  }

  lemma ElementNext(e: Expr, sc: Scan, env: Env, depth: nat, argi: nat, opi: nat, needs: Needs)
    requires Usable(e, env, depth, argi, opi, needs) && sc.m == START && sc.mode == Imp
    ensures StepSafe(Ran(e, sc, env, depth), Next, env, depth, argi, opi)
    ensures Perform(Ran(e, sc, env, depth), Next, env, depth)
        == sc.(done := sc.done + [Operand(Imp, Meaning(e, Values(env, depth)))])
  {
    hide Reduce, RunText, Resolve, Meaning, Trace, Lex;
    RunElement(e, "", sc, env, depth);
    ElementNoBrackets(e, sc, env, depth);
  }

  lemma CommaBounds(t: string)
    ensures Boundary("," + t)
  {
  }

  lemma CommaIsSafe(e: Expr, t: string, sc: Scan, env: Env, depth: nat, argi: nat, opi: nat, needs: Needs)
    requires Usable(e, env, depth, argi, opi, needs) && !LooksIndexed(t) && sc.m == START && sc.mode == Imp
    requires Safe(t, sc.(done := sc.done + [Operand(Imp, Meaning(e, Values(env, depth)))]), env, depth, argi, opi)
    ensures Safe(Text(e) + ("," + t), sc, env, depth, argi, opi)
    ensures TextEffect(Text(e) + ("," + t), sc, env, depth)
         == Plus(ExprEffect(e, env, depth),
                 TextEffect(t, sc.(done := sc.done + [Operand(Imp, Meaning(e, Values(env, depth)))]), env, depth))
  {
    hide Lex, Safe, Reduce, TextEffect, Text, RunText, LeavesHeld, Resolve, LooksIndexed, Meaning, Ran, DoNext,
      ExprEffect, Readable, Fits, Reads, StepSafe, Perform, Plus;
    var sc1 := Ran(e, sc, env, depth);
    LexComma(t, sc1);
    CommaBounds(t);
    ElementReads(e, "," + t, sc, env, depth, argi, opi, needs);
    ElementNext(e, sc, env, depth, argi, opi, needs);
    MarkIsSafe(",", t, sc1, Next, env, depth, argi, opi);
    ElementEffect(e, "," + t, sc, env, depth);
    ElementIsSafe(e, "," + t, sc, env, depth, argi, opi, needs);
  }

  lemma {:induction false} ListIsSafeFrom(es: seq<Expr>, sc: Scan, env: Env, depth: nat, argi: nat, opi: nat,
      needs: Needs)
    requires UsableList(es, env, depth, argi, opi, needs) && sc.m == START && sc.mode == Imp
    ensures Safe(ListText(es), sc, env, depth, argi, opi)
    ensures TextEffect(ListText(es), sc, env, depth) == ListEffect(es, env, depth)
    decreases |es|
  {
    hide Lex, Safe, Reduce, TextEffect, Text, RunText, LeavesHeld, Resolve, LooksIndexed, Meaning, Readable;
    assert es[0] in es;
    if |es| == 1 {
      assert Text(es[0]) + [] == Text(es[0]);
      RunElement(es[0], [], sc, env, depth);
      ElementNoBrackets(es[0], sc, env, depth);
      EndIsSafe(Ran(es[0], sc, env, depth), env, depth, argi, opi);
      ElementIsSafe(es[0], [], sc, env, depth, argi, opi, needs);
      ElementEffect(es[0], [], sc, env, depth);
    } else {
      forall i | 0 < i < |es[1..]| ensures !LooksIndexed(ListText(es[1..][i..])) {
        assert es[1..][i..] == es[i + 1..];
      }
      ListIsSafeFrom(es[1..], sc.(done := sc.done + [Operand(Imp, Meaning(es[0], Values(env, depth)))]), env, depth,
        argi, opi, needs);
      CommaIsSafe(es[0], ListText(es[1..]), sc, env, depth, argi, opi, needs);
    }
  }

  /** The same for the list of expressions of v_dc, v_ds, v_align and the rest. */
  lemma ListIsSafe(es: seq<Expr>, env: Env, depth: nat, argi: nat, opi: nat, needs: Needs)
    requires UsableList(es, env, depth, argi, opi, needs)
    ensures Safe(ListText(es), Begin(false), env, depth, argi, opi)
    ensures TextEffect(ListText(es), Begin(false), env, depth) == ListEffect(es, env, depth)
    ensures var all := Plain(Meanings(es, Values(env, depth)));
            EvalText(ListText(es), false, env, depth) == (all[0 := all[0].(mode := ByteAdr)], 0)
  {
    hide Lex, Safe, Reduce, TextEffect, Text, RunText, LeavesHeld, Resolve, LooksIndexed, Meaning, Readable, EvalText,
      ListText;
    ListIsSafeFrom(es, Begin(false), env, depth, argi, opi, needs);
    EvalComputesList(es, env, depth);
  }
}
