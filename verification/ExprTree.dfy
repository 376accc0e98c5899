/** Expression trees, their text and their meaning, and the theorem that eval (src/exp.c)
    computes the meaning of the tree a text was written from. */
module ExprTree {
  import opened Operators
  import opened Lexer
  import opened ExprMachine

  datatype Expr =
    | Atom(leaf: Leaf)
    | PrefixOp(u: UnaryOp, e: Expr)
    | Bracket(e: Expr)
    | BinaryOp(b: Operators.BinaryOp, gap: nat, left: Expr, right: Expr)

  /** How tightly an expression holds together. */
  function Level(e: Expr): nat {
    if e.BinaryOp? then Priority(e.b) else UNARY_PRIORITY
  }

  /** Trees whose text needs no further brackets: binary operators associate to the left and
      prefix operators bind tightest. Every tree becomes one by putting brackets around some of
      its parts. */
  predicate Grammatical(e: Expr) {
    match e
    case Atom(_) => true
    case PrefixOp(_, e1) => Grammatical(e1) && !e1.BinaryOp?
    case Bracket(e1) => Grammatical(e1)
    case BinaryOp(b, _, l, r) =>
      Grammatical(l) && Grammatical(r) && Level(l) >= Priority(b) && Level(r) > Priority(b)
  }

  /** What every leaf is worth. */
  type Valuation = Leaf -> Arg

  /** What an expression is worth: the operators applied along the tree. */
  function Meaning(e: Expr, v: Valuation): Arg {
    match e
    case Atom(leaf) => v(leaf)
    case PrefixOp(u, e1) => Apply(Unary(u), Meaning(e1, v), ZERO)
    case Bracket(e1) => Meaning(e1, v)
    case BinaryOp(b, _, l, r) => Apply(Operator.Binary(b), Meaning(l, v), Meaning(r, v))
  }

  // ---------------------------------------------------------------------------
  // The machine on the actions of a tree

  /** The machine operations an expression should cause, in order. */
  function Actions(e: Expr): seq<Action> {
    match e
    case Atom(leaf) => [Push(leaf)]
    case PrefixOp(u, e1) => [Prefix(u)] + Actions(e1)
    case Bracket(e1) => [Open] + Actions(e1) + [Close]
    case BinaryOp(b, _, l, r) => Actions(l) + [Infix(b)] + Actions(r)
  }

  /** The state of the machine after those operations. */
  function After(e: Expr, m: Machine, v: Valuation): Machine {
    match e
    case Atom(leaf) => StackArg(m, v(leaf))
    case PrefixOp(u, e1) => After(e1, DoPrefix(m, u), v)
    case Bracket(e1) => DoClose(After(e1, DoOpen(m), v))
    case BinaryOp(b, _, l, r) => After(r, DoInfix(After(l, m, v), b), v)
  }

  /** A reduction at priority p stops here: the top is a bracket, or binds less tightly. */
  predicate Blocked(ops: seq<Entry>, p: nat) {
    ops == [] || Top(ops).pri == 0 || (Top(ops).pri < p && Top(ops).pri != UNARY_PRIORITY)
  }

  predicate AllPrefix(ops: seq<Entry>) {
    forall i :: 0 <= i < |ops| ==> ops[i].pri == UNARY_PRIORITY
  }

  /** The stack is a blocked part with a run of prefix operators on top of it. */
  ghost predicate Waiting(ops: seq<Entry>, base: nat, p: nat) {
    base <= |ops| && Blocked(ops[..base], p) && AllPrefix(ops[base..])
  }

  /** Pushing a value onto such a stack uses up exactly the prefix operators. */
  lemma {:induction false} StackArgStops(m: Machine, a: Arg, base: nat, p: nat)
    requires Waiting(m.ops, base, p)
    ensures var r := StackArg(m, a);
            r.ops == m.ops[..base] && |r.args| == |m.args| + 1 && r.args[..|m.args|] == m.args
            && !r.lastWasOp && r.errors == m.errors
    decreases |m.ops|
  {
    var n := |m.ops|;
    if n > base {
      assert m.ops[base..][n - 1 - base] == Top(m.ops);
      var m' := m.(ops := m.ops[..n - 1]);
      assert m'.ops[base..] == m.ops[base..][..n - 1 - base];
      assert m'.ops[..base] == m.ops[..base];
      StackArgStops(m', Apply(Top(m.ops).op, a, ZERO), base, p);
    } else {
      assert m.ops[..base] == m.ops;
    }
  }

  lemma {:induction false} ReduceCompose(m: Machine, p: nat, q: nat)
    requires p <= q
    ensures Reduce(Reduce(m, q), p) == Reduce(m, p)
    decreases |m.ops|
  {
    if m.ops != [] && Top(m.ops).pri != 0 && q <= Top(m.ops).pri {
      ReduceCompose(EvalTop(m), p, q);
    }
  }

  lemma {:induction false} StackArgFlag(m: Machine, a: Arg, flag: bool)
    ensures StackArg(m.(lastWasOp := flag), a) == StackArg(m, a)
    decreases |m.ops|
  {
    if m.ops != [] && Top(m.ops).pri == UNARY_PRIORITY {
      StackArgFlag(m.(ops := m.ops[..|m.ops| - 1]), Apply(Top(m.ops).op, a, ZERO), flag);
    }
  }

  /** Does an expression leave operators on the stack when its text ends? A binary operator
      always does. A closing bracket does not apply the prefix operators before it. */
  predicate Pends(e: Expr, afterPrefix: bool) {
    match e
    case Atom(_) => false
    case PrefixOp(_, e1) => Pends(e1, true)
    case Bracket(_) => afterPrefix
    case BinaryOp(_, _, _, _) => true
  }

  /** r is a machine that some expression worth v's top argument has left behind: reducing it
      yields v, and only a reduction that does nothing leaves lastWasOp alone. */
  ghost predicate ReducesTo(r: Machine, v: Machine, p: nat) {
    && !r.lastWasOp
    && Reduce(r, p) == v.(lastWasOp := false)
    && Reduce(r.(lastWasOp := true), p) == v.(lastWasOp := r == v)
  }

  /** Applying the top prefix operator is what pushing its argument would have done. */
  lemma PrefixReduces(w: Machine, m: Machine, a: Arg)
    requires m.ops != [] && Top(m.ops).pri == UNARY_PRIORITY
    requires w == Machine(m.args + [a], m.ops, w.lastWasOp, m.errors)
    ensures EvalTop(w) == StackArg(m, a)
  {
    assert w.args[..|w.args| - 1] == m.args;
    StackArgFlag(m.(ops := m.ops[..|m.ops| - 1]), Apply(Top(m.ops).op, a, ZERO), w.lastWasOp);
  }

  /** Applying the top binary operator pushes its result. */
  lemma InfixReduces(w: Machine, m: Machine, b: Operators.BinaryOp, a: Arg, c: Arg)
    requires w == Machine(m.args + [a, c], m.ops + [Entry(Priority(b), Operator.Binary(b))], w.lastWasOp, m.errors)
    ensures EvalTop(w) == StackArg(m, Apply(Operator.Binary(b), a, c))
  {
    assert w.ops[..|w.ops| - 1] == m.ops && w.args[..|w.args| - 2] == m.args;
    StackArgFlag(m, Apply(Operator.Binary(b), a, c), w.lastWasOp);
  }

  lemma ReduceStep(w: Machine, v: Machine, p: nat)
    requires w.ops != [] && Top(w.ops).pri != 0 && p <= Top(w.ops).pri
    requires EvalTop(w) == v && Blocked(v.ops, p) && p <= UNARY_PRIORITY
    ensures Reduce(w, p) == v
  {
  }

  /** After a closing bracket: the prefix operators before the bracket wait for the reduction. */
  lemma BracketReduces(m: Machine, a: Arg, base: nat, p: nat)
    requires 1 <= p <= UNARY_PRIORITY && Waiting(m.ops, base, p)
    ensures var r, v := m.(args := m.args + [a], lastWasOp := false), StackArg(m, a);
            (r == v <==> |m.ops| == base) && ReducesTo(r, v, p)
  {
    var r, v := m.(args := m.args + [a], lastWasOp := false), StackArg(m, a);
    StackArgStops(m, a, base, p);
    if |m.ops| > base {
      assert m.ops[base..][|m.ops| - 1 - base] == Top(m.ops);
      PrefixReduces(r, m, a);
      ReduceStep(r, v, p);
      PrefixReduces(r.(lastWasOp := true), m, a);
      ReduceStep(r.(lastWasOp := true), v, p);
    } else {
      assert m.ops[..base] == m.ops;
    }
  }

  /** After the right operand of a binary operator: reducing applies the operator. */
  lemma BinaryReduces(m: Machine, b: Operators.BinaryOp, a: Arg, c: Arg, m2: Machine, r: Machine, p: nat)
    requires 1 <= p <= Priority(b) && Blocked(m.ops, p)
    requires m2.args == m.args + [a] && m2.ops == m.ops + [Entry(Priority(b), Operator.Binary(b))]
    requires m2.errors == m.errors
    requires ReducesTo(r, StackArg(m2, c), Priority(b) + 1)
    ensures ReducesTo(r, StackArg(m, Apply(Operator.Binary(b), a, c)), p)
    ensures r != StackArg(m, Apply(Operator.Binary(b), a, c))
  {
    var v2 := StackArg(m2, c);
    var v := StackArg(m, Apply(Operator.Binary(b), a, c));
    assert v2 == Machine(m.args + [a, c], m2.ops, false, m.errors);
    BinaryReducesFlag(m, b, a, c, v2, r, v, p);
    BinaryReducesFlag(m, b, a, c, v2.(lastWasOp := r == v2), r.(lastWasOp := true), v, p);
  }

  lemma BinaryReducesFlag(m: Machine, b: Operators.BinaryOp, a: Arg, c: Arg, w: Machine, r: Machine, v: Machine, p: nat)
    requires 1 <= p <= Priority(b) && Blocked(m.ops, p)
    requires w == Machine(m.args + [a, c], m.ops + [Entry(Priority(b), Operator.Binary(b))], w.lastWasOp, m.errors)
    requires Reduce(r, Priority(b) + 1) == w
    requires v == StackArg(m, Apply(Operator.Binary(b), a, c))
    ensures Reduce(r, p) == v
  {
    ReduceCompose(r, p, Priority(b) + 1);
    InfixReduces(w, m, b, a, c);
    assert m.ops[..|m.ops|] == m.ops;
    StackArgStops(m, Apply(Operator.Binary(b), a, c), |m.ops|, p);
    ReduceStep(w, v, p);
  }

  /** The stack discipline: what an expression leaves on the stacks, once reduced, is its meaning
      pushed on the stack it started from. */
  lemma {:induction false} MachineComputesMeaning(e: Expr, m: Machine, base: nat, p: nat, v: Valuation)
    requires Grammatical(e) && 1 <= p <= Level(e)
    requires Waiting(m.ops, base, p)
    requires e.BinaryOp? ==> |m.ops| == base
    ensures var r, goal := After(e, m, v), StackArg(m, Meaning(e, v));
            (r == goal <==> !Pends(e, |m.ops| > base)) && ReducesTo(r, goal, p)
    decreases e, 1
  {
    match e
    case Atom(leaf) =>
      StackArgStops(m, v(leaf), base, p);
      AtomReduces(m, v(leaf), base, p);
    case PrefixOp(u, e1) =>
      var m1 := DoPrefix(m, u);
      assert m1.ops[..base] == m.ops[..base] && m1.ops[..|m1.ops| - 1] == m.ops;
      assert m1.ops[base..] == m.ops[base..] + [Top(m1.ops)];
      MachineComputesMeaning(e1, m1, base, p, v);
      StackArgFlag(m, Meaning(e, v), true);
      assert m1.(ops := m.ops) == m.(lastWasOp := true);
      assert StackArg(m1, Meaning(e1, v)) == StackArg(m, Meaning(e, v));
    case Bracket(e1) =>
      CloseComputes(e1, m, v);
      BracketReduces(m, Meaning(e1, v), base, p);
    case BinaryOp(b, gap, left, right) =>
      assert m.ops[..base] == m.ops;
      BinaryComputes(b, gap, left, right, m, p, v);
  }

  lemma {:induction false} BinaryComputes(b: Operators.BinaryOp, gap: nat, left: Expr, right: Expr, m: Machine, p: nat,
      v: Valuation)
    requires Grammatical(BinaryOp(b, gap, left, right)) && 1 <= p <= Priority(b)
    requires Blocked(m.ops, p)
    ensures var e := BinaryOp(b, gap, left, right);
            var r, goal := After(e, m, v), StackArg(m, Meaning(e, v));
            r != goal && ReducesTo(r, goal, p)
    decreases BinaryOp(b, gap, left, right), 0
  {
    var e := BinaryOp(b, gap, left, right);
    var m2 := InfixComputes(b, left, m, v);
    var r := After(right, m2, v);
    assert After(e, m, v) == r;
    assert ReducesTo(r, StackArg(m2, Meaning(right, v)), Priority(b) + 1) by {
      MachineComputesMeaning(right, m2, |m2.ops|, Priority(b) + 1, v);
    }
    BinaryReduces(m, b, Meaning(left, v), Meaning(right, v), m2, r, p);
  }

  lemma AtomReduces(m: Machine, a: Arg, base: nat, p: nat)
    requires Waiting(m.ops, base, p)
    ensures ReducesTo(StackArg(m, a), StackArg(m, a), p)
  {
    StackArgStops(m, a, base, p);
  }

  lemma {:induction false} CloseComputes(e: Expr, m: Machine, v: Valuation)
    requires Grammatical(e)
    ensures DoClose(After(e, DoOpen(m), v)) == m.(args := m.args + [Meaning(e, v)], lastWasOp := false)
    decreases e, 2
  {
    var m1 := DoOpen(m);
    assert m1.ops[..|m1.ops|] == m1.ops;
    MachineComputesMeaning(e, m1, |m1.ops|, 1, v);
    var inner := After(e, m1, v);
    assert inner.(lastWasOp := false) == inner;
    assert m1.ops[..|m1.ops| - 1] == m.ops;
  }

  lemma {:induction false} InfixComputes(b: Operators.BinaryOp, e: Expr, m: Machine, v: Valuation) returns (m2: Machine)
    requires Grammatical(e) && Priority(b) <= Level(e) && Blocked(m.ops, Priority(b))
    ensures m2 == DoInfix(After(e, m, v), b)
    ensures m2 == Machine(m.args + [Meaning(e, v)], m.ops + [Entry(Priority(b), Operator.Binary(b))],
                          !Pends(e, false), m.errors)
    ensures Waiting(m2.ops, |m2.ops|, Priority(b) + 1)
    decreases e, 2
  {
    assert m.ops[..|m.ops|] == m.ops;
    m2 := DoInfix(After(e, m, v), b);
    MachineComputesMeaning(e, m, |m.ops|, Priority(b), v);
    assert m2.ops[..|m2.ops|] == m2.ops;
  }
}
