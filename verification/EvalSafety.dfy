/** What the evaluator of src/exp.c demands of a text so that its fixed stacks suffice, and the
    effect an evaluation has on the symbol table. */
module EvalSafety {
  import opened Operators
  import opened Lexer
  import opened Symbols
  import opened ExprMachine
  import opened ExprText

  const MAXOPS := 32
  const MAXARGS := 64

  predicate NoBrackets(ops: seq<Entry>) {
    forall i :: 0 <= i < |ops| ==> ops[i].pri != 0
  }

  /** The EQM text a leaf stands for, if it does. */
  function EqmText(leaf: Leaf, env: Env): Option<string> {
    if leaf.Name? && leaf.name != [] && leaf.name != ".." && leaf.name != "..."
    then Find(env.syms, Mangle(leaf.name, env.scope)).eqm
    else None
  }

  /** The stacks hold this step, evaluation of a nested EQM text included, and brackets and commas
      stand where they belong. argi and opi are the heights the evaluation started from. */
  predicate StepSafe(sc: Scan, a: Action, env: Env, depth: nat, argi: nat, opi: nat)
    decreases depth, 0, 0
  {
    match a
    case Push(leaf) =>
      && argi + |sc.m.args| + 1 < MAXARGS
      && (EqmText(leaf, env).Some? ==>
            depth > 0 && Safe(EqmText(leaf, env).value, Begin(false), env, depth - 1,
                              argi + |sc.m.args|, opi + |sc.m.ops|))
    case Prefix(u) => opi + |sc.m.ops| + 1 < MAXOPS
    case Infix(b) => opi + |DoInfix(sc.m, b).ops| < MAXOPS
    case Open => opi + |sc.m.ops| + 1 < MAXOPS
    case Close => Reduce(sc.m, 1).args != [] && Reduce(sc.m, 1).ops != []
    case Index(_) => NoBrackets(sc.m.ops)
    case Next => NoBrackets(sc.m.ops) && Reduce(sc.m, 1).args != []
    case _ => true
  }

  predicate Safe(s: string, sc: Scan, env: Env, depth: nat, argi: nat, opi: nat)
    decreases depth, |s|, 1
  {
    if s == [] then NoBrackets(sc.m.ops)
    else
      var l := LexIn(s, sc);
      && (l.action == Infix(NotEq) ==> |s| > 1)
      && StepSafe(sc, l.action, env, depth, argi, opi)
      && Safe(s[l.length..], Perform(sc, l.action, env, depth), env, depth, argi, opi)
  }

  /** What an evaluation does to the table: the keys it touches, and how many lookups found an
      unknown value (Redo_eval). */
  datatype Effect = Effect(keys: set<string>, unknowns: nat)

  const NOTHING := Effect({}, 0)

  function Plus(a: Effect, b: Effect): Effect {
    Effect(a.keys + b.keys, a.unknowns + b.unknowns)
  }

  function CountIf(b: bool): nat {
    if b then 1 else 0
  }

  function LeafEffect(leaf: Leaf, env: Env, depth: nat): Effect
    decreases depth, 0
  {
    match leaf
    case Dot => Effect({}, CountIf(env.pc.unknown))
    case Star => Effect({}, CountIf(env.pc.unknown))
    case Name(n) =>
      if n == [] || n == "..." then NOTHING
      else if n == ".." then Effect({}, CountIf(env.dv.unknown))
      else
        var key := Mangle(n, env.scope);
        var sym := Find(env.syms, key);
        if sym.eqm.None? then Effect({key}, CountIf(sym.unknown))
        else if depth == 0 then NOTHING
        else Plus(Effect({}, CountIf(sym.unknown)),
                  TraceEffect(Trace(sym.eqm.value, Begin(false), env, depth - 1), env, depth - 1))
    case _ => NOTHING
  }

  function TraceEffect(trace: seq<Action>, env: Env, depth: nat): Effect
    decreases depth, |trace| + 1
  {
    if trace == [] then NOTHING
    else Plus(if trace[0].Push? then LeafEffect(trace[0].leaf, env, depth) else NOTHING,
              TraceEffect(trace[1..], env, depth))
  }

  function TextEffect(s: string, sc: Scan, env: Env, depth: nat): Effect {
    TraceEffect(Trace(s, sc, env, depth), env, depth)
  }

  /** Doing what the text says one step at a time adds up to its whole effect. */
  lemma EffectStep(s: string, sc: Scan, env: Env, depth: nat)
    requires s != []
    ensures var l := LexIn(s, sc);
            TextEffect(s, sc, env, depth)
            == Plus(if l.action.Push? then LeafEffect(l.action.leaf, env, depth) else NOTHING,
                    TextEffect(s[l.length..], Perform(sc, l.action, env, depth), env, depth))
  {
    hide Lex, Perform, LeafEffect, RunText;
    var l := LexIn(s, sc);
    var rest := Trace(s[l.length..], Perform(sc, l.action, env, depth), env, depth);
    assert ([l.action] + rest)[1..] == rest;
  }
}
