/** Symbols defined by EQM: evaluations nest as deep as the definitions do, and no deeper
    (pushsymbol of src/exp.c). */
module EqmNesting {
  import AddressModes
  import opened Lexer
  import opened Symbols
  import opened ExprMachine
  import opened ExprTree
  import opened ExprText
  import opened ExprTheorems
  import opened EvalSafety
  import opened ExprFits

  /** The key of a leaf that is an EQM symbol. */
  function EqmKey(leaf: Leaf, env: Env): Option<string> {
    if leaf.Name? && leaf.name != [] && EqmText(leaf, env).Some? then Some(Mangle(leaf.name, env.scope)) else None
  }

  /** The EQM symbols among the leaves of an expression rank below this. */
  ghost predicate RanksBelow(e: Expr, env: Env, rank: string -> nat, bound: nat) {
    forall leaf :: leaf in Leaves(e) && EqmKey(leaf, env).Some? ==> rank(EqmKey(leaf, env).value) < bound
  }

  /** Every EQM symbol is the text of an expression whose own EQM symbols rank below it: no symbol is
      defined by way of itself. */
  ghost predicate Acyclic(env: Env, defs: map<string, Expr>, rank: string -> nat) {
    forall k :: k in env.syms && env.syms[k].eqm.Some? ==>
      && k in defs && env.syms[k].eqm == Some(Text(defs[k]))
      && Grammatical(defs[k]) && Shaped(defs[k]) && ReadsRight(defs[k], true)
      && RanksBelow(defs[k], env, rank, rank(k))
  }

  lemma {:induction false} MeaningSame(e: Expr, v: Valuation, w: Valuation)
    requires forall leaf :: leaf in Leaves(e) ==> v(leaf) == w(leaf)
    ensures Meaning(e, v) == Meaning(e, w)
  {
    match e
    case Atom(_) =>
    case PrefixOp(_, e1) => MeaningSame(e1, v, w);
    case Bracket(e1) => MeaningSame(e1, v, w);
    case BinaryOp(_, _, l, r) =>
      MeaningSame(l, v, w);
      MeaningSame(r, v, w);
  }

  lemma {:induction false} NoErrors(e: Expr, env: Env, depth: nat)
    requires forall leaf :: leaf in Leaves(e) ==> Resolve(env, leaf, depth).errors == 0
    ensures ErrorFree(e, env, depth)
  {
    hide Resolve;
    match e
    case Atom(_) =>
    case PrefixOp(_, e1) => NoErrors(e1, env, depth);
    case Bracket(e1) => NoErrors(e1, env, depth);
    case BinaryOp(_, _, l, r) =>
      NoErrors(l, env, depth);
      NoErrors(r, env, depth);
  }

  /** Looking up a leaf takes no more nesting than its rank: with that much, no error is reported and
      the result does not depend on how much more there is. */
  lemma {:induction false} NestingEnds(env: Env, defs: map<string, Expr>, rank: string -> nat, leaf: Leaf, d1: nat,
      d2: nat)
    requires Acyclic(env, defs, rank) && LeafShaped(leaf)
    requires EqmKey(leaf, env).Some? ==> rank(EqmKey(leaf, env).value) < d1 && rank(EqmKey(leaf, env).value) < d2
    ensures Resolve(env, leaf, d1) == Resolve(env, leaf, d2) && Resolve(env, leaf, d1).errors == 0
    decreases if EqmKey(leaf, env).Some? then 1 + rank(EqmKey(leaf, env).value) else 0
  {
    hide Mangle, Text, EvalText, Shaped, Meaning, NumberValue;
    if EqmKey(leaf, env).Some? {
      var k := EqmKey(leaf, env).value;
      var e := defs[k];
      assert k in env.syms && env.syms[k].eqm.Some?;
      assert RanksBelow(e, env, rank, rank(k));
      forall x | x in Leaves(e)
        ensures Resolve(env, x, d1 - 1) == Resolve(env, x, d2 - 1) && Resolve(env, x, d1 - 1).errors == 0
      {
        LeavesShaped(e, x);
        NestingEnds(env, defs, rank, x, d1 - 1, d2 - 1);
      }
      NoErrors(e, env, d1 - 1);
      NoErrors(e, env, d2 - 1);
      EqmUnfolds(leaf.name, e, env, d1);
      EqmUnfolds(leaf.name, e, env, d2);
      MeaningSame(e, Values(env, d1 - 1), Values(env, d2 - 1));
    }
  }

  /** So any expression of such symbols has a meaning that nesting does not limit, and eval returns it. */
  lemma NestedMeaning(env: Env, defs: map<string, Expr>, rank: string -> nat, e: Expr, bound: nat, depth: nat,
      want: bool)
    requires Acyclic(env, defs, rank) && RanksBelow(e, env, rank, bound) && bound <= depth
    requires Grammatical(e) && Shaped(e) && ReadsRight(e, true)
    ensures Meaning(e, Values(env, depth)) == Meaning(e, Values(env, bound))
    ensures EvalText(Text(e), want, env, depth) == EvalText(Text(e), want, env, bound)
         == ([Operand(AddressModes.ByteAdr, Meaning(e, Values(env, bound)))], 0)
  {
    hide Resolve, Acyclic, Shaped, LeafShaped, EqmKey, Meaning, EvalText, Text;
    forall x | x in Leaves(e)
      ensures Resolve(env, x, depth) == Resolve(env, x, bound) && Resolve(env, x, depth).errors == 0
    {
      LeavesShaped(e, x);
      NestingEnds(env, defs, rank, x, depth, bound);
    }
    NoErrors(e, env, depth);
    NoErrors(e, env, bound);
    MeaningSame(e, Values(env, depth), Values(env, bound));
    EvalComputesMeaning(e, want, env, depth);
    EvalComputesMeaning(e, want, env, bound);
  }

  // ---------------------------------------------------------------------------
  // Nested evaluations share the stacks

  /** What the text behind a leaf needs on the stacks, the texts its own leaves stand for included. */
  function TextNeeds(env: Env, defs: map<string, Expr>, levels: nat): Needs
    decreases levels, 1
  {
    (leaf: Leaf) => TextNeed(leaf, env, defs, levels)
  }

  function TextNeed(leaf: Leaf, env: Env, defs: map<string, Expr>, levels: nat): Need
    decreases levels, 0
  {
    var k := EqmKey(leaf, env);
    if levels == 0 || k.None? || k.value !in defs then Need(0, 0)
    else
      var inner := TextNeeds(env, defs, levels - 1);
      Need(ArgNeed(defs[k.value], inner), OpNeed(defs[k.value], inner))
  }

  /** The texts of symbols that are not defined by way of themselves are safe to evaluate where there is
      the room they need. */
  lemma {:induction false} NestedHeld(env: Env, defs: map<string, Expr>, rank: string -> nat, e: Expr, bound: nat,
      depth: nat)
    requires Acyclic(env, defs, rank) && RanksBelow(e, env, rank, bound) && bound <= depth
    ensures LeavesHeld(e, env, depth, TextNeeds(env, defs, bound))
    decreases bound, 1
  {
    hide LeafHeld, Acyclic, EqmKey, TextNeed;
    forall leaf | leaf in Leaves(e) ensures LeafHeld(leaf, env, depth, TextNeeds(env, defs, bound)) {
      NestedLeaf(env, defs, rank, leaf, bound, depth);
    }
  }

  lemma {:induction false} NestedLeaf(env: Env, defs: map<string, Expr>, rank: string -> nat, leaf: Leaf, bound: nat,
      depth: nat)
    requires Acyclic(env, defs, rank) && bound <= depth
    requires EqmKey(leaf, env).Some? ==> rank(EqmKey(leaf, env).value) < bound
    ensures LeafHeld(leaf, env, depth, TextNeeds(env, defs, bound))
    decreases bound, 0
  {
    hide Mangle, Text, Shaped, Safe, ArgNeed, OpNeed, Readable;
    if EqmText(leaf, env).Some? {
      var k := EqmKey(leaf, env).value;
      assert k in env.syms && env.syms[k].eqm.Some?;
      var (e, needs) := (defs[k], TextNeeds(env, defs, bound - 1));
      NestedHeld(env, defs, rank, e, bound - 1, depth - 1);
      forall argi: nat, opi: nat | Room(Need(ArgNeed(e, needs), OpNeed(e, needs)), argi, opi)
        ensures Safe(Text(e), Begin(false), env, depth - 1, argi, opi)
      {
        NestedReadable(env, defs, rank, e, bound - 1, depth - 1);
        NestedText(e, env, depth - 1, argi, opi, needs);
      }
    }
  }

  lemma NestedReadable(env: Env, defs: map<string, Expr>, rank: string -> nat, e: Expr, bound: nat, depth: nat)
    requires Acyclic(env, defs, rank) && RanksBelow(e, env, rank, bound) && bound <= depth
    requires Grammatical(e) && Shaped(e) && ReadsRight(e, true)
    ensures Readable(e, env, depth)
  {
    hide Resolve, Acyclic, LeafShaped, EqmKey, Shaped;
    forall x | x in Leaves(e) ensures Resolve(env, x, depth).errors == 0 {
      LeavesShaped(e, x);
      NestingEnds(env, defs, rank, x, depth, depth);
    }
    NoErrors(e, env, depth);
  }

  lemma NestedText(e: Expr, env: Env, depth: nat, argi: nat, opi: nat, needs: Needs)
    requires Usable(e, env, depth, argi, opi, needs)
    ensures Safe(Text(e), Begin(false), env, depth, argi, opi)
  {
    hide Safe, LeavesHeld, Reduce, Resolve, Text;
    assert Text(e) + [] == Text(e);
    ElementNoBrackets(e, Begin(false), env, depth);
    EndIsSafe(Ran(e, Begin(false), env, depth), env, depth, argi, opi);
    ElementIsSafe(e, [], Begin(false), env, depth, argi, opi, needs);
  }

  /** So any expression of such symbols may be handed to the evaluator from the heights at which the
      stacks hold it together with the nested texts. */
  lemma NestedUsable(env: Env, defs: map<string, Expr>, rank: string -> nat, e: Expr, bound: nat, depth: nat,
      argi: nat, opi: nat)
    requires Acyclic(env, defs, rank) && RanksBelow(e, env, rank, bound) && bound <= depth
    requires Grammatical(e) && Shaped(e) && ReadsRight(e, true)
    requires Fits(e, argi, opi, TextNeeds(env, defs, bound))
    ensures Usable(e, env, depth, argi, opi, TextNeeds(env, defs, bound))
    ensures Safe(Text(e), Begin(false), env, depth, argi, opi)
  {
    hide Acyclic, RanksBelow, Fits, TextNeeds, LeavesHeld, Safe;
    NestedReadable(env, defs, rank, e, bound, depth);
    NestedHeld(env, defs, rank, e, bound, depth);
    NestedText(e, env, depth, argi, opi, TextNeeds(env, defs, bound));
  }
}
