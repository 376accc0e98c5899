/** What eval (src/exp.c) guarantees: it computes the meaning of what was written, for single
    expressions, lists and every operand syntax, and what it reports as known is known. */
module ExprTheorems {
  import opened Operators
  import opened AddressModes
  import opened Lexer
  import opened Symbols
  import opened ExprMachine
  import opened ExprTree
  import opened ExprText

  /** An expression eval reads rightly from a fresh start, in an environment it makes sense in. */
  predicate Readable(e: Expr, env: Env, depth: nat) {
    Grammatical(e) && Shaped(e) && ReadsRight(e, true) && ErrorFree(e, env, depth)
  }

  // ---------------------------------------------------------------------------
  // One expression

  /** After the text of an expression, a reduction leaves its meaning as the only argument. */
  lemma RunElement(e: Expr, rest: string, sc: Scan, env: Env, depth: nat)
    requires Readable(e, env, depth) && Boundary(rest)
    requires sc.m.args == [] && sc.m.ops == [] && sc.m.lastWasOp
    ensures Reads(e, rest, sc, env, depth)
    ensures Reduce(Ran(e, sc, env, depth).m, 1)
         == sc.m.(args := [Meaning(e, Values(env, depth))], lastWasOp := false)
  {
    hide Lex, RunText, Trace, Resolve;
    assert Waiting(sc.m.ops, 0, 1);
    ReadsExactly(e, rest, sc, 0, 1, env, depth);
    MachineComputesMeaning(e, sc.m, 0, 1, Values(env, depth));
  }

  /** The evaluator's result on the text of an expression is the meaning of the expression, with
      no error reported. */
  lemma EvalComputesMeaning(e: Expr, want: bool, env: Env, depth: nat)
    requires Readable(e, env, depth)
    ensures EvalText(Text(e), want, env, depth)
         == ([Operand(ByteAdr, Meaning(e, Values(env, depth)))], 0)
  {
    hide Lex, Trace, Resolve, Reduce, Meaning, Finish, RunText;
    FinishElement(e, Begin(want), env, depth);
    var op := Operand(Imp, Meaning(e, Values(env, depth)));
    assert ([] + [op])[0 := op.(mode := ByteAdr)] == [op.(mode := ByteAdr)];
  }

  /** eval takes every character of the text for what it was written as if and only if no prefix
      operator, program counter star or binary literal follows a reducing operator. */
  lemma ReadingIsExact(e: Expr, want: bool, env: Env, depth: nat)
    requires Grammatical(e) && Shaped(e) && ErrorFree(e, env, depth)
    ensures Trace(Text(e), Begin(want), env, depth) == Actions(e) <==> ReadsRight(e, true)
  {
    hide Lex, Resolve, Reduce;
    assert Text(e) + [] == Text(e);
    assert Waiting([], 0, 1);
    ReadsExactly(e, [], Begin(want), 0, 1, env, depth);
  }

  /** The misreading is real: in 1 - 1 - * the star is taken for a multiplication. */
  lemma StarAfterReduction(env: Env)
    ensures var one := Atom(Decimal("1"));
            var e := BinaryOp(Sub, 1, BinaryOp(Sub, 1, one, one), Atom(Star));
            && Text(e) == "1- 1- *"
            && Trace(Text(e), Begin(false), env, 0) != Actions(e)
  {
    var one := Atom(Decimal("1"));
    var inner := BinaryOp(Sub, 1, one, one);
    var e := BinaryOp(Sub, 1, inner, Atom(Star));
    assert Spaces(1) == " ";
    assert Text(inner) == "1- 1";
    assert ErrorFree(inner, env, 0);
    ReadingIsExact(e, false, env, 0);
  }

  /** A symbol defined by EQM stands for the meaning its text has where it is used. */
  lemma EqmUnfolds(n: string, e: Expr, env: Env, depth: nat)
    requires NameShaped(n) && depth > 0
    requires Find(env.syms, Mangle(n, env.scope)).eqm == Some(Text(e))
    requires Readable(e, env, depth - 1)
    ensures Resolve(env, Name(n), depth) == Looked(Meaning(e, Values(env, depth - 1)), 0)
  {
    EvalComputesMeaning(e, false, env, depth - 1);
    hide Lex, Trace, Reduce, Meaning, Mangle, Text, EvalText;
  }

  // ---------------------------------------------------------------------------
  // Every tree has a text

  function EncloseIf(b: bool, e: Expr): Expr {
    if b then Bracket(e) else e
  }

  /** Put brackets where the text of a tree needs them. */
  function Enclose(e: Expr): Expr {
    match e
    case Atom(_) => e
    case PrefixOp(u, e1) =>
      var x := Enclose(e1);
      PrefixOp(u, EncloseIf(x.BinaryOp?, x))
    case Bracket(e1) => Bracket(Enclose(e1))
    case BinaryOp(b, gap, l, r) =>
      var (x, y) := (Enclose(l), Enclose(r));
      BinaryOp(b, gap, EncloseIf(Level(x) < Priority(b), x), EncloseIf(Level(y) <= Priority(b), y))
  }

  /** Brackets make any tree writable and leave its meaning alone. */
  lemma {:induction false} EncloseIsGrammatical(e: Expr, v: Valuation)
    ensures Grammatical(Enclose(e)) && Meaning(Enclose(e), v) == Meaning(e, v)
  {
    hide Apply;
    match e
    case Atom(_) =>
    case PrefixOp(_, e1) => EncloseIsGrammatical(e1, v);
    case Bracket(e1) => EncloseIsGrammatical(e1, v);
    case BinaryOp(_, _, l, r) =>
      EncloseIsGrammatical(l, v);
      EncloseIsGrammatical(r, v);
  }

  // ---------------------------------------------------------------------------
  // Known and unknown values

  function Leaves(e: Expr): set<Leaf> {
    match e
    case Atom(leaf) => {leaf}
    case PrefixOp(_, e1) => Leaves(e1)
    case Bracket(e1) => Leaves(e1)
    case BinaryOp(_, _, l, r) => Leaves(l) + Leaves(r)
  }

  lemma {:induction false} LeavesShaped(e: Expr, leaf: Leaf)
    requires Shaped(e) && leaf in Leaves(e)
    ensures LeafShaped(leaf)
  {
    match e
    case Atom(_) =>
    case PrefixOp(_, e1) => LeavesShaped(e1, leaf);
    case Bracket(e1) => LeavesShaped(e1, leaf);
    case BinaryOp(_, _, l, r) => if leaf in Leaves(l) { LeavesShaped(l, leaf); } else { LeavesShaped(r, leaf); }
  }

  /** w knows at least what v knows about these leaves. */
  ghost predicate Informs(w: Valuation, v: Valuation, leaves: set<Leaf>) {
    forall leaf :: leaf in leaves ==> Refines(v(leaf), w(leaf))
  }

  /** Learning more about the leaves never changes a result that was already known. */
  lemma {:induction false} MeaningMonotone(e: Expr, v: Valuation, w: Valuation)
    requires Informs(w, v, Leaves(e))
    ensures Refines(Meaning(e, v), Meaning(e, w))
  {
    match e
    case Atom(leaf) =>
    case PrefixOp(u, e1) =>
      MeaningMonotone(e1, v, w);
      ApplyMonotone(Unary(u), Meaning(e1, v), Meaning(e1, w), ZERO, ZERO);
    case Bracket(e1) => MeaningMonotone(e1, v, w);
    case BinaryOp(b, _, l, r) =>
      hide Apply;
      MeaningMonotone(l, v, w);
      MeaningMonotone(r, v, w);
      ApplyMonotone(Operator.Binary(b), Meaning(l, v), Meaning(l, w), Meaning(r, v), Meaning(r, w));
  }

  /** The value of an expression when every leaf has one: C arithmetic along the tree. */
  function PlainValue(e: Expr, f: Leaf -> int): int {
    match e
    case Atom(leaf) => f(leaf)
    case PrefixOp(u, e1) => UnaryValue(u, PlainValue(e1, f))
    case Bracket(e1) => PlainValue(e1, f)
    case BinaryOp(b, _, l, r) => BinaryValue(b, PlainValue(l, f), PlainValue(r, f))
  }

  lemma {:induction false} KnownMeaning(e: Expr, v: Valuation, f: Leaf -> int)
    requires forall leaf :: leaf in Leaves(e) ==> v(leaf) == Arg(f(leaf), false)
    ensures Meaning(e, v) == Arg(PlainValue(e, f), false)
  {
    match e
    case Atom(leaf) =>
    case PrefixOp(_, e1) => KnownMeaning(e1, v, f);
    case Bracket(e1) => KnownMeaning(e1, v, f);
    case BinaryOp(b, _, l, r) =>
      KnownMeaning(l, v, f);
      KnownMeaning(r, v, f);
      ApplyKnown(b, Meaning(l, v), Meaning(r, v));
  }

  /** A result flagged as known is the value of the expression under every assignment to the
      leaves that are unknown, whatever && || and ? left unevaluated. */
  lemma ThreeValuedSound(e: Expr, v: Valuation, f: Leaf -> int)
    requires forall leaf :: leaf in Leaves(e) ==> v(leaf).unknown || v(leaf).value == f(leaf)
    requires !Meaning(e, v).unknown
    ensures Meaning(e, v).value == PlainValue(e, f)
  {
    var w: Valuation := (leaf: Leaf) => Arg(f(leaf), false);
    MeaningMonotone(e, v, w);
    KnownMeaning(e, w, f);
  }

  // ---------------------------------------------------------------------------
  // Lists

  /** The texts of several expressions with commas between them. */
  function ListText(es: seq<Expr>): string
    requires es != []
  {
    if |es| == 1 then Text(es[0]) else Text(es[0]) + ("," + ListText(es[1..]))
  }

  function Meanings(es: seq<Expr>, v: Valuation): (r: seq<Arg>)
    ensures |r| == |es| && forall i :: 0 <= i < |es| ==> r[i] == Meaning(es[i], v)
  {
    if es == [] then [] else [Meaning(es[0], v)] + Meanings(es[1..], v)
  }

  /** A list element that starts like this after a comma is taken for an index register. */
  predicate LooksIndexed(t: string) {
    IsIndex("," + t, 'x', 'X') || IsIndex("," + t, 'y', 'Y')
  }

  predicate ReadableList(es: seq<Expr>, env: Env, depth: nat) {
    && es != []
    && (forall e :: e in es ==> Readable(e, env, depth))
    && (forall i :: 0 < i < |es| ==> !LooksIndexed(ListText(es[i..])))
  }

  /** List elements, none with an addressing mode. */
  function Plain(args: seq<Arg>): (r: seq<Operand>)
    ensures |r| == |args| && forall i :: 0 <= i < |args| ==> r[i] == Operand(Imp, args[i])
  {
    if args == [] then [] else [Operand(Imp, args[0])] + Plain(args[1..])
  }

  lemma LexComma(t: string, sc: Scan)
    requires !LooksIndexed(t)
    ensures LexIn("," + t, sc) == Step(Next, 1)
  {
  }

  lemma RunComma(t: string, sc: Scan, env: Env, depth: nat)
    requires !LooksIndexed(t)
    ensures RunText("," + t, sc, env, depth) == RunText(t, DoNext(sc), env, depth)
  {
    hide Lex;
    LexComma(t, sc);
    RunStep(",", t, sc, env, depth);
  }

  lemma FinishElement(e: Expr, sc: Scan, env: Env, depth: nat)
    requires Readable(e, env, depth)
    requires sc.m == START && sc.mode == Imp && (forall i :: 0 <= i < |sc.done| ==> sc.done[i].mode == Imp)
    ensures var all := sc.done + [Operand(Imp, Meaning(e, Values(env, depth)))];
            Finish(RunText(Text(e), sc, env, depth)) == (all[0 := all[0].(mode := ByteAdr)], 0)
  {
    hide Lex, Trace, Resolve, Reduce, Meaning, Text;
    assert Text(e) + [] == Text(e);
    RunElement(e, [], sc, env, depth);
    var sc1 := Ran(e, sc, env, depth);
    assert RunText([], sc1, env, depth) == sc1;
  }

  lemma CommaElement(e: Expr, t: string, sc: Scan, env: Env, depth: nat)
    requires Readable(e, env, depth) && !LooksIndexed(t)
    requires sc.m == START && sc.mode == Imp
    ensures RunText(Text(e) + ("," + t), sc, env, depth)
         == RunText(t, sc.(done := sc.done + [Operand(Imp, Meaning(e, Values(env, depth)))]), env, depth)
  {
    hide Lex, Trace, Resolve, Reduce, Meaning, Text, RunText;
    RunElement(e, "," + t, sc, env, depth);
    RunComma(t, Ran(e, sc, env, depth), env, depth);
  }

  lemma PlainStep(es: seq<Expr>, v: Valuation, done: seq<Operand>)
    requires es != []
    ensures done + [Operand(Imp, Meaning(es[0], v))] + Plain(Meanings(es[1..], v)) == done + Plain(Meanings(es, v))
    ensures |es| == 1 ==> Plain(Meanings(es, v)) == [Operand(Imp, Meaning(es[0], v))]
  {
    hide Meaning;
    var ms := Meanings(es, v);
    assert ms[1..] == Meanings(es[1..], v);
    assert Plain(ms) == [Operand(Imp, ms[0])] + Plain(ms[1..]);
  }

  lemma {:induction false} RunList(es: seq<Expr>, sc: Scan, env: Env, depth: nat)
    requires ReadableList(es, env, depth)
    requires sc.m == START && sc.mode == Imp && (forall i :: 0 <= i < |sc.done| ==> sc.done[i].mode == Imp)
    ensures var all := sc.done + Plain(Meanings(es, Values(env, depth)));
            Finish(RunText(ListText(es), sc, env, depth)) == (all[0 := all[0].(mode := ByteAdr)], 0)
    decreases |es|
  {
    hide Lex, Trace, Resolve, Reduce, Meaning, Text, RunText, Finish, Readable, Plain, Meanings, EvalText, LooksIndexed;
    var v := Values(env, depth);
    if |es| == 1 {
      PlainStep(es, v, sc.done);
      FinishElement(es[0], sc, env, depth);
    } else {
      CommaElement(es[0], ListText(es[1..]), sc, env, depth);
      forall i | 0 < i < |es[1..]| ensures !LooksIndexed(ListText(es[1..][i..])) {
        assert es[1..][i..] == es[i + 1..];
      }
      var op := Operand(Imp, Meaning(es[0], v));
      RunList(es[1..], sc.(done := sc.done + [op]), env, depth);
      PlainStep(es, v, sc.done);
    }
  }

  /** eval of a comma-separated list returns the meanings of its elements in order; only the first
      is given an addressing mode. */
  lemma EvalComputesList(es: seq<Expr>, env: Env, depth: nat)
    requires ReadableList(es, env, depth)
    ensures var all := Plain(Meanings(es, Values(env, depth)));
            EvalText(ListText(es), false, env, depth) == (all[0 := all[0].(mode := ByteAdr)], 0)
  {
    hide Lex, Trace, Resolve, Reduce, Meaning, Text, ListText, Finish, RunText;
    RunList(es, Begin(false), env, depth);
    var all := Plain(Meanings(es, Values(env, depth)));
    assert [] + all == all;
  }

  // ---------------------------------------------------------------------------
  // Operands with an addressing mode

  /** The operand syntaxes of v_mnemonic: e  #e  e,x  e,y  (e)  (e,x)  (e),y */
  datatype Form = Direct | Hash | IndexedX | IndexedY | Indirect | IndirectX | IndirectY {
    function Head(): string {
      match this
      case Hash => "#"
      case Indirect => "("
      case IndirectX => "("
      case IndirectY => "("
      case _ => ""
    }

    function Tail(): string {
      match this
      case IndexedX => ",x"
      case IndexedY => ",y"
      case Indirect => ")"
      case IndirectX => ",x)"
      case IndirectY => "),y"
      case _ => ""
    }

    function Mode(): AddressModes.Mode {
      match this
      case Direct => ByteAdr
      case Hash => Imm8
      case IndexedX => ZeroX
      case IndexedY => ZeroY
      case Indirect => IndWord
      case IndirectX => IndByteX
      case IndirectY => IndByteY
    }
  }

  function FormText(f: Form, e: Expr): string {
    f.Head() + (Text(e) + f.Tail())
  }

  /** eval's state once the head of an operand is behind it. */
  function AfterHead(f: Form): Scan {
    Scan(START, !f.Hash?, if f.Head() == "#" then Imm8 else if f.Head() == "(" then IndWord else Imp, [])
  }

  lemma RunMark(t: string, rest: string, sc: Scan, env: Env, depth: nat, a: Action)
    requires t != [] && LexIn(t + rest, sc) == Step(a, |t|)
    ensures RunText(t + rest, sc, env, depth) == RunText(rest, Perform(sc, a, env, depth), env, depth)
  {
    hide Lex, Perform;
    RunStep(t, rest, sc, env, depth);
  }

  lemma RunNothing(sc: Scan, env: Env, depth: nat)
    ensures RunText([], sc, env, depth) == sc
  {
  }

  function HeadAction(f: Form): Action {
    if f.Hash? then Immediate else ParenOpen
  }

  lemma LexHead(f: Form, t: string)
    requires f.Head() != ""
    ensures LexIn(f.Head() + t, Begin(true)) == Step(HeadAction(f), 1)
  {
  }

  lemma LexParen(y: bool, sc: Scan)
    requires sc.want && (y ==> sc.mode == IndWord)
    ensures y ==> LexIn("),y", sc) == Step(ParenClose(true), 3)
    ensures !y ==> LexIn(")", sc) == Step(ParenClose(false), 1)
  {
  }

  lemma LexIndex(t: string, mode: AddressModes.Mode, rest: string, sc: Scan)
    requires rest == "" || rest == ")"
    requires (t == ",x" && mode == if sc.mode == IndWord then IndByteX else ZeroX) || (t == ",y" && mode == ZeroY)
    ensures LexIn(t + rest, sc) == Step(Index(mode), 2)
  {
  }

  lemma RunHead(f: Form, t: string, env: Env, depth: nat)
    ensures RunText(f.Head() + t, Begin(true), env, depth) == RunText(t, AfterHead(f), env, depth)
  {
    hide Lex, Trace, RunText;
    if f.Head() == "" {
      assert f.Head() + t == t;
    } else {
      LexHead(f, t);
      RunMark(f.Head(), t, Begin(true), env, depth, HeadAction(f));
    }
  }

  lemma FinishOne(sc: Scan, a: Arg)
    requires sc.done == []
    requires Reduce(sc.m, 1).(lastWasOp := false) == Machine([a], [], false, 0)
    ensures Finish(sc) == ([Operand(if sc.mode == Imp then ByteAdr else sc.mode, a)], 0)
  {
    hide Reduce;
    var all := sc.done + [Operand(sc.mode, a)];
    assert all == [Operand(sc.mode, a)];
    assert all[0 := all[0].(mode := ByteAdr)] == [Operand(ByteAdr, a)];
  }

  /** What follows the expression in an operand changes the mode, not the value. */
  lemma RunTail(f: Form, sc: Scan, a: Arg, env: Env, depth: nat)
    requires sc.want == AfterHead(f).want && sc.mode == AfterHead(f).mode && sc.done == []
    requires Reduce(sc.m, 1) == Machine([a], [], false, 0)
    ensures Finish(RunText(f.Tail(), sc, env, depth)) == ([Operand(f.Mode(), a)], 0)
  {
    hide Lex, RunText, Trace, Finish;
    assert ",x" + "" == ",x" && ",y" + "" == ",y" && ",x" + ")" == ",x)";
    var indexed := sc.(m := Machine([a], [], true, 0));
    match f
    case Direct =>
      RunNothing(sc, env, depth);
      FinishOne(sc, a);
    case Hash =>
      RunNothing(sc, env, depth);
      FinishOne(sc, a);
    case Indirect =>
      RunTailParen(false, sc, env, depth);
      FinishOne(sc, a);
    case IndirectY =>
      RunTailParen(true, sc, env, depth);
      FinishOne(sc.(mode := IndByteY), a);
    case IndexedX =>
      RunTailIndex(",x", ZeroX, "", sc, env, depth);
      RunNothing(indexed.(mode := ZeroX), env, depth);
      FinishOne(indexed.(mode := ZeroX), a);
    case IndexedY =>
      RunTailIndex(",y", ZeroY, "", sc, env, depth);
      RunNothing(indexed.(mode := ZeroY), env, depth);
      FinishOne(indexed.(mode := ZeroY), a);
    case IndirectX =>
      RunTailIndex(",x", IndByteX, ")", sc, env, depth);
      RunTailParen(false, indexed.(mode := IndByteX), env, depth);
      FinishOne(indexed.(mode := IndByteX), a);
  }

  lemma RunTailParen(y: bool, sc: Scan, env: Env, depth: nat)
    requires sc.want && (y ==> sc.mode == IndWord)
    ensures RunText(if y then "),y" else ")", sc, env, depth) == if y then sc.(mode := IndByteY) else sc
  {
    hide Lex;
    var t := if y then "),y" else ")";
    LexParen(y, sc);
    assert t + [] == t;
    RunMark(t, [], sc, env, depth, ParenClose(y));
    RunNothing(if y then sc.(mode := IndByteY) else sc, env, depth);
  }

  lemma RunTailIndex(t: string, mode: AddressModes.Mode, rest: string, sc: Scan, env: Env, depth: nat)
    requires rest == "" || rest == ")"
    requires (t == ",x" && mode == if sc.mode == IndWord then IndByteX else ZeroX) || (t == ",y" && mode == ZeroY)
    ensures RunText(t + rest, sc, env, depth)
         == RunText(rest, sc.(m := Reduce(sc.m, 1).(lastWasOp := true), mode := mode), env, depth)
  {
    hide Lex, Reduce;
    LexIndex(t, mode, rest, sc);
    RunMark(t, rest, sc, env, depth, Index(mode));
  }

  /** An operand is read in its addressing mode with the meaning of its expression. */
  lemma EvalComputesOperand(f: Form, e: Expr, env: Env, depth: nat)
    requires Readable(e, env, depth)
    ensures EvalText(FormText(f, e), true, env, depth)
         == ([Operand(f.Mode(), Meaning(e, Values(env, depth)))], 0)
  {
    hide Lex, Trace, Resolve, Reduce, Meaning, RunText, Finish, Text;
    RunHead(f, Text(e) + f.Tail(), env, depth);
    RunElement(e, f.Tail(), AfterHead(f), env, depth);
    RunTail(f, Ran(e, AfterHead(f), env, depth), Meaning(e, Values(env, depth)), env, depth);
  }
}
