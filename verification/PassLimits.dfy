/** Why the fixpoint theorem has its conditions: short programs that the assembler accepts although
    another pass would assemble them differently. */
module PassLimits {
  import opened Bytes
  import opened Operators
  import opened Lexer
  import opened Symbols
  import opened ExprMachine
  import opened ExprTree
  import opened ExprText
  import opened ExprTheorems
  import opened EvalSafety
  import opened ExprFits
  import opened Pass
  import opened PassTheorems
  import opened PassFixpoint
  import opened OutputImage
  import opened OutputWriter

  function Num(ds: string): Expr {
    Atom(Decimal(ds))
  }

  function Sym(n: string): Expr {
    Atom(Name(n))
  }

  lemma NumOk(ds: string)
    requires ds != [] && AllDigits(ds, Radix10) && ds[0] != '0'
    ensures ExprOk(Num(ds))
  {
  }

  lemma SymOk(n: string)
    requires NameShaped(n)
    ensures ExprOk(Sym(n))
  {
  }

  lemma SingleAtom(leaf: Leaf, env: Env, v: Valuation)
    ensures Meanings([Atom(leaf)], v) == [v(leaf)]
    ensures ListEffect([Atom(leaf)], env, 0) == LeafEffect(leaf, env, 0)
  {
    hide LeafEffect;
    var es := [Atom(leaf)];
    assert es[1..] == [];
    assert ListEffect([], env, 0) == NOTHING;
    assert ExprEffect(Atom(leaf), env, 0) == LeafEffect(leaf, env, 0);
  }

  /** What the single operand of a line is worth, and what looking it up does. */
  lemma OperandWorth(st: State, op: Op, leaf: Leaf)
    requires Exprs(op) == [Atom(leaf)] && LeafShaped(leaf) && NoEqm(st.syms)
    ensures Args(st, op) == [LeafArg(st, leaf)]
    ensures Evaluated(st, op).(redoEval := st.redoEval)
         == st.(syms := if leaf.Name? then Touch(st.syms, {Key(leaf.name)}) else st.syms)
  {
    hide Resolve, LeafArg, NumberValue, Mangle, LeafEffect, ListEffect, Meanings, Touch, LeafShaped, ValuesOf, NoEqm,
      Exprs;
    LeafValue(st, leaf);
    SingleAtom(leaf, EnvOf(st), ValuesOf(st));
    TouchNothing(st.syms);
    if !leaf.Name? {
      ConstantLeafKeys(leaf, EnvOf(st));
    }
  }

  const CPU := Processor(false)

  /** The one-digit constants used below. */
  lemma Digit(c: char)
    requires '1' <= c <= '9'
    ensures NumberValue([c], Radix10) == c as int - '0' as int
  {
    assert [c][..0] == [];
  }

  lemma Keys()
    ensures Key("x") == "x" && Key("p") == "p"
  {
  }

  /** A symbol's value and whether it is known. */
  function Seen(t: Table, k: string): Arg {
    Arg(Find(t, k).value, Find(t, k).unknown)
  }

  /** Ready for a line that is assembled. */
  ghost predicate Ready(st: State) {
    !st.fault && st.ifs == [] && NoEqm(st.syms)
  }

  lemma SeenTouched(t: Table, keys: set<string>, k: string)
    ensures Seen(Touch(t, keys), k) == Seen(t, k)
  {
  }

  /** Setting a symbol to the value of a number or symbol. */
  lemma EquStep(st: State, name: string, leaf: Leaf)
    requires name != [] && NameOk(name) && LeafShaped(leaf) && ExprOk(Atom(leaf)) && Ready(st)
    ensures LineOk(Line(name, Equ(Atom(leaf))))
    ensures var r := StepLine(st, Line(name, Equ(Atom(leaf))), CPU);
            var (was, now) := (Seen(st.syms, Key(name)), LeafArg(st, leaf));
            && Ready(r) && r.orgFill == st.orgFill && r.out == st.out
            && r.redo == st.redo + CountIf(!was.unknown && (now.unknown || now.value != was.value))
            && Seen(r.syms, Key(name)) == now && !Find(r.syms, Key(name)).ref
            && r.org == st.org && r.orgUnknown == st.orgUnknown
            && forall k :: k != Key(name) ==> Seen(r.syms, k) == Seen(st.syms, k)
  {
    hide ExprOk, LeafShaped, Mangle, LeafArg, Touch, NoEqm, Evaluated, Args, LineOk;
    var line := Line(name, Equ(Atom(leaf)));
    assert LineOk(line) by { EquOk(name, leaf); }
    OperandWorth(st, line.op, leaf);
    NoEqmKept(st, line, CPU);
    EquateActs(Evaluated(st, line.op), line, Args(st, line.op), CPU);
    if leaf.Name? {
      ShapedName(leaf);
    }
    var keys := if leaf.Name? then {Key(leaf.name)} else {};
    TouchNothing(st.syms);
    assert Evaluated(st, line.op).syms == Touch(st.syms, keys);
    forall k ensures Seen(Touch(st.syms, keys), k) == Seen(st.syms, k) {
      SeenTouched(st.syms, keys, k);
    }
  }

  lemma ShapedName(leaf: Leaf)
    requires LeafShaped(leaf) && leaf.Name?
    ensures leaf.name != []
  {
  }

  lemma EquOk(name: string, leaf: Leaf)
    requires name != [] && NameOk(name) && ExprOk(Atom(leaf))
    ensures LineOk(Line(name, Equ(Atom(leaf))))
  {
    hide ExprOk;
    assert Exprs(Equ(Atom(leaf))) == [Atom(leaf)];
  }

  function EquNumber(name: string, c: char): Line {
    Line(name, Equ(Num([c])))
  }

  function EquSymbol(name: string, n: string): Line {
    Line(name, Equ(Sym(n)))
  }

  /** What EquStep says, without the line. */
  ghost predicate Equates(st: State, r: State, key: string, now: Arg) {
    var was := Seen(st.syms, key);
    && Ready(r) && r.orgFill == st.orgFill && r.out == st.out
    && r.redo == st.redo + CountIf(!was.unknown && (now.unknown || now.value != was.value))
    && Seen(r.syms, key) == now && !Find(r.syms, key).ref
    && r.org == st.org && r.orgUnknown == st.orgUnknown
    && forall k :: k != key ==> Seen(r.syms, k) == Seen(st.syms, k)
  }

  lemma NumberStep(st: State, name: string, c: char)
    requires name != [] && NameOk(name) && '1' <= c <= '9' && Ready(st)
    ensures LineOk(EquNumber(name, c))
    ensures Equates(st, StepLine(st, EquNumber(name, c), CPU), Key(name), Arg(c as int - '0' as int, false))
  {
    hide ExprOk, Mangle, LineOk, StepLine, NumberValue;
    NumOk([c]);
    Digit(c);
    EquStep(st, name, Decimal([c]));
  }

  lemma SymbolStep(st: State, name: string, n: string)
    requires name != [] && NameOk(name) && NameShaped(n) && Ready(st)
    ensures n != [] && LineOk(EquSymbol(name, n))
    ensures Equates(st, StepLine(st, EquSymbol(name, n), CPU), Key(name), Seen(st.syms, Key(n)))
  {
    hide ExprOk, Mangle, LineOk, StepLine, NumberValue;
    SymOk(n);
    EquStep(st, name, Name(n));
  }

  /** A symbol equated first to an unknown value and then to a different one: the first pass ends
      content, the second does not. Hence the condition EquatesSettle. */
  lemma EquatedTwice(x: string, p: string)
    requires NameOk(x) && NameOk(p) && NameShaped(x) && NameShaped(p) && x != [] && p != [] && Key(x) != Key(p)
    ensures var prog := [EquSymbol(x, p), EquNumber(x, '3'), EquNumber(p, '7')];
            && ProgramOk(prog) && Separate(prog, {})
            && var first := Run(StartPass(map[], 0, DEFORGFILL), prog, CPU);
               first.redo == 0 && Run(NextPass(first), prog, CPU).redo > 0
  {
    var (l1, l2, l3) := (EquSymbol(x, p), EquNumber(x, '3'), EquNumber(p, '7'));
    EquatesSeparate(l1, l2, l3);
    var s0 := StartPass(map[], 0, DEFORGFILL);
    hide ExprOk, Mangle, NumberValue, LineOk, StepLine, NextPass, Run, Separate, Ready, EquNumber, EquSymbol,
      NameShaped, NameOk;
    SymbolStep(s0, x, p);
    var s1 := StepLine(s0, l1, CPU);
    NumberStep(s1, x, '3');
    var s2 := StepLine(s1, l2, CPU);
    NumberStep(s2, p, '7');
    var s3 := StepLine(s2, l3, CPU);
    RunThree(s0, l1, l2, l3);
    SeenLater(s3);
    var t0 := NextPass(s3);
    SymbolStep(t0, x, p);
    RunThree(t0, l1, l2, l3);
    var t1 := StepLine(t0, l1, CPU);
    StepGrows(t1, l2, CPU);
    StepGrows(StepLine(t1, l2, CPU), l3, CPU);
  }

  lemma EquatesSeparate(l1: Line, l2: Line, l3: Line)
    requires l1.op.Equ? && l2.op.Equ? && l3.op.Equ?
    ensures Separate([l1, l2, l3], {})
  {
    hide Mangle;
  }

  lemma RunThree(st: State, l1: Line, l2: Line, l3: Line)
    requires LineOk(l1) && LineOk(l2) && LineOk(l3)
    ensures ProgramOk([l1, l2, l3])
    ensures Run(st, [l1, l2, l3], CPU) == StepLine(StepLine(StepLine(st, l1, CPU), l2, CPU), l3, CPU)
  {
    hide LineOk, StepLine;
    var prog := [l1, l2, l3];
    assert prog[1..] == [l2, l3] && [l2, l3][1..] == [l3] && [l3][1..] == [];
    var s1 := StepLine(st, l1, CPU);
    var s2 := StepLine(s1, l2, CPU);
    assert Run(s2, [l3], CPU) == StepLine(s2, l3, CPU);
    assert Run(s1, [l2, l3], CPU) == Run(s2, [l3], CPU);
  }

  lemma SeenLater(st: State)
    requires NoEqm(st.syms)
    ensures Ready(NextPass(st)) && NextPass(st).redo == 0 && NextPass(st).out == []
        && NextPass(st).orgFill == st.orgFill
    ensures forall k :: Seen(NextPass(st).syms, k) == Seen(st.syms, k)
  {
  }

  function OrgTo(e: Expr): Line {
    Line("", Org(e, None))
  }

  function OrgNumber(c: char): Line {
    OrgTo(Num([c]))
  }

  function OrgSymbol(n: string): Line {
    OrgTo(Sym(n))
  }

  function DcByte(c: char): Line {
    Line("", Dc(1, [Num([c])]))
  }

  lemma OrgStep(st: State, leaf: Leaf)
    requires LeafShaped(leaf) && ExprOk(Atom(leaf)) && Ready(st)
    ensures LineOk(OrgTo(Atom(leaf)))
    ensures var r := StepLine(st, OrgTo(Atom(leaf)), CPU);
            && Ready(r) && r.redo == st.redo && r.out == st.out && r.fisclear == st.fisclear && r.orgFill == st.orgFill
            && Arg(r.org, r.orgUnknown) == LeafArg(st, leaf)
            && forall k :: Seen(r.syms, k) == Seen(st.syms, k)
  {
    hide ExprOk, LeafShaped, Mangle, LeafArg, Touch, NoEqm, Evaluated, Args, LineOk;
    var line := OrgTo(Atom(leaf));
    assert LineOk(line) by { OrgOk(leaf); }
    OperandWorth(st, line.op, leaf);
    NoEqmKept(st, line, CPU);
    OrgActs(Evaluated(st, line.op), line, Args(st, line.op), CPU);
    if leaf.Name? {
      ShapedName(leaf);
    }
    var keys := if leaf.Name? then {Key(leaf.name)} else {};
    TouchNothing(st.syms);
    assert Evaluated(st, line.op).syms == Touch(st.syms, keys);
    forall k ensures Seen(Touch(st.syms, keys), k) == Seen(st.syms, k) {
      SeenTouched(st.syms, keys, k);
    }
  }

  /** What OrgStep says, without the line. */
  ghost predicate Moves(st: State, r: State, to: Arg) {
    && Ready(r) && r.redo == st.redo && r.out == st.out && r.fisclear == st.fisclear && r.orgFill == st.orgFill
    && Arg(r.org, r.orgUnknown) == to
    && forall k :: Seen(r.syms, k) == Seen(st.syms, k)
  }

  lemma OrgNumberStep(st: State, c: char)
    requires '1' <= c <= '9' && Ready(st)
    ensures LineOk(OrgNumber(c))
    ensures Moves(st, StepLine(st, OrgNumber(c), CPU), Arg(c as int - '0' as int, false))
  {
    hide ExprOk, Mangle, LineOk, StepLine, NumberValue;
    NumOk([c]);
    Digit(c);
    OrgStep(st, Decimal([c]));
  }

  lemma OrgSymbolStep(st: State, n: string)
    requires NameShaped(n) && Ready(st) && n != []
    ensures LineOk(OrgSymbol(n))
    ensures Moves(st, StepLine(st, OrgSymbol(n), CPU), Seen(st.syms, Key(n)))
  {
    hide ExprOk, Mangle, LineOk, StepLine, NumberValue;
    SymOk(n);
    OrgStep(st, Name(n));
  }

  lemma OrgOk(leaf: Leaf)
    requires ExprOk(Atom(leaf))
    ensures LineOk(OrgTo(Atom(leaf)))
  {
    hide ExprOk;
    assert Exprs(Org(Atom(leaf), None)) == [Atom(leaf)];
  }

  lemma ByteStep(st: State, c: char)
    requires '1' <= c <= '9' && Ready(st) && st.redo == 0 && !(st.fisclear && st.orgUnknown)
    ensures LineOk(DcByte(c))
    ensures var r := StepLine(st, DcByte(c), CPU);
            && Ready(r) && r.redo == 0 && !r.fisclear && r.orgFill == st.orgFill
            && r.out == st.out + [Chunk(st.org, [c as int - '0' as int], st.orgFill)]
            && forall k :: Seen(r.syms, k) == Seen(st.syms, k)
  {
    hide ExprOk, Mangle, Touch, NoEqm, Evaluated, Args, NumberValue, LineOk;
    NumOk([c]);
    Digit(c);
    var args := [Arg(c as int - '0' as int, false)];
    var line := DcByte(c);
    assert LineOk(line) by { ByteOk(c); }
    OperandWorth(st, line.op, Decimal([c]));
    NoEqmKept(st, line, CPU);
    assert args[1..] == [];
    assert DataBytes(args[1..], 1, false) == [];
    assert CountUnknown(args) == 0;
    assert DataBytes(args, 1, false) == [c as int - '0' as int];
    assert StepLine(st, line, CPU) == Data(Evaluated(st, line.op), args, 1, CPU) by {
      ByteActs(Evaluated(st, line.op), c, args);
    }
  }

  lemma ByteOk(c: char)
    requires '1' <= c <= '9'
    ensures LineOk(DcByte(c))
  {
    NumOk([c]);
    hide ExprOk;
    assert Exprs(DcByte(c).op) == [Num([c])];
  }

  lemma ByteActs(st: State, c: char, args: seq<Arg>)
    requires |args| == 1 && LineOk(DcByte(c))
    ensures Act(st, DcByte(c), args, CPU) == Data(st, args, 1, CPU)
  {
  }

  lemma RunFive(st: State, l1: Line, l2: Line, l3: Line, l4: Line, l5: Line)
    requires LineOk(l1) && LineOk(l2) && LineOk(l3) && LineOk(l4) && LineOk(l5)
    ensures ProgramOk([l1, l2, l3, l4, l5])
    ensures Run(st, [l1, l2, l3, l4, l5], CPU)
         == StepLine(StepLine(StepLine(StepLine(StepLine(st, l1, CPU), l2, CPU), l3, CPU), l4, CPU), l5, CPU)
  {
    hide LineOk, StepLine;
    var prog := [l1, l2, l3, l4, l5];
    assert prog[1..] == [l2, l3, l4, l5] && [l2, l3, l4, l5][1..] == [l3, l4, l5];
    RunThree(StepLine(StepLine(st, l1, CPU), l2, CPU), l3, l4, l5);
    assert Run(StepLine(st, l1, CPU), prog[1..], CPU)
        == Run(StepLine(StepLine(st, l1, CPU), l2, CPU), [l3, l4, l5], CPU);
  }

  /** What the five lines below do in one pass. */
  lemma OrgPass(st: State, x: string)
    requires x != [] && NameOk(x) && NameShaped(x) && Ready(st) && st.redo == 0 && st.out == []
    requires Seen(st.syms, Key(x)) == ZERO.(unknown := true) || Seen(st.syms, Key(x)) == Arg(5, false)
    ensures var prog := [OrgNumber('1'), DcByte('1'), OrgSymbol(x), DcByte('2'), EquNumber(x, '5')];
            && ProgramOk(prog)
            && var r := Run(st, prog, CPU);
               && r.redo == 0 && |r.out| == 2 && r.out[1].addr == Seen(st.syms, Key(x)).value
               && NoEqm(r.syms) && Seen(r.syms, Key(x)) == Arg(5, false)
  {
    var (l1, l2, l3, l4, l5) := (OrgNumber('1'), DcByte('1'), OrgSymbol(x), DcByte('2'), EquNumber(x, '5'));
    hide ExprOk, Mangle, NumberValue, LineOk, StepLine, Run, EquNumber, DcByte, OrgNumber, OrgSymbol, NameOk,
      NameShaped, NoEqm, Find;
    OrgNumberStep(st, '1');
    var s1 := StepLine(st, l1, CPU);
    ByteStep(s1, '1');
    var s2 := StepLine(s1, l2, CPU);
    OrgSymbolStep(s2, x);
    var s3 := StepLine(s2, l3, CPU);
    ByteStep(s3, '2');
    var s4 := StepLine(s3, l4, CPU);
    NumberStep(s4, x, '5');
    RunFive(st, l1, l2, l3, l4, l5);
  }

  /** An origin taken from a symbol that is defined further down: the first pass ends content with
      bytes at an address the next one does not use. Hence the condition OrgsResolved. */
  lemma UnresolvedOrg(x: string)
    requires x != [] && NameOk(x) && NameShaped(x)
    ensures var prog := [OrgNumber('1'), DcByte('1'), OrgSymbol(x), DcByte('2'), EquNumber(x, '5')];
            && ProgramOk(prog)
            && var first := Run(StartPass(map[], 0, DEFORGFILL), prog, CPU);
               var second := Run(NextPass(first), prog, CPU);
               first.redo == 0 && second.redo == 0 && !SameOutput(first.out, second.out)
  {
    hide Mangle, LineOk, Run, OrgTo, EquNumber, DcByte, NameOk, NameShaped, NextPass;
    OrgPass(StartPass(map[], 0, DEFORGFILL), x);
    var prog := [OrgNumber('1'), DcByte('1'), OrgSymbol(x), DcByte('2'), EquNumber(x, '5')];
    var first := Run(StartPass(map[], 0, DEFORGFILL), prog, CPU);
    SeenLater(first);
    OrgPass(NextPass(first), x);
  }

  // ---------------------------------------------------------------------------
  // A name that is label and equate

  function IfSymbol(n: string): Line {
    Line("", If(Sym(n)))
  }

  const ENDIF_LINE := Line("", Endif)

  function LabelLine(n: string): Line {
    Line(n, Label)
  }

  lemma IfStep(st: State, n: string)
    requires NameShaped(n) && n != [] && Ready(st)
    requires !Seen(st.syms, Key(n)).unknown && Seen(st.syms, Key(n)).value != 0
    ensures LineOk(IfSymbol(n))
    ensures var r := StepLine(st, IfSymbol(n), CPU);
            && r.ifs == [IfFrame(true, true)] && r.redo == st.redo && r.org == st.org && r.orgUnknown == st.orgUnknown
            && NoEqm(r.syms) && !r.fault && forall k :: Seen(r.syms, k) == Seen(st.syms, k)
  {
    hide ExprOk, Mangle, Touch, NoEqm, Evaluated, Args, LineOk;
    var line := IfSymbol(n);
    SymOk(n);
    assert LineOk(line) by { IfOk(n); }
    OperandWorth(st, line.op, Name(n));
    NoEqmKept(st, line, CPU);
    IfActs(Evaluated(st, line.op), line, Args(st, line.op));
    var keys := {Key(n)};
    assert Evaluated(st, line.op).syms == Touch(st.syms, keys);
    forall k ensures Seen(Touch(st.syms, keys), k) == Seen(st.syms, k) {
      SeenTouched(st.syms, keys, k);
    }
  }

  lemma IfOk(n: string)
    requires ExprOk(Sym(n))
    ensures LineOk(IfSymbol(n))
  {
    hide ExprOk;
    assert Exprs(IfSymbol(n).op) == [Sym(n)];
  }

  lemma IfActs(st: State, line: Line, args: seq<Arg>)
    requires LineOk(line) && line.op.If? && |args| == |Exprs(line.op)|
    ensures args != [] && Act(st, line, args, CPU) == Condition(st, args[0])
  {
  }

  lemma EndifStep(st: State)
    requires !st.fault && st.ifs == [IfFrame(true, true)]
    ensures LineOk(ENDIF_LINE) && StepLine(st, ENDIF_LINE, CPU) == st.(ifs := [])
  {
  }

  /** A label at an unknown origin takes a symbol over that has not been referenced since it was
      equated, and asks for no other pass. */
  lemma LabelStep(st: State, n: string)
    requires n != [] && NameOk(n) && Ready(st) && st.orgUnknown
    requires !Find(st.syms, Key(n)).unknown && !Find(st.syms, Key(n)).ref
    ensures LineOk(LabelLine(n))
    ensures var r := StepLine(st, LabelLine(n), CPU);
            r.redo == st.redo && Seen(r.syms, Key(n)) == Arg(st.org, true) && NoEqm(r.syms)
  {
    hide Mangle, NameOk;
    TouchNothing(st.syms);
    var line := LabelLine(n);
    assert LineOk(line);
    NoEqmKept(st, line, CPU);
    assert ListEffect([], EnvOf(ProgramLabel(st, n)), 0) == NOTHING;
    TouchNothing(ProgramLabel(st, n).syms);
  }

  lemma RunFour(st: State, l1: Line, l2: Line, l3: Line, l4: Line)
    requires LineOk(l1) && LineOk(l2) && LineOk(l3) && LineOk(l4)
    ensures ProgramOk([l1, l2, l3, l4])
    ensures Run(st, [l1, l2, l3, l4], CPU)
         == StepLine(StepLine(StepLine(StepLine(st, l1, CPU), l2, CPU), l3, CPU), l4, CPU)
  {
    hide LineOk, StepLine;
    var prog := [l1, l2, l3, l4];
    assert prog[1..] == [l2, l3, l4];
    RunThree(StepLine(st, l1, CPU), l2, l3, l4);
  }

  /** A symbol that is equated and also set as a label: the pass asks for no other, yet the condition it
      assembled by does not hold of the table it ends with. The table holds x at the start only if a
      -Dx=5 option put it there (parse_define of src/main.c): no pass over this program leaves it so.
      Hence the condition Apart. */
  lemma LabelAndEquate(x: string, org: int)
    requires x != [] && NameOk(x) && NameShaped(x)
    ensures var prog := [IfSymbol(x), ENDIF_LINE, EquNumber(x, '5'), LabelLine(x)];
            && ProgramOk(prog)
            && var start := StartPass(map[Key(x) := Symbol(5, false, false, None)], org, DEFORGFILL);
               var end := Run(start, prog, CPU);
               end.redo == 0 && !PassConsistent(start, prog, CPU, end.syms)
  {
    var prog := [IfSymbol(x), ENDIF_LINE, EquNumber(x, '5'), LabelLine(x)];
    var start := StartPass(map[Key(x) := Symbol(5, false, false, None)], org, DEFORGFILL);
    hide ExprOk, Mangle, NumberValue, LineOk, StepLine, Run, EquNumber, IfSymbol, ENDIF_LINE, LabelLine, NameOk,
      NameShaped, NoEqm, LineConsistent;
    IfStep(start, x);
    var s1 := StepLine(start, IfSymbol(x), CPU);
    EndifStep(s1);
    var s2 := StepLine(s1, ENDIF_LINE, CPU);
    NumberStep(s2, x, '5');
    var s3 := StepLine(s2, EquNumber(x, '5'), CPU);
    LabelStep(s3, x);
    RunFour(start, IfSymbol(x), ENDIF_LINE, EquNumber(x, '5'), LabelLine(x));
    var end := Run(start, prog, CPU);
    IfNotConsistent(start, x, end.syms);
    assert prog[0] == IfSymbol(x);
  }

  lemma IfNotConsistent(st: State, n: string, final: Table)
    requires n != [] && NameShaped(n) && Ready(st) && NoEqm(final) && LineOk(IfSymbol(n))
    requires Seen(st.syms, Key(n)) != Seen(final, Key(n))
    ensures !LineConsistent(st, IfSymbol(n), CPU, final)
  {
    hide Mangle, LineOk, NoEqm, ValuesOf;
    var e := Sym(n);
    assert e in Exprs(IfSymbol(n).op) by { assert Exprs(IfSymbol(n).op)[0] == e; }
    assert Before(st, IfSymbol(n)) == st;
    LeafValue(st, Name(n));
    LeafValue(st.(syms := final), Name(n));
    assert Meaning(e, ValuesOf(st)) == Seen(st.syms, Key(n));
    assert Meaning(e, ValuesOf(st.(syms := final))) == Seen(final, Key(n));
  }

  // ---------------------------------------------------------------------------
  // Fillers

  function OrgFilling(c: char, fill: char): Line {
    Line("", Org(Num([c]), Some(Num([fill]))))
  }

  lemma TwoNumbers(c: char, d: char, v: Valuation)
    ensures Meanings([Num([c]), Num([d])], v) == [v(Decimal([c])), v(Decimal([d]))]
  {
    hide Meaning, Meanings;
    LeafMeaning(Decimal([c]), v);
    LeafMeaning(Decimal([d]), v);
    var r := Meanings([Num([c]), Num([d])], v);
    assert |r| == 2 && r[0] == v(Decimal([c])) && r[1] == v(Decimal([d]));
  }

  lemma LeafMeaning(leaf: Leaf, v: Valuation)
    ensures Meaning(Atom(leaf), v) == v(leaf)
  {
  }

  lemma OrgFillOk(c: char, d: char)
    requires '1' <= c <= '9' && '1' <= d <= '9'
    ensures LineOk(OrgFilling(c, d)) && Exprs(OrgFilling(c, d).op) == [Num([c]), Num([d])]
  {
    NumOk([c]);
    NumOk([d]);
    hide ExprOk;
    var es := [Num([c]), Num([d])];
    assert Exprs(OrgFilling(c, d).op) == es && es[1..] == [Num([d])];
    assert ListText(es[1..]) == [d];
  }

  lemma OrgFillStep(st: State, c: char, d: char)
    requires '1' <= c <= '9' && '1' <= d <= '9' && Ready(st)
    ensures LineOk(OrgFilling(c, d))
    ensures var r := StepLine(st, OrgFilling(c, d), CPU);
            && r.redo == st.redo && r.out == st.out && r.orgFill == Lo(d as int - '0' as int) && NoEqm(r.syms)
  {
    hide ExprOk, LeafArg, Touch, NoEqm, LineOk, NumberValue, ListEffect, Meanings, ValuesOf;
    var line := OrgFilling(c, d);
    OrgFillOk(c, d);
    Digit(c);
    Digit(d);
    TwoNumbers(c, d, ValuesOf(st));
    NumberWorth(st, c);
    NumberWorth(st, d);
    NoEqmKept(st, line, CPU);
    OrgActs(Evaluated(st, line.op), line, Args(st, line.op), CPU);
    TouchNothing(st.syms);
  }

  lemma NumberWorth(st: State, c: char)
    requires '1' <= c <= '9' && NoEqm(st.syms)
    ensures ValuesOf(st)(Decimal([c])) == Arg(c as int - '0' as int, false)
  {
    Digit(c);
    hide NumberValue;
    LeafValue(st, Decimal([c]));
  }

  function GapProgram(): seq<Line> {
    [OrgNumber('1'), DcByte('1'), OrgNumber('5'), DcByte('2'), OrgFilling('9', '7')]
  }

  /** What these five lines do in one pass. */
  lemma GapPass(st: State)
    requires Ready(st) && st.redo == 0 && st.out == []
    ensures ProgramOk(GapProgram())
    ensures var r := Run(st, GapProgram(), CPU);
            && r.redo == 0 && r.orgFill == 7 && NoEqm(r.syms)
            && r.out == [Chunk(1, [1], st.orgFill), Chunk(5, [2], st.orgFill)]
  {
    var (l1, l2, l3, l4, l5) := (OrgNumber('1'), DcByte('1'), OrgNumber('5'), DcByte('2'), OrgFilling('9', '7'));
    hide ExprOk, Mangle, LineOk, StepLine, Run, DcByte, OrgNumber, OrgFilling, NoEqm, Find;
    OrgNumberStep(st, '1');
    var s1 := StepLine(st, l1, CPU);
    ByteStep(s1, '1');
    var s2 := StepLine(s1, l2, CPU);
    OrgNumberStep(s2, '5');
    var s3 := StepLine(s2, l3, CPU);
    ByteStep(s3, '2');
    var s4 := StepLine(s3, l4, CPU);
    OrgFillStep(s4, '9', '7');
    RunFive(st, l1, l2, l3, l4, l5);
  }

  lemma GapFile(fill: byte)
    ensures Finished(FormatRaw, [Chunk(1, [1], fill), Chunk(5, [2], fill)]) == [1, fill, fill, fill, 2]
  {
    var trace := [Chunk(1, [1], fill), Chunk(5, [2], fill)];
    var front := [trace[0]];
    assert OutputImage.Front(trace) == front;
    assert Body(front) == [1] && EndOf(front) == 2;
    assert Body(trace) == Body(front) + Repeat(fill, 3) + [2];
  }

  /** An ORG that sets the fill byte after a gap: two passes in a row end content with the same bytes at the
      same addresses, yet fill the gap differently, because the second begins with the byte the first one
      left. Hence the conditions on the fill byte. */
  lemma FillKept()
    ensures ProgramOk(GapProgram())
    ensures var first := Run(StartPass(map[], 0, DEFORGFILL), GapProgram(), CPU);
            var second := Run(NextPass(first), GapProgram(), CPU);
            && first.redo == 0 && second.redo == 0 && SameOutput(first.out, second.out)
            && Finished(FormatRaw, first.out) == [1, 255, 255, 255, 2]
            && Finished(FormatRaw, second.out) == [1, 7, 7, 7, 2]
  {
    hide GapProgram, Run, NextPass, Finished;
    var start := StartPass(map[], 0, DEFORGFILL);
    GapPass(start);
    var first := Run(start, GapProgram(), CPU);
    SeenLater(first);
    GapPass(NextPass(first));
    GapFile(255);
    GapFile(7);
  }
}
