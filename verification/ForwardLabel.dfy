/** A label used before it is set: the first pass finds that out, the second one assembles. */
module ForwardLabel {
  import opened Bytes
  import opened Operators
  import opened Lexer
  import opened Symbols
  import opened ExprText
  import opened ExprFits
  import opened EvalSafety
  import opened Pass
  import opened PassTheorems
  import opened PassLimits
  import opened PassLoop

  function DcSymbol(n: string): Line {
    Line("", Dc(1, [Sym(n)]))
  }

  lemma DcSymbolOk(n: string)
    requires NameShaped(n)
    ensures LineOk(DcSymbol(n))
  {
    SymOk(n);
    hide ExprOk;
    assert Exprs(DcSymbol(n).op) == [Sym(n)];
  }

  lemma DcActs(st: State, n: string, a: Arg)
    requires LineOk(DcSymbol(n)) && st.redo == 0 && !st.orgUnknown
    ensures var r := Act(st, DcSymbol(n), [a], CPU);
            && r.syms == st.syms && r.ifs == st.ifs && r.fault == st.fault && r.orgFill == st.orgFill
            && r.org == st.org + 1 && !r.orgUnknown && r.redo == CountIf(a.unknown)
            && r.out == if a.unknown then st.out else st.out + [Chunk(st.org, [Lo(a.value)], st.orgFill)]
  {
    assert [a][1..] == [];
    assert DataBytes([], 1, false) == [] && CountUnknown([]) == 0;
    assert DataBytes([a], 1, false) == [Lo(a.value)];
    assert CountUnknown([a]) == CountIf(a.unknown);
  }

  lemma DcSymbolStep(st: State, n: string)
    requires NameShaped(n) && n != [] && Ready(st) && st.redo == 0 && !st.orgUnknown
    ensures LineOk(DcSymbol(n))
    ensures var r := StepLine(st, DcSymbol(n), CPU);
            var a := Seen(st.syms, Key(n));
            && Ready(r) && r.orgFill == st.orgFill && r.org == st.org + 1 && !r.orgUnknown
                 && r.redo == CountIf(a.unknown)
            && r.out == (if a.unknown then st.out else st.out + [Chunk(st.org, [Lo(a.value)], st.orgFill)])
            && Seen(r.syms, Key(n)) == a && Find(r.syms, Key(n)).ref
  {
    hide ExprOk, Mangle, NoEqm, Evaluated, Args, LineOk, Act;
    var line := DcSymbol(n);
    DcSymbolOk(n);
    OperandWorth(st, line.op, Name(n));
    NoEqmKept(st, line, CPU);
    assert Evaluated(st, line.op).syms == Touch(st.syms, {Key(n)});
    DcActs(Evaluated(st, line.op), n, Seen(st.syms, Key(n)));
    SeenTouched(st.syms, {Key(n)}, Key(n));
  }

  lemma LabelSetStep(st: State, n: string)
    requires n != [] && NameOk(n) && Ready(st) && !st.orgUnknown
    ensures LineOk(LabelLine(n))
    ensures var r := StepLine(st, LabelLine(n), CPU);
            var sym := Find(st.syms, Key(n));
            && Ready(r) && r.orgFill == st.orgFill && r.out == st.out && Seen(r.syms, Key(n)) == Arg(st.org, false)
            && r.redo == st.redo + CountIf(if sym.unknown then sym.ref else sym.value != st.org)
  {
    hide Mangle, NameOk;
    var line := LabelLine(n);
    assert LineOk(line);
    NoEqmKept(st, line, CPU);
    assert ListEffect([], EnvOf(ProgramLabel(st, n)), 0) == NOTHING;
    TouchNothing(ProgramLabel(st, n).syms);
  }

  function ForwardProgram(c: char, x: string): seq<Line> {
    [OrgNumber(c), DcSymbol(x), LabelLine(x)]
  }

  /** What these three lines do in one pass. */
  lemma ForwardPass(st: State, c: char, x: string)
    requires '1' <= c <= '9' && NameShaped(x) && NameOk(x) && x != [] && Ready(st) && st.redo == 0 && st.out == []
    ensures ProgramOk(ForwardProgram(c, x))
    ensures var r := Run(st, ForwardProgram(c, x), CPU);
            var at := c as int - '0' as int;
            var was := Seen(st.syms, Key(x));
            && !r.fault && r.orgFill == st.orgFill && NoEqm(r.syms) && Seen(r.syms, Key(x)) == Arg(at + 1, false)
            && (was.unknown ==> r.redo == 2)
            && (was == Arg(at + 1, false) ==> r.redo == 0 && r.out == [Chunk(at, [Lo(at + 1)], st.orgFill)])
  {
    var (l1, l2, l3) := (OrgNumber(c), DcSymbol(x), LabelLine(x));
    hide ExprOk, Mangle, NumberValue, LineOk, StepLine, Run, OrgNumber, DcSymbol, LabelLine, NameOk, NameShaped, NoEqm,
      Find;
    OrgNumberStep(st, c);
    var s1 := StepLine(st, l1, CPU);
    DcSymbolStep(s1, x);
    var s2 := StepLine(s1, l2, CPU);
    LabelSetStep(s2, x);
    RunThree(st, l1, l2, l3);
  }

  /** A program that uses a label before it sets it is assembled, by the second pass, wherever two are
      allowed; and its byte then is the label's address. */
  lemma ForwardAssembles(c: char, x: string, maxPasses: nat, k: nat, verdict: Verdict)
    requires '1' <= c <= '9' && NameShaped(x) && NameOk(x) && x != [] && maxPasses >= 2
    requires ProgramOk(ForwardProgram(c, x))
    requires Ends(StartPass(map[], 0, DEFORGFILL), ForwardProgram(c, x), CPU, maxPasses, k, verdict)
    ensures verdict.Assembled? && k == 1
    ensures var at := c as int - '0' as int;
            EndOf(StartPass(map[], 0, DEFORGFILL), ForwardProgram(c, x), CPU, k).out
            == [Chunk(at, [at + 1], DEFORGFILL)]
  {
    hide ForwardProgram, Run, NextPass, Mangle, LineOk, NameShaped, NameOk, Agree;
    var (start, prog) := (StartPass(map[], 0, DEFORGFILL), ForwardProgram(c, x));
    ForwardPass(start, c, x);
    var first := EndOf(start, prog, CPU, 0);
    SeenLater(first);
    assert StartOf(start, prog, CPU, 1) == NextPass(first);
    ForwardPass(NextPass(first), c, x);
    assert EndOf(start, prog, CPU, 1).redo == 0;
    assert Ends(start, prog, CPU, maxPasses, 1, Assembled);
    OneEnd(start, prog, CPU, maxPasses, k, verdict, 1, Assembled);
  }
}
