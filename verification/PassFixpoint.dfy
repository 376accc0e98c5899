/** A pass that asks for no other pass is a fixpoint: the next pass would ask for none either and
    write the same bytes at the same addresses. */
module PassFixpoint {
  import opened Bytes
  import opened Operators
  import opened Lexer
  import AddressModes
  import opened Encoding
  import opened Symbols
  import opened ExprMachine
  import opened ExprTree
  import opened ExprText
  import opened ExprTheorems
  import opened EvalSafety
  import opened ExprFits
  import opened Pass
  import opened PassTheorems

  // ---------------------------------------------------------------------------
  // How the second pass follows the first

  /** The same bytes at the same addresses. */
  ghost predicate SameOutput(a: seq<Chunk>, b: seq<Chunk>) {
    && |a| == |b|
    && forall i :: 0 <= i < |a| ==> a[i].addr == b[i].addr && a[i].bytes == b[i].bytes
  }

  /** From this chunk on, the same fillers. */
  ghost predicate SameFills(a: seq<Chunk>, b: seq<Chunk>, since: nat) {
    forall i :: since <= i < |a| && i < |b| ==> a[i].fill == b[i].fill
  }

  /** Everything but the symbols agrees; and, where the fill bytes do, the fillers have agreed since some
      chunk. A stale origin, one flagged unknown, may differ, but then
      nothing has been written yet. */
  ghost predicate Alike(s1: State, s2: State, since: Option<nat>) {
    && s1.ifs == s2.ifs && s1.fault == s2.fault && s1.fisclear == s2.fisclear
    && s1.orgUnknown == s2.orgUnknown && (!s1.orgUnknown ==> s1.org == s2.org)
    && (!s1.fisclear ==> !s1.orgUnknown)
    && s1.redo == 0 && s2.redo == 0
    && SameOutput(s1.out, s2.out)
    && (since.Some? ==> s1.orgFill == s2.orgFill && SameFills(s1.out, s2.out, since.value))
  }

  /** A symbol now in the first pass (a), now in the second (b), and at the end of the first (z). */
  predicate Follows(a: Symbol, b: Symbol, z: Symbol, isLabel: bool, pending: bool) {
    && (!isLabel && !z.unknown ==> SameValue(b, z))
    && (isLabel && !b.unknown ==> SameValue(b, z))
    && (isLabel && b.unknown && !z.unknown ==> a.unknown)
    && (isLabel && b.ref ==> a.ref)
    && (!isLabel && pending ==> b.unknown == z.unknown)
  }

  ghost predicate Tracks(s1: State, s2: State, final: Table, labels: set<string>, pending: set<string>) {
    forall k :: Follows(Find(s1.syms, k), Find(s2.syms, k), Find(final, k), k in labels, k in pending)
  }

  // ---------------------------------------------------------------------------
  // Parts of a line

  lemma TracksLabel(s1: State, s2: State, name: string, final: Table, labels: set<string>, pending: set<string>,
      since: Option<nat>)
    requires Alike(s1, s2, since) && Tracks(s1, s2, final, labels, pending)
    requires name != [] ==> Key(name) in labels
    requires ProgramLabel(s1, name).redo == 0
    requires LabelFinal(Some(s1), name, final)
    ensures var (r1, r2) := (ProgramLabel(s1, name), ProgramLabel(s2, name));
            Alike(r1, r2, since) && Tracks(r1, r2, final, labels, pending)
  {
    hide Mangle;
    if name != [] {
      var k := Key(name);
      assert Follows(Find(s1.syms, k), Find(s2.syms, k), Find(final, k), true, k in pending);
      var (r1, r2) := (ProgramLabel(s1, name), ProgramLabel(s2, name));
      forall j ensures Follows(Find(r1.syms, j), Find(r2.syms, j), Find(final, j), j in labels, j in pending) {
        assert Follows(Find(s1.syms, j), Find(s2.syms, j), Find(final, j), j in labels, j in pending);
      }
    }
  }

  lemma TracksTouch(s1: State, s2: State, op: Op, final: Table, labels: set<string>, pending: set<string>,
      since: Option<nat>)
    requires Alike(s1, s2, since) && Tracks(s1, s2, final, labels, pending)
    requires ListEffect(Exprs(op), EnvOf(s1), 0).keys == ListEffect(Exprs(op), EnvOf(s2), 0).keys
    ensures var (r1, r2) := (Evaluated(s1, op), Evaluated(s2, op));
            Alike(r1, r2, since) && Tracks(r1, r2, final, labels, pending)
  {
    hide ListEffect;
    var (r1, r2) := (Evaluated(s1, op), Evaluated(s2, op));
    forall j ensures Follows(Find(r1.syms, j), Find(r2.syms, j), Find(final, j), j in labels, j in pending) {
      assert Follows(Find(s1.syms, j), Find(s2.syms, j), Find(final, j), j in labels, j in pending);
    }
  }

  lemma {:induction false} ExprKeysSame(e: Expr, s1: State, s2: State)
    requires Shaped(e) && NoEqm(s1.syms) && NoEqm(s2.syms)
    ensures ExprEffect(e, EnvOf(s1), 0).keys == ExprEffect(e, EnvOf(s2), 0).keys
  {
    hide LeafEffect, Mangle, NoEqm;
    match e
    case Atom(leaf) =>
      if leaf.Name? {
        LeafValue(s1, leaf);
        LeafValue(s2, leaf);
      } else {
        ConstantLeafKeys(leaf, EnvOf(s1));
        ConstantLeafKeys(leaf, EnvOf(s2));
      }
    case PrefixOp(_, e1) => ExprKeysSame(e1, s1, s2);
    case Bracket(e1) => ExprKeysSame(e1, s1, s2);
    case BinaryOp(_, _, l, r) =>
      ExprKeysSame(l, s1, s2);
      ExprKeysSame(r, s1, s2);
  }

  lemma ConstantLeafKeys(leaf: Leaf, env: Env)
    requires !leaf.Name?
    ensures LeafEffect(leaf, env, 0).keys == {}
  {
  }

  lemma {:induction false} ListKeysSame(es: seq<Expr>, s1: State, s2: State)
    requires (forall e :: e in es ==> Shaped(e)) && NoEqm(s1.syms) && NoEqm(s2.syms)
    ensures ListEffect(es, EnvOf(s1), 0).keys == ListEffect(es, EnvOf(s2), 0).keys
  {
    hide ExprEffect, Shaped, NoEqm;
    if es != [] {
      ExprKeysSame(es[0], s1, s2);
      ListKeysSame(es[1..], s1, s2);
    }
  }

  // ---------------------------------------------------------------------------
  // Output

  lemma AlikeGenerate(s1: State, s2: State, bytes: seq<byte>, since: Option<nat>)
    requires Alike(s1, s2, since) && Generate(s1, bytes).redo == 0
    ensures Alike(Generate(s1, bytes), Generate(s2, bytes), since)
  {
  }

  lemma {:induction false} AlikeGenFill(s1: State, s2: State, gen: seq<byte>, bytes: nat, since: Option<nat>)
    requires |gen| == GEN_SIZE
    requires Alike(s1, s2, since) && GenFill(s1, gen, bytes).redo == 0
    ensures Alike(GenFill(s1, gen, bytes), GenFill(s2, gen, bytes), since)
    decreases bytes
  {
    hide Generate;
    if bytes > GEN_SIZE {
      GenFillGrows(Generate(s1, gen), gen, bytes - GEN_SIZE);
      AlikeGenerate(s1, s2, gen, since);
      AlikeGenFill(Generate(s1, gen), Generate(s2, gen), gen, bytes - GEN_SIZE, since);
    } else {
      AlikeGenerate(s1, s2, gen[..bytes], since);
    }
  }

  lemma AlikeFill(s1: State, s2: State, fill: int, entries: nat, size: nat, msbFirst: bool, since: Option<nat>)
    requires Alike(s1, s2, since) && Fill(s1, fill, entries, size, msbFirst).redo == 0
    ensures Alike(Fill(s1, fill, entries, size, msbFirst), Fill(s2, fill, entries, size, msbFirst), since)
  {
    hide GenFill, Pattern;
    if entries != 0 {
      AlikeGenFill(s1, s2, Pattern(fill, size, msbFirst), entries * size, since);
    }
  }

  lemma AlikeCode(s1: State, s2: State, op: Op, operand: Operand, cpu: Processor, since: Option<nat>)
    requires (op.Instr? || op.Implied?) && WellFormed(op.mne)
    requires Alike(s1, s2, since) && CodeOperand(s1, op, operand, cpu).redo == 0
    ensures Alike(CodeOperand(s1, op, operand, cpu), CodeOperand(s2, op, operand, cpu), since)
  {
    hide Generate, ChooseMode, OperandBytes;
    CodeGrows(s1, op, operand, cpu);
    var code := Encode(op.mne, operand, op.forced, op.isForced, cpu.msbFirst, Arg(s1.org, s1.orgUnknown));
    assert code == Encode(op.mne, operand, op.forced, op.isForced, cpu.msbFirst, Arg(s2.org, s2.orgUnknown));
    if code.Coded? {
      GenerateGrows(Again(s1, operand.arg.unknown, MnemonicNotResolved), code.bytes);
      AlikeGenerate(s1, s2, code.bytes, since);
    }
  }

  lemma AlikeData(s1: State, s2: State, args: seq<Arg>, size: nat, cpu: Processor, since: Option<nat>)
    requires Alike(s1, s2, since) && Data(s1, args, size, cpu).redo == 0
    ensures Alike(Data(s1, args, size, cpu), Data(s2, args, size, cpu), since)
  {
    hide Generate, DataBytes, CountUnknown;
    GenerateGrows(AgainFor(s1, CountUnknown(args), DcNotResolved), DataBytes(args, size, cpu.msbFirst));
    AlikeGenerate(s1, s2, DataBytes(args, size, cpu.msbFirst), since);
  }

  lemma AlikeSpace(s1: State, s2: State, args: seq<Arg>, size: nat, cpu: Processor, since: Option<nat>)
    requires 1 <= |args| <= 2
    requires Alike(s1, s2, since) && Space(s1, args, size, cpu).redo == 0
    ensures Alike(Space(s1, args, size, cpu), Space(s2, args, size, cpu), since)
  {
    hide Fill;
    SpaceGrows(s1, args, size, cpu);
    if args[0].value >= 0 {
      AlikeFill(s1, s2, if |args| > 1 then args[1].value else 0, args[0].value, size, cpu.msbFirst, since);
    }
  }

  lemma AlikeAlign(s1: State, s2: State, args: seq<Arg>, cpu: Processor, since: Option<nat>)
    requires 1 <= |args| <= 2
    requires Alike(s1, s2, since) && AlignTo(s1, args, cpu).redo == 0
    ensures Alike(AlignTo(s1, args, cpu), AlignTo(s2, args, cpu), since)
  {
    hide Fill;
    AlignGrows(s1, args, cpu);
    var n := args[0].value;
    if n > 0 && s1.org % n != 0 {
      AlikeFill(s1, s2, if |args| > 1 then Lo(args[1].value) else 0, n - s1.org % n, 1, cpu.msbFirst, since);
    }
  }

  /** Given the same values of its operands, an operation does the same in both passes. */
  lemma AlikeAct(s1: State, s2: State, line: Line, args: seq<Arg>, cpu: Processor, since: Option<nat>)
    requires LineOk(line) && |args| == |Exprs(line.op)| && !line.op.Equ?
    requires line.op.Org? ==> forall i :: 0 <= i < |args| ==> !args[i].unknown
    requires Alike(s1, s2, since) && Act(s1, line, args, cpu).redo == 0
    ensures Alike(Act(s1, line, args, cpu), Act(s2, line, args, cpu), since)
  {
    hide CodeOperand, Data, Space, AlignTo, ExprOk, ListText, LooksIndexed, NameOk;
    match line.op
    case Instr(_, form, _, _, _) => AlikeCode(s1, s2, line.op, Operand(form.Mode(), args[0]), cpu, since);
    case Implied(_, _, _) => AlikeCode(s1, s2, line.op, Operand(AddressModes.Imp, ZERO), cpu, since);
    case Dc(size, _) => AlikeData(s1, s2, args, size, cpu, since);
    case Ds(size, _, _) => AlikeSpace(s1, s2, args, size, cpu, since);
    case Align(_, _) => AlikeAlign(s1, s2, args, cpu, since);
    case _ =>
  }

  // ---------------------------------------------------------------------------
  // Operands

  /** What the first pass knew about an operand the second pass knows as well. */
  lemma OperandsFollow(s1: State, s2: State, line: Line, rest: seq<Line>, cpu: Processor, labels: set<string>,
      pending: set<string>, since: Option<nat>, e: Expr)
    requires LineOk(line) && ProgramOk(rest) && ApartFrom(s1, line, rest, cpu, labels)
    requires Executes(s1, line) && Rest(s1, line, rest, cpu).redo == 0
    requires NoEqm(s1.syms) && NoEqm(s2.syms) && e in Exprs(line.op)
    requires Alike(Before(s1, line), Before(s2, line), since)
    requires Tracks(Before(s1, line), Before(s2, line), Rest(s1, line, rest, cpu).syms, labels, pending)
    ensures Refines(Meaning(e, ValuesOf(Before(s1, line))), Meaning(e, ValuesOf(Before(s2, line))))
  {
    hide Act, ProgramLabel, LineOk, Evaluated, Mangle, Args, Separate, Run, Before, StepLine, ValuesOf, NumberValue,
      LeafShaped, Shaped, Rest, Meaning, NoEqm, ExprOk;
    var (t1, t2) := (Before(s1, line), Before(s2, line));
    var final := Rest(s1, line, rest, cpu).syms;
    NoEqmKept(s1, line, cpu);
    NoEqmKept(s2, line, cpu);
    OkShaped(line, e);
    OkMeansShaped(e);
    forall leaf | leaf in Leaves(e) ensures Refines(ValuesOf(t1)(leaf), ValuesOf(t2)(leaf)) {
      LeavesShaped(e, leaf);
      LeafValue(t1, leaf);
      LeafValue(t2, leaf);
      if leaf.Name? && !LeafArg(t1, leaf).unknown {
        var k := Key(leaf.name);
        OperandTouched(t1, line.op, e, leaf);
        EvaluatedKeeps(s1, line, rest, cpu, k, labels, false);
        assert Follows(Find(t1.syms, k), Find(t2.syms, k), Find(final, k), k in labels, k in pending);
      }
    }
    MeaningMonotone(e, ValuesOf(t1), ValuesOf(t2));
  }

  lemma OkMeansShaped(e: Expr)
    requires ExprOk(e)
    ensures Shaped(e)
  {
  }

  lemma ArgsFollow(s1: State, s2: State, line: Line, rest: seq<Line>, cpu: Processor, labels: set<string>,
      pending: set<string>, since: Option<nat>)
    requires LineOk(line) && ProgramOk(rest) && ApartFrom(s1, line, rest, cpu, labels)
    requires Executes(s1, line) && Rest(s1, line, rest, cpu).redo == 0
    requires NoEqm(s1.syms) && NoEqm(s2.syms)
    requires Alike(Before(s1, line), Before(s2, line), since)
    requires Tracks(Before(s1, line), Before(s2, line), Rest(s1, line, rest, cpu).syms, labels, pending)
    ensures var (a1, a2) := (Args(Before(s1, line), line.op), Args(Before(s2, line), line.op));
            forall i :: 0 <= i < |a1| ==> Refines(a1[i], a2[i])
  {
    hide LineOk, Before, Separate, Rest, ValuesOf, Meaning, Tracks, Alike, NoEqm;
    var (a1, a2) := (Args(Before(s1, line), line.op), Args(Before(s2, line), line.op));
    forall i | 0 <= i < |a1| ensures Refines(a1[i], a2[i]) {
      OperandsFollow(s1, s2, line, rest, cpu, labels, pending, since, Exprs(line.op)[i]);
    }
  }

  // ---------------------------------------------------------------------------
  // Equates

  /** The symbol this line equates in this pass, if any. */
  function EquatedHere(st: State, line: Line): set<string> {
    if Executes(st, line) && line.op.Equ? && line.name != [] then {Key(line.name)} else {}
  }

  /** The symbols equated in this pass. */
  function Equated(st: State, prog: seq<Line>, cpu: Processor): set<string>
    requires ProgramOk(prog)
    decreases |prog|
  {
    if prog == [] then {} else EquatedHere(st, prog[0]) + Equated(StepLine(st, prog[0], cpu), prog[1..], cpu)
  }

  /** A line that equates a symbol to an unknown value is the last to equate it in this pass. */
  ghost predicate EquateSettles(st: State, line: Line, rest: seq<Line>, cpu: Processor)
    requires LineOk(line) && ProgramOk(rest)
  {
    Executes(st, line) && line.op.Equ? && Args(st, line.op)[0].unknown ==>
      EquatedHere(st, line) !! Equated(StepLine(st, line, cpu), rest, cpu)
  }

  ghost predicate EquatesSettle(st: State, prog: seq<Line>, cpu: Processor)
    requires ProgramOk(prog)
    decreases |prog|
  {
    prog != [] ==>
      && EquateSettles(st, prog[0], prog[1..], cpu)
      && EquatesSettle(StepLine(st, prog[0], cpu), prog[1..], cpu)
  }

  /** Nothing in this program gives this symbol a value. */
  lemma LineLeaves(st: State, line: Line, cpu: Processor, k: string, labels: set<string>)
    requires LineOk(line) && SeparateLine(line, labels) && k !in labels
    requires k !in EquatedHere(st, line)
    ensures SameValue(Find(StepLine(st, line, cpu).syms, k), Find(st.syms, k))
  {
    hide Act, LineOk, Mangle, Args, ListEffect;
    if Executes(st, line) {
      var s1 := Before(st, line);
      var s2 := Evaluated(s1, line.op);
      ActGrows(s2, line, Args(s1, line.op), cpu);
      if line.op.Equ? {
        EquateActs(s2, line, Args(s1, line.op), cpu);
      }
    }
  }

  lemma {:induction false} RunLeaves(st: State, prog: seq<Line>, cpu: Processor, k: string, labels: set<string>)
    requires ProgramOk(prog) && Separate(prog, labels) && k !in labels && k !in Equated(st, prog, cpu)
    ensures SameValue(Find(Run(st, prog, cpu).syms, k), Find(st.syms, k))
    decreases |prog|
  {
    hide StepLine, LineOk, Separate, Mangle;
    if prog != [] {
      OkParts(prog);
      SeparateParts(prog, labels);
      LineLeaves(st, prog[0], cpu, k, labels);
      RunLeaves(StepLine(st, prog[0], cpu), prog[1..], cpu, k, labels);
    }
  }

  lemma TracksEquate(s1: State, s2: State, name: string, a1: Arg, a2: Arg, final: Table, labels: set<string>,
      pending: set<string>, pending': set<string>, since: Option<nat>)
    requires name != [] && Key(name) !in labels && Key(name) in pending && pending' <= pending
    requires a1.unknown ==> Key(name) !in pending'
    requires Alike(s1, s2, since) && Tracks(s1, s2, final, labels, pending)
    requires Equate(s1, name, a1).redo == 0 && Refines(a1, a2)
    requires SameValue(Find(final, Key(name)), Symbol(a1.value, a1.unknown, false, None))
    ensures var (r1, r2) := (Equate(s1, name, a1), Equate(s2, name, a2));
            Alike(r1, r2, since) && Tracks(r1, r2, final, labels, pending')
  {
    hide Mangle;
    var k := Key(name);
    assert Follows(Find(s1.syms, k), Find(s2.syms, k), Find(final, k), false, true);
    var (r1, r2) := (Equate(s1, name, a1), Equate(s2, name, a2));
    forall j ensures Follows(Find(r1.syms, j), Find(r2.syms, j), Find(final, j), j in labels, j in pending') {
      assert Follows(Find(s1.syms, j), Find(s2.syms, j), Find(final, j), j in labels, j in pending);
    }
  }

  lemma TracksFewer(s1: State, s2: State, final: Table, labels: set<string>, pending: set<string>,
      pending': set<string>)
    requires Tracks(s1, s2, final, labels, pending) && pending' <= pending
    ensures Tracks(s1, s2, final, labels, pending')
  {
    forall j ensures Follows(Find(s1.syms, j), Find(s2.syms, j), Find(final, j), j in labels, j in pending') {
      assert Follows(Find(s1.syms, j), Find(s2.syms, j), Find(final, j), j in labels, j in pending);
    }
  }

  lemma TracksFrame(s1: State, s2: State, r1: State, r2: State, final: Table, labels: set<string>, pending: set<string>)
    requires Tracks(s1, s2, final, labels, pending) && r1.syms == s1.syms && r2.syms == s2.syms
    ensures Tracks(r1, r2, final, labels, pending)
  {
  }

  // ---------------------------------------------------------------------------
  // A line

  /** The symbols equated from this line on. */
  function EquatedFrom(st: State, line: Line, rest: seq<Line>, cpu: Processor): set<string>
    requires LineOk(line) && ProgramOk(rest)
  {
    EquatedHere(st, line) + Equated(StepLine(st, line, cpu), rest, cpu)
  }

  /** What holds of a line and the program after it in the first pass. */
  ghost predicate FirstPass(s1: State, line: Line, rest: seq<Line>, cpu: Processor, labels: set<string>) {
    && LineOk(line) && ProgramOk(rest) && SeparateLine(line, labels) && Separate(rest, labels)
    && ApartFrom(s1, line, rest, cpu, labels)
    && OrgResolved(s1, line) && OrgsResolved(StepLine(s1, line, cpu), rest, cpu)
    && Rest(s1, line, rest, cpu).redo == 0
    && NoEqm(s1.syms)
    && EquateSettles(s1, line, rest, cpu)
  }

  lemma BeforeFollows(s1: State, s2: State, line: Line, rest: seq<Line>, cpu: Processor, labels: set<string>,
      pending: set<string>, since: Option<nat>)
    requires FirstPass(s1, line, rest, cpu, labels) && Executes(s1, line)
    requires Alike(s1, s2, since) && Tracks(s1, s2, Rest(s1, line, rest, cpu).syms, labels, pending)
    ensures Alike(Before(s1, line), Before(s2, line), since)
    ensures Tracks(Before(s1, line), Before(s2, line), Rest(s1, line, rest, cpu).syms, labels, pending)
  {
    hide ProgramLabel, LineOk, Alike, Tracks, Act, OrgResolved, Separate, Mangle, Run, Evaluated, Args;
    RunGrows(StepLine(s1, line, cpu), rest, cpu);
    RedoInside(s1, line, cpu);
    if LabelFirst(line.op) {
      LineLabelFinal(s1, line, rest, cpu, labels);
      TracksLabel(s1, s2, line.name, Rest(s1, line, rest, cpu).syms, labels, pending, since);
    }
  }

  lemma EquateFollows(s1: State, s2: State, line: Line, rest: seq<Line>, cpu: Processor, labels: set<string>,
      since: Option<nat>)
    requires FirstPass(s1, line, rest, cpu, labels) && Executes(s1, line) && line.op.Equ? && NoEqm(s2.syms)
    requires Alike(s1, s2, since)
    requires Tracks(s1, s2, Rest(s1, line, rest, cpu).syms, labels, EquatedFrom(s1, line, rest, cpu))
    ensures Alike(StepLine(s1, line, cpu), StepLine(s2, line, cpu), since)
    ensures Tracks(StepLine(s1, line, cpu), StepLine(s2, line, cpu), Rest(s1, line, rest, cpu).syms, labels,
        Equated(StepLine(s1, line, cpu), rest, cpu))
  {
    hide LineOk, Act, OrgResolved, Separate, Mangle, Run, Evaluated, Args, Equate, Tracks, NoEqm, OrgsResolved;
    var final := Rest(s1, line, rest, cpu).syms;
    var pending := EquatedFrom(s1, line, rest, cpu);
    var (t1, t2) := (Evaluated(s1, line.op), Evaluated(s2, line.op));
    var (a1, a2) := (Args(s1, line.op), Args(s2, line.op));
    RunGrows(StepLine(s1, line, cpu), rest, cpu);
    RedoInside(s1, line, cpu);
    ArgsFollow(s1, s2, line, rest, cpu, labels, pending, since);
    TouchFollows(s1, s2, line, final, labels, pending, since);
    EquateActs(t1, line, a1, cpu);
    EquateActs(t2, line, a2, cpu);
    EquateSets(t1, line.name, a1[0]);
    if a1[0].unknown {
      RunLeaves(StepLine(s1, line, cpu), rest, cpu, Key(line.name), labels);
    } else {
      RunKeeps(StepLine(s1, line, cpu), rest, cpu, Key(line.name), labels, false);
    }
    TracksEquate(t1, t2, line.name, a1[0], a2[0], final, labels, pending,
      Equated(StepLine(s1, line, cpu), rest, cpu), since);
  }

  lemma EquateSets(st: State, name: string, a: Arg)
    requires name != []
    ensures SameValue(Find(Equate(st, name, a).syms, Key(name)), Symbol(a.value, a.unknown, false, None))
  {
    hide Mangle;
  }

  lemma TouchFollows(s1: State, s2: State, line: Line, final: Table, labels: set<string>, pending: set<string>,
      since: Option<nat>)
    requires LineOk(line) && NoEqm(s1.syms) && NoEqm(s2.syms)
    requires Alike(s1, s2, since) && Tracks(s1, s2, final, labels, pending)
    ensures var (r1, r2) := (Evaluated(s1, line.op), Evaluated(s2, line.op));
            Alike(r1, r2, since) && Tracks(r1, r2, final, labels, pending)
  {
    hide Evaluated, Tracks, Alike, NoEqm, Shaped, ListEffect;
    forall e | e in Exprs(line.op) ensures Shaped(e) {
      OkShaped(line, e);
      OkMeansShaped(e);
    }
    ListKeysSame(Exprs(line.op), s1, s2);
    TracksTouch(s1, s2, line.op, final, labels, pending, since);
  }

  lemma ExecuteFollows(s1: State, s2: State, line: Line, rest: seq<Line>, cpu: Processor, labels: set<string>,
      pending: set<string>, since: Option<nat>)
    requires FirstPass(s1, line, rest, cpu, labels) && Executes(s1, line) && !line.op.Equ? && NoEqm(s2.syms)
    requires Alike(s1, s2, since)
    requires Tracks(s1, s2, Rest(s1, line, rest, cpu).syms, labels, pending)
    ensures Alike(StepLine(s1, line, cpu), StepLine(s2, line, cpu), since)
    ensures Tracks(StepLine(s1, line, cpu), StepLine(s2, line, cpu), Rest(s1, line, rest, cpu).syms, labels, pending)
  {
    hide LineOk, Act, Separate, Mangle, Run, Evaluated, ProgramLabel, Tracks, NoEqm, OrgsResolved, Meanings;
    var final := Rest(s1, line, rest, cpu).syms;
    RunGrows(StepLine(s1, line, cpu), rest, cpu);
    RedoInside(s1, line, cpu);
    BeforeFollows(s1, s2, line, rest, cpu, labels, pending, since);
    var (t1, t2) := (Before(s1, line), Before(s2, line));
    NoEqmKept(s1, line, cpu);
    NoEqmKept(s2, line, cpu);
    ArgsFollow(s1, s2, line, rest, cpu, labels, pending, since);
    TouchFollows(t1, t2, line, final, labels, pending, since);
    var (u1, u2) := (Evaluated(t1, line.op), Evaluated(t2, line.op));
    ArgsEqual(s1, s2, line, cpu);
    var args := Args(t1, line.op);
    AlikeAct(u1, u2, line, args, cpu, since);
    ActGrows(u1, line, args, cpu);
    ActGrows(u2, line, args, cpu);
    var (r1, r2) := (Act(u1, line, args, cpu), Act(u2, line, args, cpu));
    TracksFrame(u1, u2, r1, r2, final, labels, pending);
    if LabelLast(line.op) && !r1.fault {
      LabelLastFinal(s1, line, rest, cpu, labels);
      TracksLabel(r1, r2, line.name, final, labels, pending, since);
    }
  }

  lemma LabelLastFinal(s1: State, line: Line, rest: seq<Line>, cpu: Processor, labels: set<string>)
    requires FirstPass(s1, line, rest, cpu, labels) && Executes(s1, line) && LabelLast(line.op)
    requires !Act(Evaluated(s1, line.op), line, Args(s1, line.op), cpu).fault
    ensures LabelFinal(Some(Act(Evaluated(s1, line.op), line, Args(s1, line.op), cpu)), line.name,
        Rest(s1, line, rest, cpu).syms)
  {
    hide LineOk, Act, Separate, Mangle, Run, Evaluated, Args;
    LineLabelFinal(s1, line, rest, cpu, labels);
  }

  /** In the first pass the operands were known, so the second pass finds the same values. */
  lemma ArgsEqual(s1: State, s2: State, line: Line, cpu: Processor)
    requires LineOk(line) && !line.op.Equ? && OrgResolved(s1, line) && Executes(s1, line)
    requires Act(Evaluated(Before(s1, line), line.op), line, Args(Before(s1, line), line.op), cpu).redo == 0
    requires var (a1, a2) := (Args(Before(s1, line), line.op), Args(Before(s2, line), line.op));
             forall i :: 0 <= i < |a1| ==> Refines(a1[i], a2[i])
    ensures Args(Before(s1, line), line.op) == Args(Before(s2, line), line.op)
    ensures forall i :: 0 <= i < |Args(Before(s1, line), line.op)| ==> !Args(Before(s1, line), line.op)[i].unknown
  {
    hide LineOk, Act, Evaluated, ProgramLabel, Meanings, Mangle;
    var (a1, a2) := (Args(Before(s1, line), line.op), Args(Before(s2, line), line.op));
    ActGrows(Evaluated(Before(s1, line), line.op), line, a1, cpu);
    forall i | 0 <= i < |a1| ensures !a1[i].unknown && a1[i] == a2[i] {
      assert Refines(a1[i], a2[i]);
    }
    assert a1 == a2;
  }

  lemma LineFollows(s1: State, s2: State, line: Line, rest: seq<Line>, cpu: Processor, labels: set<string>,
      since: Option<nat>)
    requires FirstPass(s1, line, rest, cpu, labels) && NoEqm(s2.syms)
    requires Alike(s1, s2, since)
    requires Tracks(s1, s2, Rest(s1, line, rest, cpu).syms, labels, EquatedFrom(s1, line, rest, cpu))
    ensures Alike(StepLine(s1, line, cpu), StepLine(s2, line, cpu), since)
    ensures Tracks(StepLine(s1, line, cpu), StepLine(s2, line, cpu), Rest(s1, line, rest, cpu).syms, labels,
        Equated(StepLine(s1, line, cpu), rest, cpu))
  {
    hide LineOk, Execute, Separate, Mangle, Run, ProgramLabel, Tracks, NoEqm, OrgsResolved, OrgResolved;
    var final := Rest(s1, line, rest, cpu).syms;
    var pending := EquatedFrom(s1, line, rest, cpu);
    assert Equated(StepLine(s1, line, cpu), rest, cpu) <= pending;
    if Executes(s1, line) {
      if line.op.Equ? {
        EquateFollows(s1, s2, line, rest, cpu, labels, since);
      } else {
        ExecuteFollows(s1, s2, line, rest, cpu, labels, pending, since);
        TracksFewer(StepLine(s1, line, cpu), StepLine(s2, line, cpu), final, labels, pending,
          Equated(StepLine(s1, line, cpu), rest, cpu));
      }
    } else {
      TracksFewer(s1, s2, final, labels, pending, Equated(StepLine(s1, line, cpu), rest, cpu));
      ConditionalFollows(s1, s2, line, rest, cpu, labels, since);
    }
  }

  /** ELSE, ENDIF, and lines that are skipped. */
  lemma ConditionalFollows(s1: State, s2: State, line: Line, rest: seq<Line>, cpu: Processor, labels: set<string>,
      since: Option<nat>)
    requires FirstPass(s1, line, rest, cpu, labels) && !Executes(s1, line)
    requires Alike(s1, s2, since)
    requires Tracks(s1, s2, Rest(s1, line, rest, cpu).syms, labels, Equated(StepLine(s1, line, cpu), rest, cpu))
    ensures Alike(StepLine(s1, line, cpu), StepLine(s2, line, cpu), since)
    ensures Tracks(StepLine(s1, line, cpu), StepLine(s2, line, cpu), Rest(s1, line, rest, cpu).syms, labels,
        Equated(StepLine(s1, line, cpu), rest, cpu))
  {
    hide LineOk, Execute, Separate, Mangle, Run, ProgramLabel, Tracks, NoEqm, OrgsResolved, OrgResolved, Equated,
      EquateSettles;
    var final := Rest(s1, line, rest, cpu).syms;
    RunGrows(StepLine(s1, line, cpu), rest, cpu);
    var (p1, p2) := (s1, s2);
    if !s1.fault && (line.op.Else? || line.op.Endif?) && s1.ifs != [] && TopFrame(s1.ifs).acctrue {
      LineLabelFinal(s1, line, rest, cpu, labels);
      TracksLabel(s1, s2, line.name, final, labels, Equated(StepLine(s1, line, cpu), rest, cpu), since);
      p1, p2 := ProgramLabel(s1, line.name), ProgramLabel(s2, line.name);
    }
    TracksFrame(p1, p2, StepLine(s1, line, cpu), StepLine(s2, line, cpu), final, labels,
      Equated(StepLine(s1, line, cpu), rest, cpu));
  }

  // ---------------------------------------------------------------------------
  // A pass

  lemma {:induction false} RunFollows(s1: State, s2: State, prog: seq<Line>, cpu: Processor, labels: set<string>,
      since: Option<nat>)
    requires ProgramOk(prog) && Separate(prog, labels) && Apart(s1, prog, cpu, labels)
    requires OrgsResolved(s1, prog, cpu) && EquatesSettle(s1, prog, cpu)
    requires Run(s1, prog, cpu).redo == 0 && NoEqm(s1.syms) && NoEqm(s2.syms)
    requires Alike(s1, s2, since) && Tracks(s1, s2, Run(s1, prog, cpu).syms, labels, Equated(s1, prog, cpu))
    ensures Alike(Run(s1, prog, cpu), Run(s2, prog, cpu), since)
    decreases |prog|
  {
    hide StepLine, LineOk, Separate, ApartAt, OrgResolved, Tracks, NoEqm, Mangle, Alike, EquateSettles;
    if prog != [] {
      OkParts(prog);
      SeparateParts(prog, labels);
      assert [prog[0]] + prog[1..] == prog;
      NoEqmKept(s1, prog[0], cpu);
      NoEqmKept(s2, prog[0], cpu);
      LineFollows(s1, s2, prog[0], prog[1..], cpu, labels, since);
      RunFollows(StepLine(s1, prog[0], cpu), StepLine(s2, prog[0], cpu), prog[1..], cpu, labels, since);
    }
  }

  // ---------------------------------------------------------------------------
  // Fillers

  /** Does this line set the fill byte? */
  predicate SetsFill(st: State, line: Line) {
    Executes(st, line) && line.op.Org? && line.op.fill.Some?
  }

  /** An ORG that sets the fill byte executes before the first output. */
  ghost predicate FillBeforeOutput(st: State, prog: seq<Line>, cpu: Processor)
    requires ProgramOk(prog)
    decreases |prog|
  {
    && prog != [] && st.out == []
    && (SetsFill(st, prog[0]) || FillBeforeOutput(StepLine(st, prog[0], cpu), prog[1..], cpu))
  }

  /** How much has been written when the fill byte is first set, or, if it never is, at the end. */
  function Unfilled(st: State, prog: seq<Line>, cpu: Processor): nat
    requires ProgramOk(prog)
    decreases |prog|
  {
    if prog == [] || SetsFill(st, prog[0]) then |st.out|
    else Unfilled(StepLine(st, prog[0], cpu), prog[1..], cpu)
  }

  /** From a to b output is only added, with the one fill byte that is in force. */
  ghost predicate Emits(a: State, b: State) {
    && a.out <= b.out && b.orgFill == a.orgFill
    && forall i :: |a.out| <= i < |b.out| ==> b.out[i].fill == a.orgFill
  }

  lemma EmitsGenerate(st: State, bytes: seq<byte>)
    ensures Emits(st, Generate(st, bytes))
  {
  }

  lemma EmitsBoth(a: State, b: State, c: State)
    requires Emits(a, b) && Emits(b, c)
    ensures Emits(a, c)
  {
  }

  lemma {:induction false} EmitsGenFill(st: State, gen: seq<byte>, bytes: nat)
    requires |gen| == GEN_SIZE
    ensures Emits(st, GenFill(st, gen, bytes))
    decreases bytes
  {
    hide Generate, Emits;
    if bytes > GEN_SIZE {
      EmitsGenerate(st, gen);
      EmitsGenFill(Generate(st, gen), gen, bytes - GEN_SIZE);
      EmitsBoth(st, Generate(st, gen), GenFill(st, gen, bytes));
    } else {
      EmitsGenerate(st, gen[..bytes]);
    }
  }

  lemma EmitsFill(st: State, fill: int, entries: nat, size: nat, msbFirst: bool)
    ensures Emits(st, Fill(st, fill, entries, size, msbFirst))
  {
    hide GenFill, Pattern;
    if entries != 0 {
      EmitsGenFill(st, Pattern(fill, size, msbFirst), entries * size);
    }
  }

  lemma EmitsAct(st: State, line: Line, args: seq<Arg>, cpu: Processor)
    requires LineOk(line) && |args| == |Exprs(line.op)| && !(line.op.Org? && line.op.fill.Some?)
    ensures Emits(st, Act(st, line, args, cpu))
  {
    hide CodeOperand, Data, Space, AlignTo, ExprOk, ListText, LooksIndexed, NameOk, Mangle;
    match line.op
    case Instr(_, form, _, _, _) => EmitsCode(st, line.op, Operand(form.Mode(), args[0]), cpu);
    case Implied(_, _, _) => EmitsCode(st, line.op, Operand(AddressModes.Imp, ZERO), cpu);
    case Dc(size, _) => EmitsData(st, args, size, cpu);
    case Ds(size, _, _) => EmitsSpace(st, args, size, cpu);
    case Align(_, _) => EmitsAlign(st, args, cpu);
    case _ =>
  }

  lemma EmitsCode(st: State, op: Op, operand: Operand, cpu: Processor)
    requires (op.Instr? || op.Implied?) && WellFormed(op.mne)
    ensures Emits(st, CodeOperand(st, op, operand, cpu))
  {
    hide Generate, Encode;
    var code := Encode(op.mne, operand, op.forced, op.isForced, cpu.msbFirst, Arg(st.org, st.orgUnknown));
    if code.Coded? {
      EmitsGenerate(Again(st, operand.arg.unknown, MnemonicNotResolved), code.bytes);
    }
  }

  lemma EmitsData(st: State, args: seq<Arg>, size: nat, cpu: Processor)
    ensures Emits(st, Data(st, args, size, cpu))
  {
    hide Generate, DataBytes, CountUnknown;
    EmitsGenerate(AgainFor(st, CountUnknown(args), DcNotResolved), DataBytes(args, size, cpu.msbFirst));
  }

  lemma EmitsSpace(st: State, args: seq<Arg>, size: nat, cpu: Processor)
    requires args != []
    ensures Emits(st, Space(st, args, size, cpu))
  {
    hide Fill;
    var st1 := Again(st, |args| > 1 && args[1].unknown, DsNotResolved);
    if args[0].value >= 0 {
      EmitsFill(st1, if |args| > 1 then args[1].value else 0, args[0].value, size, cpu.msbFirst);
    }
  }

  lemma EmitsAlign(st: State, args: seq<Arg>, cpu: Processor)
    requires args != []
    ensures Emits(st, AlignTo(st, args, cpu))
  {
    hide Fill;
    var st1 := Again(st, |args| > 1 && args[1].unknown, AlignNotResolved);
    var fill := if |args| > 1 && !args[1].unknown then Lo(args[1].value) else 0;
    var n := args[0].value;
    if n > 0 {
      EmitsFill(st1, fill, n - st.org % n, 1, cpu.msbFirst);
    }
  }

  lemma EmitsLabel(st: State, name: string)
    ensures ProgramLabel(st, name).out == st.out && ProgramLabel(st, name).orgFill == st.orgFill
  {
    hide Mangle;
  }

  /** Every line but an ORG that sets it leaves the fill byte and writes with it. */
  lemma EmitsStep(st: State, line: Line, cpu: Processor)
    requires LineOk(line) && !SetsFill(st, line)
    ensures Emits(st, StepLine(st, line, cpu))
  {
    hide Act, ProgramLabel, LineOk, ListEffect, Meanings;
    EmitsLabel(st, line.name);
    if Executes(st, line) {
      var s1 := Before(st, line);
      var args := Args(s1, line.op);
      var s3 := Act(Evaluated(s1, line.op), line, args, cpu);
      EmitsAct(Evaluated(s1, line.op), line, args, cpu);
      EmitsLabel(s3, line.name);
    }
  }

  lemma FillStep(st: State, line: Line, cpu: Processor)
    requires LineOk(line) && SetsFill(st, line)
    ensures var r := StepLine(st, line, cpu);
            r.out == st.out && |Args(st, line.op)| == 2 && r.orgFill == Lo(Args(st, line.op)[1].value)
  {
    hide Act, ProgramLabel, LineOk, ListEffect, Meanings;
    var args := Args(st, line.op);
    var s2 := Evaluated(st, line.op);
    OrgActs(s2, line, args, cpu);
    EmitsLabel(Act(s2, line, args, cpu), line.name);
  }

  lemma {:induction false} OutputStays(st: State, prog: seq<Line>, cpu: Processor)
    requires ProgramOk(prog)
    ensures st.out <= Run(st, prog, cpu).out
    decreases |prog|
  {
    hide StepLine, LineOk, SetsFill;
    if prog != [] {
      OkParts(prog);
      if SetsFill(st, prog[0]) {
        FillStep(st, prog[0], cpu);
      } else {
        EmitsStep(st, prog[0], cpu);
      }
      OutputStays(StepLine(st, prog[0], cpu), prog[1..], cpu);
    }
  }

  /** An ORG that sets the fill byte sets the same one in both passes. */
  lemma FillsAgree(s1: State, s2: State, line: Line, rest: seq<Line>, cpu: Processor, labels: set<string>)
    requires FirstPass(s1, line, rest, cpu, labels) && NoEqm(s2.syms) && SetsFill(s1, line)
    requires Alike(s1, s2, None)
    requires Tracks(s1, s2, Rest(s1, line, rest, cpu).syms, labels, EquatedFrom(s1, line, rest, cpu))
    ensures StepLine(s1, line, cpu).orgFill == StepLine(s2, line, cpu).orgFill
  {
    hide LineOk, Act, Separate, Mangle, Run, Evaluated, ProgramLabel, Tracks, NoEqm, OrgsResolved, Meanings, StepLine;
    RunGrows(StepLine(s1, line, cpu), rest, cpu);
    ExecutesIs(s1, line, cpu);
    RedoInside(s1, line, cpu);
    ArgsFollow(s1, s2, line, rest, cpu, labels, EquatedFrom(s1, line, rest, cpu), None);
    ArgsEqual(s1, s2, line, cpu);
    FillStep(s1, line, cpu);
    FillStep(s2, line, cpu);
  }

  lemma ExecutesIs(st: State, line: Line, cpu: Processor)
    requires LineOk(line) && Executes(st, line)
    ensures StepLine(st, line, cpu) == Execute(st, line, cpu)
  {
    hide Execute, LineOk;
  }

  ghost predicate AllFilled(out: seq<Chunk>, fill: byte) {
    forall i :: 0 <= i < |out| ==> out[i].fill == fill
  }

  /** Where two passes begin with different fill bytes, the fillers of what is written before the byte is
      set differ, and all others agree. */
  lemma {:induction false} FillersFollow(s1: State, s2: State, prog: seq<Line>, cpu: Processor, labels: set<string>)
    requires ProgramOk(prog) && Separate(prog, labels) && Apart(s1, prog, cpu, labels)
    requires OrgsResolved(s1, prog, cpu) && EquatesSettle(s1, prog, cpu)
    requires Run(s1, prog, cpu).redo == 0 && NoEqm(s1.syms) && NoEqm(s2.syms)
    requires Alike(s1, s2, None) && Tracks(s1, s2, Run(s1, prog, cpu).syms, labels, Equated(s1, prog, cpu))
    requires s1.orgFill != s2.orgFill && AllFilled(s1.out, s1.orgFill) && AllFilled(s2.out, s2.orgFill)
    ensures var (r1, r2) := (Run(s1, prog, cpu), Run(s2, prog, cpu));
            && SameOutput(r1.out, r2.out) && Unfilled(s1, prog, cpu) <= |r1.out|
            && forall i :: 0 <= i < |r1.out| ==> (r1.out[i].fill == r2.out[i].fill <==> i >= Unfilled(s1, prog, cpu))
    decreases |prog|
  {
    hide StepLine, LineOk, Separate, ApartAt, OrgResolved, Tracks, NoEqm, Mangle, EquateSettles, SetsFill;
    if prog != [] {
      OkParts(prog);
      SeparateParts(prog, labels);
      assert [prog[0]] + prog[1..] == prog;
      NoEqmKept(s1, prog[0], cpu);
      NoEqmKept(s2, prog[0], cpu);
      LineFollows(s1, s2, prog[0], prog[1..], cpu, labels, None);
      var (t1, t2) := (StepLine(s1, prog[0], cpu), StepLine(s2, prog[0], cpu));
      SetsFillBoth(s1, s2, prog[0]);
      if SetsFill(s1, prog[0]) {
        FillStep(s1, prog[0], cpu);
        FillStep(s2, prog[0], cpu);
        FillsAgree(s1, s2, prog[0], prog[1..], cpu, labels);
        RunFollows(t1, t2, prog[1..], cpu, labels, Some(|s1.out|));
        OutputStays(t1, prog[1..], cpu);
        OutputStays(t2, prog[1..], cpu);
      } else {
        EmitsStep(s1, prog[0], cpu);
        EmitsStep(s2, prog[0], cpu);
        FillersFollow(t1, t2, prog[1..], cpu, labels);
      }
    }
  }

  lemma SetsFillBoth(s1: State, s2: State, line: Line)
    requires Alike(s1, s2, None)
    ensures SetsFill(s1, line) == SetsFill(s2, line)
  {
  }

  // ---------------------------------------------------------------------------
  // The fixpoint

  /** What the driver's pass loop needs of a program for the theorems below. */
  ghost predicate Resolved(start: State, prog: seq<Line>, cpu: Processor, labels: set<string>)
    requires ProgramOk(prog)
  {
    && Separate(prog, labels) && NoEqm(start.syms)
    && OrgsResolved(start, prog, cpu) && EquatesSettle(start, prog, cpu) && Run(start, prog, cpu).redo == 0
  }

  lemma StartsAlike(syms: Table, org: int, orgFill: byte, prog: seq<Line>, cpu: Processor, labels: set<string>)
    requires ProgramOk(prog) && Resolved(StartPass(syms, org, orgFill), prog, cpu, labels)
    ensures var start := StartPass(syms, org, orgFill);
            var first := Run(start, prog, cpu);
            var next := NextPass(first);
            && NoEqm(next.syms) && Alike(start, next, if first.orgFill == orgFill then Some(0) else None)
            && Tracks(start, next, first.syms, labels, Equated(start, prog, cpu))
  {
    hide Run, Separate, LineOk, OrgsResolved, Mangle, EquatesSettle;
    NoEqmRun(StartPass(syms, org, orgFill), prog, cpu);
  }

  /** The next pass asks for no other pass either and writes the same bytes at the same addresses; and it
      writes a filler that differs just for what was written before the fill byte was set, if the byte
      did not end the pass as it began. */
  lemma FillersAgreeExactly(syms: Table, org: int, orgFill: byte, prog: seq<Line>, cpu: Processor, labels: set<string>)
    requires ProgramOk(prog) && Resolved(StartPass(syms, org, orgFill), prog, cpu, labels)
    ensures var start := StartPass(syms, org, orgFill);
            var first := Run(start, prog, cpu);
            var second := Run(NextPass(first), prog, cpu);
            && second.redo == 0 && second.fault == first.fault && SameOutput(first.out, second.out)
            && Unfilled(start, prog, cpu) <= |first.out|
            && forall i :: 0 <= i < |first.out| ==>
                 (first.out[i].fill == second.out[i].fill <==>
                    first.orgFill == orgFill || i >= Unfilled(start, prog, cpu))
  {
    hide Run, Separate, LineOk, OrgsResolved, Mangle, EquatesSettle, Tracks, Unfilled;
    var start := StartPass(syms, org, orgFill);
    SeparateApart(start, prog, cpu, labels);
    var first := Run(start, prog, cpu);
    var next := NextPass(first);
    StartsAlike(syms, org, orgFill, prog, cpu, labels);
    UnfilledWithin(start, prog, cpu);
    if first.orgFill == orgFill {
      RunFollows(start, next, prog, cpu, labels, Some(0));
    } else {
      RunFollows(start, next, prog, cpu, labels, None);
      FillersFollow(start, next, prog, cpu, labels);
    }
  }

  lemma {:induction false} UnfilledWithin(st: State, prog: seq<Line>, cpu: Processor)
    requires ProgramOk(prog)
    ensures |st.out| <= Unfilled(st, prog, cpu) <= |Run(st, prog, cpu).out|
    ensures st.out == [] ==>
              (Unfilled(st, prog, cpu) == 0 <==> Run(st, prog, cpu).out == [] || FillBeforeOutput(st, prog, cpu))
    decreases |prog|
  {
    hide StepLine, LineOk, SetsFill;
    OutputStays(st, prog, cpu);
    if prog != [] && !SetsFill(st, prog[0]) {
      OkParts(prog);
      EmitsStep(st, prog[0], cpu);
      OutputStays(StepLine(st, prog[0], cpu), prog[1..], cpu);
      UnfilledWithin(StepLine(st, prog[0], cpu), prog[1..], cpu);
    }
  }

  /** A pass that asks for no other pass is a fixpoint of the pass loop: after clearing references
      and segment flags as the driver does, another pass asks for no other either and writes the
      same bytes at the same addresses. All of its output, the bytes that will fill gaps included, is
      the same just if OrgFill, which nothing resets between passes, is as it was at the beginning, or
      an ORG sets it before anything is written. */
  lemma ResolvedPassIsFixpoint(syms: Table, org: int, orgFill: byte, prog: seq<Line>, cpu: Processor,
      labels: set<string>)
    requires ProgramOk(prog) && Resolved(StartPass(syms, org, orgFill), prog, cpu, labels)
    ensures var start := StartPass(syms, org, orgFill);
            var first := Run(start, prog, cpu);
            var second := Run(NextPass(first), prog, cpu);
            && second.redo == 0 && second.fault == first.fault
            && SameOutput(first.out, second.out)
            && (first.out == second.out <==>
                  first.out == [] || first.orgFill == orgFill || FillBeforeOutput(start, prog, cpu))
  {
    hide Run, Resolved, LineOk, FillBeforeOutput, Unfilled, NextPass;
    var start := StartPass(syms, org, orgFill);
    var first := Run(start, prog, cpu);
    var second := Run(NextPass(first), prog, cpu);
    FillersAgreeExactly(syms, org, orgFill, prog, cpu, labels);
    UnfilledWithin(start, prog, cpu);
    if first.out == second.out && first.out != [] {
      assert first.out[0].fill == second.out[0].fill;
    }
    if first.orgFill == orgFill || Unfilled(start, prog, cpu) == 0 {
      assert forall i :: 0 <= i < |first.out| ==> first.out[i] == second.out[i];
    }
  }
}
