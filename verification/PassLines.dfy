/** A pass is the line machine with the assembler as its host: conditionals in a pass select what a
    structured program says. */
module PassLines {
  import opened Bytes
  import opened Operators
  import opened Symbols
  import opened LineMachine
  import AddressModes
  import Encoding
  import M = ExprMachine
  import opened ExprTheorems
  import opened ExprFits
  import P = Pass
  import S = Structured

  type Line = l: P.Line | P.LineOk(l) witness P.Line("", P.Op.Label)

  /** Lines by what they do to conditionals. */
  function Flatten(line: Line): Flat<Line> {
    match line.op
    case If(_) => IfLine(line)
    case Else => ElseLine(line)
    case Endif => EndifLine(line)
    case _ => Plain(line)
  }

  function FlatLines(prog: seq<Line>): (r: seq<Flat<Line>>)
    ensures |r| == |prog| && forall i :: 0 <= i < |r| ==> r[i] == Flatten(prog[i])
  {
    seq(|prog|, i requires 0 <= i < |prog| => Flatten(prog[i]))
  }

  /** The state without the conditionals, which are the machine's. */
  function Bare(st: P.State): P.State {
    st.(ifs := [])
  }

  /** What is done to the state of a process that has not died. */
  function Alive(w: P.State, w': P.State): P.State {
    if w.fault then w else w'
  }

  function SetLabelOf(w: P.State, line: Line): P.State {
    Alive(w, P.ProgramLabel(w, line.name))
  }

  function Assemble(w: P.State, line: Line, cpu: P.Processor): P.State {
    Alive(w, if line.op.If? then w else Bare(P.Execute(w, line, cpu)))
  }

  function TestOf(w: P.State, line: Line): (P.State, Arg) {
    if w.fault || !line.op.If? then (w, ZERO) else (P.Evaluated(w, line.op), P.Args(w, line.op)[0])
  }

  function NoteOf(w: P.State, e: Event): P.State {
    Alive(w, if e.IfNotResolved? then P.Again(w, true, P.Reason.IfNotResolved) else w)
  }

  function HostOf(cpu: P.Processor): Host<P.State, Line, bool> {
    Host(
      (a: bool, line: Line) => false,
      (w: P.State, scope: Scope, a: bool, line: Line) => SetLabelOf(w, line),
      (w: P.State, before: Scope, after: Scope, a: bool, line: Line) => Assemble(w, line, cpu),
      (w: P.State, scope: Scope, a: bool, line: Line) => TestOf(w, line),
      (a: bool, line: Line) => a,
      false,
      (w: P.State, e: Event) => NoteOf(w, e))
  }

  /** The frames of a pass, as the machine has them for the only file. */
  function Frames(ifs: seq<P.IfFrame>): (r: seq<IfFrame>)
    ensures |r| == |ifs| && forall i :: 0 <= i < |r| ==> r[i] == IfFrame(1, ifs[i].xtrue, ifs[i].acctrue)
  {
    seq(|ifs|, i requires 0 <= i < |ifs| => IfFrame(1, ifs[i].xtrue, ifs[i].acctrue))
  }

  /** The machine is where the pass is. */
  ghost predicate Mirrors(m: Machine<P.State, Line, bool>, st: P.State) {
    && m.c.w == Bare(st) && |m.files| == 1 && !m.files[0].isMacro
    && (st.fault || m.ifs == Frames(st.ifs))
    && forall i :: 0 <= i < |m.ifs| ==> m.ifs[i].file == 1
  }

  // ---------------------------------------------------------------------------
  // Nothing but conditionals looks at conditionals

  lemma {:induction false} GenFillBare(st: P.State, gen: seq<byte>, bytes: nat)
    requires |gen| == P.GEN_SIZE
    ensures P.GenFill(Bare(st), gen, bytes) == Bare(P.GenFill(st, gen, bytes))
        && P.GenFill(st, gen, bytes).ifs == st.ifs
    decreases bytes
  {
    hide P.Generate;
    GenerateBare(st, gen);
    if bytes <= P.GEN_SIZE {
      GenerateBare(st, gen[..bytes]);
    } else {
      GenFillBare(P.Generate(st, gen), gen, bytes - P.GEN_SIZE);
    }
  }

  lemma GenerateBare(st: P.State, bytes: seq<byte>)
    ensures P.Generate(Bare(st), bytes) == Bare(P.Generate(st, bytes)) && P.Generate(st, bytes).ifs == st.ifs
  {
  }

  lemma FillBare(st: P.State, fill: int, entries: nat, size: nat, msbFirst: bool)
    ensures P.Fill(Bare(st), fill, entries, size, msbFirst) == Bare(P.Fill(st, fill, entries, size, msbFirst))
    ensures P.Fill(st, fill, entries, size, msbFirst).ifs == st.ifs
  {
    hide P.GenFill, P.Pattern;
    if entries != 0 {
      GenFillBare(st, P.Pattern(fill, size, msbFirst), entries * size);
    }
  }

  lemma CodeBare(st: P.State, op: P.Op, operand: M.Operand, cpu: P.Processor)
    requires (op.Instr? || op.Implied?) && Encoding.WellFormed(op.mne)
    ensures P.CodeOperand(Bare(st), op, operand, cpu) == Bare(P.CodeOperand(st, op, operand, cpu))
    ensures P.CodeOperand(st, op, operand, cpu).ifs == st.ifs
  {
    hide Encoding.Encode, P.Generate;
    var code := Encoding.Encode(op.mne, operand, op.forced, op.isForced, cpu.msbFirst, Arg(st.org, st.orgUnknown));
    if code.Coded? {
      GenerateBare(P.Again(st, operand.arg.unknown, P.Reason.MnemonicNotResolved), code.bytes);
    }
  }

  lemma DataBare(st: P.State, args: seq<Arg>, size: nat, cpu: P.Processor)
    ensures P.Data(Bare(st), args, size, cpu) == Bare(P.Data(st, args, size, cpu))
    ensures P.Data(st, args, size, cpu).ifs == st.ifs
  {
    hide P.DataBytes, P.CountUnknown, P.Generate;
    GenerateBare(P.AgainFor(st, P.CountUnknown(args), P.Reason.DcNotResolved), P.DataBytes(args, size, cpu.msbFirst));
  }

  lemma SpaceBare(st: P.State, args: seq<Arg>, size: nat, cpu: P.Processor)
    requires args != []
    ensures P.Space(Bare(st), args, size, cpu) == Bare(P.Space(st, args, size, cpu))
        && P.Space(st, args, size, cpu).ifs == st.ifs
  {
    hide P.Fill;
    if !args[0].unknown && args[0].value >= 0 {
      FillBare(P.Again(st, |args| > 1 && args[1].unknown, P.Reason.DsNotResolved),
               if |args| > 1 then args[1].value else 0, args[0].value, size, cpu.msbFirst);
    }
  }

  lemma AlignBare(st: P.State, args: seq<Arg>, cpu: P.Processor)
    requires args != []
    ensures P.AlignTo(Bare(st), args, cpu) == Bare(P.AlignTo(st, args, cpu)) && P.AlignTo(st, args, cpu).ifs == st.ifs
  {
    hide P.Fill;
    var st1 := P.Again(st, |args| > 1 && args[1].unknown, P.Reason.AlignNotResolved);
    var fill := if |args| > 1 && !args[1].unknown then Lo(args[1].value) else 0;
    var n := args[0].value;
    if n > 0 {
      FillBare(st1, fill, n - st.org % n, 1, cpu.msbFirst);
    }
  }

  lemma ActBare(st: P.State, line: Line, args: seq<Arg>, cpu: P.Processor)
    requires |args| == |P.Exprs(line.op)| && !line.op.If?
    ensures P.Act(Bare(st), line, args, cpu) == Bare(P.Act(st, line, args, cpu))
        && P.Act(st, line, args, cpu).ifs == st.ifs
  {
    hide P.CodeOperand, P.Data, P.Space, P.AlignTo, P.ExprOk, ListText, LooksIndexed, P.NameOk, Mangle;
    match line.op
    case Instr(_, form, _, _, _) => CodeBare(st, line.op, M.Operand(form.Mode(), args[0]), cpu);
    case Implied(_, _, _) => CodeBare(st, line.op, M.Operand(AddressModes.Imp, ZERO), cpu);
    case Dc(size, _) => DataBare(st, args, size, cpu);
    case Ds(size, _, _) => SpaceBare(st, args, size, cpu);
    case Align(_, _) => AlignBare(st, args, cpu);
    case _ =>
  }

  lemma LabelBare(st: P.State, name: string)
    ensures P.ProgramLabel(Bare(st), name) == Bare(P.ProgramLabel(st, name))
  {
    hide Mangle;
  }

  /** What a line that is no conditional does to the state does not depend on the conditionals. */
  lemma ExecuteBare(st: P.State, line: Line, cpu: P.Processor)
    requires !line.op.If?
    ensures P.Execute(Bare(st), line, cpu) == Bare(P.Execute(st, line, cpu))
    ensures P.Execute(st, line, cpu).ifs == st.ifs
  {
    hide P.Act, P.ProgramLabel, P.LineOk, ListEffect, Meanings;
    LabelBare(st, line.name);
    var s1 := P.Before(st, line);
    var s2 := P.Evaluated(s1, line.op);
    var args := P.Args(s1, line.op);
    ActBare(s2, line, args, cpu);
    var s3 := P.Act(s2, line, args, cpu);
    LabelBare(s3, line.name);
    LabelKeepsFrames(st, line.name);
    LabelKeepsFrames(s3, line.name);
  }

  lemma LabelKeepsFrames(st: P.State, name: string)
    ensures P.ProgramLabel(st, name).ifs == st.ifs && P.ProgramLabel(st, name).fault == st.fault
  {
    hide Mangle;
  }

  // ---------------------------------------------------------------------------
  // A line

  lemma FramesMore(ifs: seq<P.IfFrame>, f: P.IfFrame)
    ensures Frames(ifs + [f]) == Frames(ifs) + [IfFrame(1, f.xtrue, f.acctrue)]
    ensures P.Active(ifs) == Active(Frames(ifs))
  {
  }

  /** A conditional that is met while assembling. */
  lemma IfMirrors(m: Machine<P.State, Line, bool>, st: P.State, line: Line, cpu: P.Processor)
    requires Mirrors(m, st) && line.op.If? && !st.fault && P.Active(st.ifs)
    ensures Mirrors(VIf(HostOf(cpu), m, line), P.StepLine(st, line, cpu))
  {
    hide P.ProgramLabel, P.LineOk, ListEffect, Meanings;
    LabelBare(st, line.name);
    LabelKeepsFrames(st, line.name);
    var s1 := P.ProgramLabel(st, line.name);
    assert P.EnvOf(Bare(s1)) == P.EnvOf(s1);
    var a := P.Args(s1, line.op)[0];
    IfActs(P.Evaluated(s1, line.op), line, P.Args(s1, line.op), cpu);
    FramesMore(st.ifs, P.IfFrame(!a.unknown && a.value != 0, !a.unknown));
  }

  lemma IfActs(st: P.State, line: Line, args: seq<Arg>, cpu: P.Processor)
    requires line.op.If? && |args| == |P.Exprs(line.op)|
    ensures args != [] && P.Act(st, line, args, cpu) == P.Condition(st, args[0])
  {
  }

  /** ELSE, ENDIF, and conditionals that are skipped. */
  lemma FramesMirror(m: Machine<P.State, Line, bool>, st: P.State, line: Line, cpu: P.Processor)
    requires Mirrors(m, st) && !st.fault && Flatten(line) != Plain(line)
    requires line.op.If? ==> !P.Active(st.ifs)
    ensures Mirrors(Dispatch(HostOf(cpu), [], m, Flatten(line)), P.StepLine(st, line, cpu))
  {
    hide P.ProgramLabel, P.LineOk, P.Execute;
    LabelBare(st, line.name);
    LabelKeepsFrames(st, line.name);
    FramesMore(st.ifs, P.IfFrame(false, false));
  }

  /** One line, before the process has died. */
  lemma LineMirrors(m: Machine<P.State, Line, bool>, st: P.State, line: Line, cpu: P.Processor)
    requires Mirrors(m, st) && !st.fault
    ensures Mirrors(Dispatch(HostOf(cpu), [], m, Flatten(line)), P.StepLine(st, line, cpu))
  {
    hide P.Execute, P.LineOk, VIf, P.ProgramLabel;
    FramesMore(st.ifs, P.IfFrame(false, false));
    if line.op.If? && P.Active(st.ifs) {
      IfMirrors(m, st, line, cpu);
    } else if line.op.If? || line.op.Else? || line.op.Endif? {
      FramesMirror(m, st, line, cpu);
    } else if P.Active(st.ifs) {
      ExecuteBare(st, line, cpu);
    }
  }

  /** And after. */
  lemma DeadMirrors(m: Machine<P.State, Line, bool>, st: P.State, line: Line, cpu: P.Processor)
    requires Mirrors(m, st) && st.fault
    ensures Mirrors(Dispatch(HostOf(cpu), [], m, Flatten(line)), P.StepLine(st, line, cpu))
  {
    hide P.Execute, P.LineOk, P.ProgramLabel, P.Evaluated, P.Args;
  }

  // ---------------------------------------------------------------------------
  // A pass

  lemma OkLines(prog: seq<Line>)
    ensures P.ProgramOk(prog)
  {
    hide P.LineOk;
    forall line | line in prog ensures P.LineOk(line) {
      var i :| 0 <= i < |prog| && prog[i] == line;
    }
  }

  ghost predicate Reads(m: Machine<P.State, Line, bool>, lines: seq<Flat<Line>>, pos: nat) {
    |m.files| == 1 && m.files[0].lines == lines && m.files[0].pos == pos
  }

  lemma {:induction false} RunMirrors(m: Machine<P.State, Line, bool>, st: P.State, prog: seq<Line>, k: nat,
      cpu: P.Processor)
    requires k <= |prog| && Mirrors(m, st) && Reads(m, FlatLines(prog), k)
    ensures P.ProgramOk(prog[k..])
    ensures var r := Steps(HostOf(cpu), [], m, |prog| - k);
            Mirrors(r, P.Run(st, prog[k..], cpu)) && Reads(r, FlatLines(prog), |prog|)
    decreases |prog| - k
  {
    hide P.LineOk, P.StepLine, Dispatch, Mirrors;
    OkLines(prog[k..]);
    if k < |prog| {
      var line := prog[k];
      var m' := Step(HostOf(cpu), [], m);
      StepMirrors(m, st, prog, k, cpu);
      RunMirrors(m', P.StepLine(st, line, cpu), prog, k + 1, cpu);
      assert prog[k..][1..] == prog[k + 1..] && prog[k..][0] == line;
    }
  }

  lemma StepMirrors(m: Machine<P.State, Line, bool>, st: P.State, prog: seq<Line>, k: nat, cpu: P.Processor)
    requires k < |prog| && Mirrors(m, st) && Reads(m, FlatLines(prog), k)
    ensures var r := Step(HostOf(cpu), [], m);
            Mirrors(r, P.StepLine(st, prog[k], cpu)) && Reads(r, FlatLines(prog), k + 1)
  {
    hide P.LineOk, P.StepLine, P.Execute, P.ProgramLabel, Dispatch, HostOf, Flatten, Mirrors;
    var m1 := Jump(m, k + 1);
    JumpMirrors(m, st, k + 1);
    DispatchReads(m1, prog[k], cpu);
    if st.fault {
      DeadMirrors(m1, st, prog[k], cpu);
    } else {
      LineMirrors(m1, st, prog[k], cpu);
    }
  }

  lemma JumpMirrors(m: Machine<P.State, Line, bool>, st: P.State, pos: nat)
    requires Mirrors(m, st)
    ensures Mirrors(Jump(m, pos), st)
  {
    hide Bare;
  }

  lemma DispatchReads(m: Machine<P.State, Line, bool>, line: Line, cpu: P.Processor)
    requires m.files != []
    ensures Dispatch(HostOf(cpu), [], m, Flatten(line)).files == m.files
  {
    hide HostOf;
  }

  lemma {:induction false} DropAll(ifs: seq<IfFrame>)
    requires forall i :: 0 <= i < |ifs| ==> ifs[i].file == 1
    ensures DropIfs(ifs, 1) == []
  {
    if ifs != [] {
      DropAll(Pop(ifs));
    }
  }

  lemma StepsUnique(host: Host<P.State, Line, bool>, m: Machine<P.State, Line, bool>, i: nat, j: nat)
    requires Steps(host, [], m, i).files == [] && Steps(host, [], m, j).files == []
    ensures Steps(host, [], m, i) == Steps(host, [], m, j)
  {
    hide Steps;
    if i <= j {
      StepsAdd(host, [], m, i, j - i);
      StepsHalted(host, [], Steps(host, [], m, i), j - i);
    } else {
      StepsAdd(host, [], m, j, i - j);
      StepsHalted(host, [], Steps(host, [], m, j), i - j);
    }
  }

  /** The end of the source file. */
  lemma PassEnds(m: Machine<P.State, Line, bool>, st: P.State, lines: seq<Flat<Line>>, cpu: P.Processor)
    requires Mirrors(m, st) && Reads(m, lines, |lines|)
    ensures Step(HostOf(cpu), [], m).files == [] && Step(HostOf(cpu), [], m).c.w == Bare(st)
  {
    hide HostOf, Bare;
  }

  /** A pass over a structured program with conditionals leaves the state the structured meaning gives:
      of each conditional exactly the lines of the selected branch are assembled, and of one that is
      not resolved, none. */
  lemma PassRunsProgram(prog: seq<Line>, b: S.Block<Line>, st: P.State, cpu: P.Processor)
    requires FlatLines(prog) == S.Lines(b) && st.ifs == []
    ensures P.ProgramOk(prog)
    ensures Bare(P.Run(st, prog, cpu)) == S.Run(HostOf(cpu), [], Config(st, S.NAMES), false, 0, b).w
  {
    hide Steps, P.Run, P.LineOk, Step, S.Run, S.Lines, FlatLines;
    var host := HostOf(cpu);
    var m := S.Start(host, st, FlatLines(prog));
    assert prog[0..] == prog;
    assert Mirrors(m, st);
    RunMirrors(m, st, prog, 0, cpu);
    var r := Steps(host, [], m, |prog|);
    FlatLength(prog);
    PassEnds(r, P.Run(st, prog, cpu), FlatLines(prog), cpu);
    StepsAdd(host, [], m, |prog|, 1);
    OneStep(host, r);
    var n := S.MachineRunsProgram(host, [], st, b);
    StepsUnique(host, m, |prog| + 1, n);
  }

  lemma FlatLength(prog: seq<Line>)
    ensures |FlatLines(prog)| == |prog|
  {
  }

  lemma OneStep(host: Host<P.State, Line, bool>, m: Machine<P.State, Line, bool>)
    ensures Steps(host, [], m, 1) == Step(host, [], m)
  {
    hide Step;
    assert Steps(host, [], m, 1) == Steps(host, [], Step(host, [], m), 0);
  }
}
