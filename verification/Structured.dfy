/** Structured programs, what they mean, and that the line machine gives their flat text this
    meaning: conditionals, loops, macro calls and included files nest as they are written. */
module Structured {
  import opened Operators
  import opened Symbols
  import opened LineMachine

  // ---------------------------------------------------------------------------
  // Programs

  datatype Block<+L> = Done | Then(s: Stmt<L>, rest: Block<L>)

  datatype Stmt<+L> =
    | Simple(l: L)
    | Subroutine(l: L)
    | If(l: L, yes: Block<L>, endifLine: L)
    | IfElse(l: L, yes: Block<L>, elseLine: L, no: Block<L>, endifLine: L)
    | Repeat(l: L, body: Block<L>, rependLine: L)
    | Call(l: L, callee: nat)
    | Include(l: L, file: Block<L>)

  /** The text of a program. */
  function Lines<L>(b: Block<L>): seq<Flat<L>> {
    match b
    case Done => []
    case Then(s, rest) => StmtLines(s) + Lines(rest)
  }

  function StmtLines<L>(s: Stmt<L>): (r: seq<Flat<L>>)
    ensures r != []
  {
    match s
    case Simple(l) => [Plain(l)]
    case Subroutine(l) => [SubroutineLine(l)]
    case If(l, yes, endifLine) => [IfLine(l)] + Lines(yes) + [EndifLine(endifLine)]
    case IfElse(l, yes, elseLine, no, endifLine) =>
      [IfLine(l)] + Lines(yes) + [ElseLine(elseLine)] + Lines(no) + [EndifLine(endifLine)]
    case Repeat(l, body, rependLine) => [RepeatLine(l)] + Lines(body) + [RependLine(rependLine)]
    case Call(l, callee) => [CallLine(l, callee)]
    case Include(l, file) => [IncludeLine(l, Lines(file))]
  }

  /** A macro: a program, and where it ends. That is the end of its text, or a MEXIT outside all its
      conditionals and loops, behind which anything may stand. */
  datatype Macro<+L> =
    | Whole(body: Block<L>)
    | Exits(body: Block<L>, exitLine: L, tail: seq<Flat<L>>)

  /** What stands behind the program of a macro. */
  function AfterBody<L>(macro: Macro<L>): seq<Flat<L>> {
    match macro
    case Whole(_) => []
    case Exits(_, exitLine, tail) => [MexitLine(exitLine)] + tail
  }

  function MacroLines<L>(macro: Macro<L>): seq<Flat<L>> {
    Lines(macro.body) + AfterBody(macro)
  }

  function AllLines<L>(macros: seq<Macro<L>>): (r: seq<seq<Flat<L>>>)
    ensures |r| == |macros| && forall i :: 0 <= i < |r| ==> r[i] == MacroLines(macros[i])
  {
    seq(|macros|, i requires 0 <= i < |macros| => MacroLines(macros[i]))
  }

  function Callee<L>(macros: seq<Macro<L>>, i: nat): Macro<L> {
    if i < |macros| then macros[i] else Whole(Done)
  }

  // ---------------------------------------------------------------------------
  // Meaning

  /** How often the body of a loop is run. A loop whose count is unknown but positive is run once,
      and another pass is asked for. */
  function Rounds(a: Arg): nat {
    if a.value <= 0 then 0 else if a.unknown then 1 else a.value
  }

  /** What is reported about a loop's count. */
  function NoteCount<W, L, A>(host: Host<W, L, A>, c: Config<W>, a: Arg): Config<W> {
    if a.value < 0 then Note(host, c, RepeatNegative)
    else if a.value > 0 && a.unknown then Note(host, c, RepeatNotResolved)
    else c
  }

  function Run<W, L, A>(host: Host<W, L, A>, macros: seq<Macro<L>>, c: Config<W>, a: A, level: nat,
      b: Block<L>): Config<W>
    requires level <= MAXMACLEVEL
    decreases MAXMACLEVEL - level, b, 0
  {
    match b
    case Done => c
    case Then(s, rest) => Run(host, macros, RunStmt(host, macros, c, a, level, s), a, level, rest)
  }

  /** A conditional runs the branch its operand selects, and neither if the operand is unknown. The
      labels of ELSE and ENDIF are set whenever the operand is known. */
  function RunStmt<W, L, A>(host: Host<W, L, A>, macros: seq<Macro<L>>, c: Config<W>, a: A, level: nat,
      s: Stmt<L>): Config<W>
    requires level <= MAXMACLEVEL
    decreases MAXMACLEVEL - level, s, 0
  {
    match s
    case Simple(l) => DoPlain(host, c, a, l)
    case Subroutine(l) => DoSubroutine(host, c, a, l)
    case If(l, yes, endifLine) =>
      var (c1, x) := Test(host, c, a, l);
      if x.unknown then Note(host, c1, IfNotResolved)
      else SetLabel(host, if x.value != 0 then Run(host, macros, c1, a, level, yes) else c1, a, endifLine)
    case IfElse(l, yes, elseLine, no, endifLine) =>
      var (c1, x) := Test(host, c, a, l);
      if x.unknown then Note(host, c1, IfNotResolved)
      else if x.value != 0 then
        SetLabel(host, SetLabel(host, Run(host, macros, c1, a, level, yes), a, elseLine), a, endifLine)
      else SetLabel(host, Run(host, macros, SetLabel(host, c1, a, elseLine), a, level, no), a, endifLine)
    case Repeat(l, body, rependLine) =>
      var (c1, x) := Test(host, c, a, l);
      SetLabel(host, RunTimes(host, macros, NoteCount(host, c1, x), a, level, body, Rounds(x)), a, rependLine)
    case Call(l, callee) =>
      var c1 := SetLabel(host, c, a, l);
      if level == MAXMACLEVEL then Note(host, c1, TooDeep)
      else
        var c2 := c1.(names := EnterMacro(c1.names));
        var c3 := Run(host, macros, c2, host.bind(a, l), level + 1, Callee(macros, callee).body);
        c3.(names := c3.names.(scope := c1.names.scope))
    case Include(l, file) => Run(host, macros, SetLabel(host, c, a, l), host.noArgs, level, file)
  }

  /** The label and the operand of a conditional or a loop. */
  function Test<W, L, A>(host: Host<W, L, A>, c: Config<W>, a: A, l: L): (Config<W>, Arg) {
    var c1 := SetLabel(host, c, a, l);
    var (w, x) := host.test(c1.w, c1.names.scope, a, l);
    (c1.(w := w), x)
  }

  function RunTimes<W, L, A>(host: Host<W, L, A>, macros: seq<Macro<L>>, c: Config<W>, a: A, level: nat,
      body: Block<L>, n: nat): Config<W>
    requires level <= MAXMACLEVEL
    decreases MAXMACLEVEL - level, body, n
  {
    if n == 0 then c
    else RunTimes(host, macros, Run(host, macros, c, a, level, body), a, level, body, n - 1)
  }

  // ---------------------------------------------------------------------------
  // Reading lines

  /** The machine is about to read these lines. */
  ghost predicate At<W, L, A>(m: Machine<W, L, A>, lines: seq<Flat<L>>) {
    m.files != [] &&
    var top := Top(m.files);
    top.pos + |lines| <= |top.lines| && top.lines[top.pos..top.pos + |lines|] == lines
  }

  /** The machine when it has read k lines and is back where it was, with this new state. */
  function After<W, L, A>(m: Machine<W, L, A>, k: nat, c: Config<W>): Machine<W, L, A>
    requires m.files != []
  {
    Jump(m, Top(m.files).pos + k).(c := c)
  }

  lemma AtHead<W, L, A>(m: Machine<W, L, A>, lines: seq<Flat<L>>)
    requires At(m, lines) && lines != []
    ensures Top(m.files).pos < |Top(m.files).lines| && Top(m.files).lines[Top(m.files).pos] == lines[0]
  {
    var top := Top(m.files);
    assert top.lines[top.pos..top.pos + |lines|][0] == lines[0];
  }

  lemma AtParts<W, L, A>(m: Machine<W, L, A>, a: seq<Flat<L>>, b: seq<Flat<L>>, c: Config<W>)
    requires At(m, a + b)
    ensures At(m, a) && At(After(m, |a|, c), b)
  {
    var top := Top(m.files);
    var lines := a + b;
    assert top.lines[top.pos..top.pos + |a|] == lines[..|a|] == a;
    assert top.lines[top.pos + |a|..top.pos + |lines|] == lines[|a|..] == b;
  }

  lemma AfterAfter<W, L, A>(m: Machine<W, L, A>, j: nat, c: Config<W>, k: nat, d: Config<W>)
    requires m.files != []
    ensures After(After(m, j, c), k, d) == After(m, j + k, d)
  {
    assert SetTop(SetTop(m.files, Top(m.files).(pos := Top(m.files).pos + j)),
        Top(m.files).(pos := Top(m.files).pos + j + k))
        == SetTop(m.files, Top(m.files).(pos := Top(m.files).pos + j + k));
  }

  lemma StepAt<W, L, A>(host: Host<W, L, A>, macros: seq<seq<Flat<L>>>, m: Machine<W, L, A>, lines: seq<Flat<L>>)
    requires At(m, lines) && lines != []
    ensures Steps(host, macros, m, 1) == Dispatch(host, macros, After(m, 1, m.c), lines[0])
  {
    hide Dispatch;
    AtHead(m, lines);
    assert Steps(host, macros, m, 1) == Steps(host, macros, Step(host, macros, m), 0);
  }

  lemma AtThree<W, L, A>(m: Machine<W, L, A>, x: Flat<L>, b: seq<Flat<L>>, ys: seq<Flat<L>>, c: Config<W>, d: Config<W>)
    requires At(m, [x] + b + ys)
    ensures At(m, [x]) && At(After(m, 1, c), b) && At(After(m, 1 + |b|, d), ys)
  {
    AtParts(m, [x] + b, ys, d);
    AtParts(m, [x], b, c);
  }

  lemma Chain<W, L, A>(host: Host<W, L, A>, macros: seq<seq<Flat<L>>>, m: Machine<W, L, A>, j: nat,
      m1: Machine<W, L, A>, k: nat, m2: Machine<W, L, A>)
    requires Steps(host, macros, m, j) == m1 && Steps(host, macros, m1, k) == m2
    ensures Steps(host, macros, m, j + k) == m2
  {
    StepsAdd(host, macros, m, j, k);
  }

  /** Reading lines changes nothing but the place and the state. */
  lemma AfterFrame<W, L, A>(m: Machine<W, L, A>, k: nat, c: Config<W>)
    requires m.files != []
    ensures var r := After(m, k, c);
            && r.c == c && |r.files| == |m.files| && Pop(r.files) == Pop(m.files) && Args(r) == Args(m)
            && r.ifs == m.ifs && r.loops == m.loops && r.level == m.level
  {
  }

  /** Frames belong to files that are being read. */
  ghost predicate Sane<W, L, A>(m: Machine<W, L, A>) {
    && (forall i :: 0 <= i < |m.ifs| ==> m.ifs[i].file <= |m.files|)
    && (forall i :: 0 <= i < |m.loops| ==> m.loops[i].file <= |m.files|)
  }

  // ---------------------------------------------------------------------------
  // Inside a conditional or a loop

  /** The machine k lines further on, with a frame pushed since. */
  function Inside<W, L, A>(m: Machine<W, L, A>, k: nat, c: Config<W>, xtrue: bool, acctrue: bool): (r: Machine<W, L, A>)
    requires m.files != []
    ensures r.files != [] && Args(r) == Args(m) && r.c == c && r.loops == m.loops && r.level == m.level
    ensures Active(r.ifs) <==> xtrue && acctrue
    ensures Sane(m) ==> Sane(r)
  {
    After(m, k, c).(ifs := m.ifs + [IfFrame(|m.files|, xtrue, acctrue)])
  }

  lemma InsideAfter<W, L, A>(m: Machine<W, L, A>, k: nat, c: Config<W>, xtrue: bool, acctrue: bool, j: nat,
      d: Config<W>)
    requires m.files != []
    ensures After(Inside(m, k, c, xtrue, acctrue), j, d) == Inside(m, k + j, d, xtrue, acctrue)
  {
    AfterAfter(m, k, c, j, d);
  }

  lemma InsideAt<W, L, A>(m: Machine<W, L, A>, k: nat, c: Config<W>, xtrue: bool, acctrue: bool, lines: seq<Flat<L>>)
    requires m.files != []
    ensures At(Inside(m, k, c, xtrue, acctrue), lines) == At(After(m, k, c), lines)
  {
  }

  function LabelIf<W, L, A>(host: Host<W, L, A>, c: Config<W>, a: A, l: L, acctrue: bool): Config<W> {
    if acctrue then SetLabel(host, c, a, l) else c
  }

  /** ELSE turns the conditional over if it was met while assembling. */
  lemma ElseInside<W, L, A>(host: Host<W, L, A>, macros: seq<seq<Flat<L>>>, m: Machine<W, L, A>, k: nat, c: Config<W>,
      xtrue: bool, acctrue: bool, l: L)
    requires m.files != [] && At(After(m, k, c), [ElseLine(l)])
    ensures Steps(host, macros, Inside(m, k, c, xtrue, acctrue), 1)
         == Inside(m, k + 1, LabelIf(host, c, Args(m), l, acctrue), xtrue != acctrue, acctrue)
  {
    InsideAt(m, k, c, xtrue, acctrue, [ElseLine(l)]);
    StepAt(host, macros, Inside(m, k, c, xtrue, acctrue), [ElseLine(l)]);
    InsideAfter(m, k, c, xtrue, acctrue, 1, c);
  }

  /** ENDIF ends it, and so does REPEND where it is not active. */
  lemma CloseInside<W, L, A>(host: Host<W, L, A>, macros: seq<seq<Flat<L>>>, m: Machine<W, L, A>, k: nat, c: Config<W>,
      xtrue: bool, acctrue: bool, line: Flat<L>)
    requires m.files != [] && At(After(m, k, c), [line])
    requires line.EndifLine? || (line.RependLine? && !(xtrue && acctrue))
    ensures Steps(host, macros, Inside(m, k, c, xtrue, acctrue), 1)
         == After(m, k + 1, LabelIf(host, c, Args(m), line.l, acctrue))
  {
    InsideAt(m, k, c, xtrue, acctrue, [line]);
    StepAt(host, macros, Inside(m, k, c, xtrue, acctrue), [line]);
    InsideAfter(m, k, c, xtrue, acctrue, 1, c);
  }

  // ---------------------------------------------------------------------------
  // Lines that are skipped

  lemma {:induction false} SkipsBlock<W, L, A>(host: Host<W, L, A>, macros: seq<seq<Flat<L>>>, m: Machine<W, L, A>,
      b: Block<L>)
    requires At(m, Lines(b)) && !Active(m.ifs)
    ensures Steps(host, macros, m, |Lines(b)|) == After(m, |Lines(b)|, m.c)
    decreases b, 0
  {
    hide StmtLines;
    match b
    case Done =>
    case Then(s, rest) =>
      var m1 := After(m, |StmtLines(s)|, m.c);
      AtParts(m, StmtLines(s), Lines(rest), m.c);
      SkipsStmt(host, macros, m, s);
      SkipsBlock(host, macros, m1, rest);
      AfterAfter(m, |StmtLines(s)|, m.c, |Lines(rest)|, m.c);
      Chain(host, macros, m, |StmtLines(s)|, m1, |Lines(rest)|, After(m, |Lines(b)|, m.c));
  }

  lemma {:induction false} SkipsStmt<W, L, A>(host: Host<W, L, A>, macros: seq<seq<Flat<L>>>, m: Machine<W, L, A>,
      s: Stmt<L>)
    requires At(m, StmtLines(s)) && !Active(m.ifs)
    ensures Steps(host, macros, m, |StmtLines(s)|) == After(m, |StmtLines(s)|, m.c)
    decreases s, 1
  {
    match s
    case If(l, yes, endifLine) => SkipsBody(host, macros, m, IfLine(l), yes, EndifLine(endifLine));
    case Repeat(l, body, rependLine) => SkipsBody(host, macros, m, RepeatLine(l), body, RependLine(rependLine));
    case IfElse(l, yes, elseLine, no, endifLine) => SkipsElse(host, macros, m, s);
    case _ => StepAt(host, macros, m, StmtLines(s));
  }

  lemma SkipOpen<W, L, A>(host: Host<W, L, A>, macros: seq<seq<Flat<L>>>, m: Machine<W, L, A>, line: Flat<L>)
    requires At(m, [line]) && !Active(m.ifs) && (line.IfLine? || line.RepeatLine?)
    ensures Steps(host, macros, m, 1) == Inside(m, 1, m.c, false, false)
  {
    StepAt(host, macros, m, [line]);
  }

  lemma SkipInside<W, L, A>(host: Host<W, L, A>, macros: seq<seq<Flat<L>>>, m: Machine<W, L, A>, k: nat, c: Config<W>,
      xtrue: bool, acctrue: bool, b: Block<L>)
    requires m.files != [] && At(After(m, k, c), Lines(b)) && !(xtrue && acctrue)
    ensures Steps(host, macros, Inside(m, k, c, xtrue, acctrue), |Lines(b)|)
        == Inside(m, k + |Lines(b)|, c, xtrue, acctrue)
    decreases b, 1
  {
    hide Steps, Lines, At;
    InsideAt(m, k, c, xtrue, acctrue, Lines(b));
    SkipsBlock(host, macros, Inside(m, k, c, xtrue, acctrue), b);
    InsideAfter(m, k, c, xtrue, acctrue, |Lines(b)|, c);
  }

  lemma SkipsBody<W, L, A>(host: Host<W, L, A>, macros: seq<seq<Flat<L>>>, m: Machine<W, L, A>, first: Flat<L>,
      b: Block<L>, last: Flat<L>)
    requires At(m, [first] + Lines(b) + [last]) && !Active(m.ifs)
    requires (first.IfLine? || first.RepeatLine?) && (last.EndifLine? || last.RependLine?)
    ensures Steps(host, macros, m, 2 + |Lines(b)|) == After(m, 2 + |Lines(b)|, m.c)
    decreases b, 2
  {
    hide Steps, Lines, After, Inside, At;
    var (c, n) := (m.c, |Lines(b)|);
    AtThree(m, first, Lines(b), [last], c, c);
    SkipOpen(host, macros, m, first);
    SkipInside(host, macros, m, 1, c, false, false, b);
    Chain(host, macros, m, 1, Inside(m, 1, c, false, false), n, Inside(m, 1 + n, c, false, false));
    CloseInside(host, macros, m, 1 + n, c, false, false, last);
    Chain(host, macros, m, 1 + n, Inside(m, 1 + n, c, false, false), 1, After(m, 2 + n, c));
  }

  lemma SkipsElse<W, L, A>(host: Host<W, L, A>, macros: seq<seq<Flat<L>>>, m: Machine<W, L, A>, s: Stmt<L>)
    requires s.IfElse? && At(m, StmtLines(s)) && !Active(m.ifs)
    ensures Steps(host, macros, m, |StmtLines(s)|) == After(m, |StmtLines(s)|, m.c)
    decreases s, 0
  {
    hide Steps, Lines, After, Inside, At;
    var (c, y, n) := (m.c, |Lines(s.yes)|, |Lines(s.no)|);
    var (first, last) := (IfLine(s.l), EndifLine(s.endifLine));
    AtFive(m, s, c, c, c, c);
    SkipOpen(host, macros, m, first);
    SkipInside(host, macros, m, 1, c, false, false, s.yes);
    Chain(host, macros, m, 1, Inside(m, 1, c, false, false), y, Inside(m, 1 + y, c, false, false));
    ElseInside(host, macros, m, 1 + y, c, false, false, s.elseLine);
    Chain(host, macros, m, 1 + y, Inside(m, 1 + y, c, false, false), 1, Inside(m, 2 + y, c, false, false));
    SkipInside(host, macros, m, 2 + y, c, false, false, s.no);
    Chain(host, macros, m, 2 + y, Inside(m, 2 + y, c, false, false), n, Inside(m, 2 + y + n, c, false, false));
    CloseInside(host, macros, m, 2 + y + n, c, false, false, last);
    Chain(host, macros, m, 2 + y + n, Inside(m, 2 + y + n, c, false, false), 1, After(m, 3 + y + n, c));
  }

  lemma FiveLines<L>(s: Stmt<L>)
    requires s.IfElse?
    ensures StmtLines(s)
        == [IfLine(s.l)] + Lines(s.yes) + ([ElseLine(s.elseLine)] + Lines(s.no) + [EndifLine(s.endifLine)])
    ensures |StmtLines(s)| == 3 + |Lines(s.yes)| + |Lines(s.no)|
  {
    hide Lines;
  }

  /** Where the five parts of a conditional with ELSE are. */
  lemma AtFive<W, L, A>(m: Machine<W, L, A>, s: Stmt<L>, c1: Config<W>, c2: Config<W>, c3: Config<W>, c4: Config<W>)
    requires s.IfElse? && At(m, StmtLines(s))
    ensures m.files != []
    ensures var (y, n) := (|Lines(s.yes)|, |Lines(s.no)|);
            && |StmtLines(s)| == 3 + y + n
            && At(m, [IfLine(s.l)]) && At(After(m, 1, c1), Lines(s.yes))
            && At(After(m, 1 + y, c2), [ElseLine(s.elseLine)]) && At(After(m, 2 + y, c3), Lines(s.no))
            && At(After(m, 2 + y + n, c4), [EndifLine(s.endifLine)])
  {
    var y := |Lines(s.yes)|;
    var tail := [ElseLine(s.elseLine)] + Lines(s.no) + [EndifLine(s.endifLine)];
    FiveLines(s);
    hide *;
    AtThree(m, IfLine(s.l), Lines(s.yes), tail, c1, c2);
    AtThree(After(m, 1 + y, c2), ElseLine(s.elseLine), Lines(s.no), [EndifLine(s.endifLine)], c3, c4);
    AfterAfter(m, 1 + y, c2, 1, c3);
    AfterAfter(m, 1 + y, c2, 1 + |Lines(s.no)|, c4);
  }

  // ---------------------------------------------------------------------------
  // Lines that are run

  /** What is assumed of the machine when it is about to run some lines. */
  ghost predicate Ready<W, L, A>(m: Machine<W, L, A>, level: nat, lines: seq<Flat<L>>) {
    m.files != [] && At(m, lines) && Active(m.ifs) && Sane(m) && m.level == level <= MAXMACLEVEL
  }

  /** The state in which a branch ends: it is run where it is active. */
  function RunIf<W, L, A>(host: Host<W, L, A>, macros: seq<Macro<L>>, c: Config<W>, a: A, level: nat, b: Block<L>,
      active: bool): Config<W>
    requires level <= MAXMACLEVEL
  {
    if active then Run(host, macros, c, a, level, b) else c
  }

  lemma {:induction false} RunsBlock<W, L, A>(host: Host<W, L, A>, macros: seq<Macro<L>>, m: Machine<W, L, A>,
      level: nat, b: Block<L>) returns (n: nat)
    requires Ready(m, level, Lines(b))
    ensures Steps(host, AllLines(macros), m, n) == After(m, |Lines(b)|, Run(host, macros, m.c, Args(m), level, b))
    decreases MAXMACLEVEL - level, b, 0
  {
    hide StmtLines, RunStmt, Steps;
    match b
    case Done =>
      n := 0;
      assert After(m, 0, m.c) == m;
      NoSteps(host, AllLines(macros), m);
    case Then(s, rest) =>
      var k := |StmtLines(s)|;
      var c1 := RunStmt(host, macros, m.c, Args(m), level, s);
      var m1 := After(m, k, c1);
      AtParts(m, StmtLines(s), Lines(rest), c1);
      var j := RunsStmt(host, macros, m, level, s);
      AfterFrame(m, k, c1);
      var i := RunsBlock(host, macros, m1, level, rest);
      var c2 := Run(host, macros, c1, Args(m), level, rest);
      AfterAfter(m, k, c1, |Lines(rest)|, c2);
      n := j + i;
      Chain(host, AllLines(macros), m, j, m1, i, After(m, |Lines(b)|, c2));
  }

  lemma NoSteps<W, L, A>(host: Host<W, L, A>, macros: seq<seq<Flat<L>>>, m: Machine<W, L, A>)
    ensures Steps(host, macros, m, 0) == m
  {
  }

  lemma {:induction false} RunsStmt<W, L, A>(host: Host<W, L, A>, macros: seq<Macro<L>>, m: Machine<W, L, A>,
      level: nat, s: Stmt<L>) returns (n: nat)
    requires Ready(m, level, StmtLines(s))
    ensures Steps(host, AllLines(macros), m, n)
        == After(m, |StmtLines(s)|, RunStmt(host, macros, m.c, Args(m), level, s))
    decreases MAXMACLEVEL - level, s, 2
  {
    hide Steps;
    match s
    case If(_, _, _) => n := RunsIf(host, macros, m, level, s);
    case IfElse(_, _, _, _, _) => n := RunsIfElse(host, macros, m, level, s);
    case Repeat(_, _, _) => n := RunsRepeat(host, macros, m, level, s);
    case Call(_, _) => n := RunsCall(host, macros, m, level, s);
    case Include(_, _) => n := RunsInclude(host, macros, m, level, s);
    case Simple(_) =>
      n := 1;
      StepAt(host, AllLines(macros), m, StmtLines(s));
    case Subroutine(_) =>
      n := 1;
      StepAt(host, AllLines(macros), m, StmtLines(s));
  }

  /** IF pushes a frame that is active just if the operand is known and not zero. */
  lemma OpenIf<W, L, A>(host: Host<W, L, A>, macros: seq<seq<Flat<L>>>, m: Machine<W, L, A>, l: L)
    requires At(m, [IfLine(l)]) && Active(m.ifs)
    ensures var (c1, x) := Test(host, m.c, Args(m), l);
            var c2 := if x.unknown then Note(host, c1, IfNotResolved) else c1;
            var r := Inside(m, 1, c2, !x.unknown && x.value != 0, !x.unknown);
            Steps(host, macros, m, 1) == r
  {
    StepAt(host, macros, m, [IfLine(l)]);
  }

  /** A block inside a frame is run or skipped as the frame says. */
  lemma {:induction false} EitherInside<W, L, A>(host: Host<W, L, A>, macros: seq<Macro<L>>, m: Machine<W, L, A>,
      k: nat, c: Config<W>, xtrue: bool, acctrue: bool, level: nat, b: Block<L>) returns (n: nat)
    requires m.files != [] && At(After(m, k, c), Lines(b)) && Sane(m) && m.level == level <= MAXMACLEVEL
    ensures Steps(host, AllLines(macros), Inside(m, k, c, xtrue, acctrue), n)
         == Inside(m, k + |Lines(b)|, RunIf(host, macros, c, Args(m), level, b, xtrue && acctrue), xtrue, acctrue)
    decreases MAXMACLEVEL - level, b, 1
  {
    hide Steps, Lines, At, After, Run;
    if xtrue && acctrue {
      InsideAt(m, k, c, xtrue, acctrue, Lines(b));
      n := RunsBlock(host, macros, Inside(m, k, c, xtrue, acctrue), level, b);
      InsideAfter(m, k, c, xtrue, acctrue, |Lines(b)|, Run(host, macros, c, Args(m), level, b));
    } else {
      n := |Lines(b)|;
      SkipInside(host, AllLines(macros), m, k, c, xtrue, acctrue, b);
    }
  }

  lemma {:induction false} RunsIf<W, L, A>(host: Host<W, L, A>, macros: seq<Macro<L>>, m: Machine<W, L, A>, level: nat,
      s: Stmt<L>) returns (n: nat)
    requires s.If? && Ready(m, level, StmtLines(s))
    ensures Steps(host, AllLines(macros), m, n)
        == After(m, |StmtLines(s)|, RunStmt(host, macros, m.c, Args(m), level, s))
    decreases MAXMACLEVEL - level, s, 0
  {
    hide Steps, Lines, At, After, Run, Inside, SetLabel, Test;
    var all := AllLines(macros);
    var y := |Lines(s.yes)|;
    var (c0, x) := Test(host, m.c, Args(m), s.l);
    var acctrue := !x.unknown;
    var xtrue := acctrue && x.value != 0;
    var c1 := if acctrue then c0 else Note(host, c0, IfNotResolved);
    var c2 := RunIf(host, macros, c1, Args(m), level, s.yes, xtrue && acctrue);
    var c3 := LabelIf(host, c2, Args(m), s.endifLine, acctrue);
    AtThree(m, IfLine(s.l), Lines(s.yes), [EndifLine(s.endifLine)], c1, c2);
    OpenIf(host, all, m, s.l);
    var j := EitherInside(host, macros, m, 1, c1, xtrue, acctrue, level, s.yes);
    Chain(host, all, m, 1, Inside(m, 1, c1, xtrue, acctrue), j, Inside(m, 1 + y, c2, xtrue, acctrue));
    CloseInside(host, all, m, 1 + y, c2, xtrue, acctrue, EndifLine(s.endifLine));
    n := 1 + j + 1;
    Chain(host, all, m, 1 + j, Inside(m, 1 + y, c2, xtrue, acctrue), 1, After(m, 2 + y, c3));
  }

  lemma {:induction false} RunsIfElse<W, L, A>(host: Host<W, L, A>, macros: seq<Macro<L>>, m: Machine<W, L, A>,
      level: nat, s: Stmt<L>) returns (n: nat)
    requires s.IfElse? && Ready(m, level, StmtLines(s))
    ensures Steps(host, AllLines(macros), m, n)
        == After(m, |StmtLines(s)|, RunStmt(host, macros, m.c, Args(m), level, s))
    decreases MAXMACLEVEL - level, s, 0
  {
    hide Steps, Lines, At, After, Run, Inside, SetLabel, Test;
    var all := AllLines(macros);
    var (y, z) := (|Lines(s.yes)|, |Lines(s.no)|);
    var (c0, x) := Test(host, m.c, Args(m), s.l);
    var acctrue := !x.unknown;
    var xtrue := acctrue && x.value != 0;
    var c1 := if acctrue then c0 else Note(host, c0, IfNotResolved);
    var c2 := RunIf(host, macros, c1, Args(m), level, s.yes, xtrue && acctrue);
    var c3 := LabelIf(host, c2, Args(m), s.elseLine, acctrue);
    var turned := xtrue != acctrue;
    var c4 := RunIf(host, macros, c3, Args(m), level, s.no, turned && acctrue);
    var c5 := LabelIf(host, c4, Args(m), s.endifLine, acctrue);
    AtFive(m, s, c1, c2, c3, c4);
    OpenIf(host, all, m, s.l);
    var j := EitherInside(host, macros, m, 1, c1, xtrue, acctrue, level, s.yes);
    Chain(host, all, m, 1, Inside(m, 1, c1, xtrue, acctrue), j, Inside(m, 1 + y, c2, xtrue, acctrue));
    ElseInside(host, all, m, 1 + y, c2, xtrue, acctrue, s.elseLine);
    Chain(host, all, m, 1 + j, Inside(m, 1 + y, c2, xtrue, acctrue), 1, Inside(m, 2 + y, c3, turned, acctrue));
    var i := EitherInside(host, macros, m, 2 + y, c3, turned, acctrue, level, s.no);
    Chain(host, all, m, 2 + j, Inside(m, 2 + y, c3, turned, acctrue), i, Inside(m, 2 + y + z, c4, turned, acctrue));
    CloseInside(host, all, m, 2 + y + z, c4, turned, acctrue, EndifLine(s.endifLine));
    n := 2 + j + i + 1;
    Chain(host, all, m, 2 + j + i, Inside(m, 2 + y + z, c4, turned, acctrue), 1, After(m, 3 + y + z, c5));
  }

  // ---------------------------------------------------------------------------
  // Loops

  /** The machine in the body of a loop. */
  function InLoop<W, L, A>(m: Machine<W, L, A>, k: nat, c: Config<W>, count: Count,
      unresolved: bool): (r: Machine<W, L, A>)
    requires m.files != []
    ensures r.files != [] && Args(r) == Args(m) && r.c == c && r.level == m.level
    ensures Active(r.ifs) && (Sane(m) ==> Sane(r))
  {
    Inside(m, k, c, true, true).(loops := m.loops + [LoopFrame(|m.files|, count, Top(m.files).pos + 1, unresolved)])
  }

  lemma {:induction false} RunsRepeat<W, L, A>(host: Host<W, L, A>, macros: seq<Macro<L>>, m: Machine<W, L, A>,
      level: nat, s: Stmt<L>) returns (n: nat)
    requires s.Repeat? && Ready(m, level, StmtLines(s))
    ensures Steps(host, AllLines(macros), m, n)
        == After(m, |StmtLines(s)|, RunStmt(host, macros, m.c, Args(m), level, s))
    decreases MAXMACLEVEL - level, s, 0
  {
    hide Steps, Lines, At, After, Run, Inside, SetLabel, Test;
    var all := AllLines(macros);
    var y := |Lines(s.body)|;
    var (c0, x) := Test(host, m.c, Args(m), s.l);
    var c1 := NoteCount(host, c0, x);
    AtThree(m, RepeatLine(s.l), Lines(s.body), [RependLine(s.rependLine)], c1, c1);
    OpenRepeat(host, all, m, s.l);
    if x.value <= 0 {
      SkipInside(host, all, m, 1, c1, false, true, s.body);
      Chain(host, all, m, 1, Inside(m, 1, c1, false, true), y, Inside(m, 1 + y, c1, false, true));
      CloseInside(host, all, m, 1 + y, c1, false, true, RependLine(s.rependLine));
      n := 1 + y + 1;
      Chain(host, all, m, 1 + y, Inside(m, 1 + y, c1, false, true), 1,
        After(m, 2 + y, SetLabel(host, c1, Args(m), s.rependLine)));
    } else {
      var c2 := RunTimes(host, macros, c1, Args(m), level, s.body, Rounds(x));
      var j := RunsTimes(host, macros, m, level, s, c1, x.value, x.unknown);
      n := 1 + j;
      Chain(host, all, m, 1, InLoop(m, 1, c1, x.value, x.unknown), j,
        After(m, 2 + y, SetLabel(host, c2, Args(m), s.rependLine)));
    }
  }

  /** REPEAT starts a loop, or skips its body. */
  lemma OpenRepeat<W, L, A>(host: Host<W, L, A>, macros: seq<seq<Flat<L>>>, m: Machine<W, L, A>, l: L)
    requires At(m, [RepeatLine(l)]) && Active(m.ifs)
    ensures var (c0, x) := Test(host, m.c, Args(m), l);
            var c1 := NoteCount(host, c0, x);
            var r := if x.value <= 0 then Inside(m, 1, c1, false, true) else InLoop(m, 1, c1, x.value, x.unknown);
            Steps(host, macros, m, 1) == r
  {
    StepAt(host, macros, m, [RepeatLine(l)]);
  }

  /** What is left to do of a loop. */
  function RoundsLeft(count: Count, unresolved: bool): nat {
    if unresolved then 1 else count
  }

  lemma {:induction false} RunsTimes<W, L, A>(host: Host<W, L, A>, macros: seq<Macro<L>>, m: Machine<W, L, A>,
      level: nat, s: Stmt<L>, c: Config<W>, count: Count, unresolved: bool) returns (n: nat)
    requires s.Repeat? && Ready(m, level, StmtLines(s))
    ensures var c2 := RunTimes(host, macros, c, Args(m), level, s.body, RoundsLeft(count, unresolved));
            var end := After(m, |StmtLines(s)|, SetLabel(host, c2, Args(m), s.rependLine));
            Steps(host, AllLines(macros), InLoop(m, 1, c, count, unresolved), n) == end
    decreases MAXMACLEVEL - level, s.body, RoundsLeft(count, unresolved)
  {
    hide Steps, Lines, At, After, Run, Inside, InLoop, SetLabel, RunTimes;
    var all := AllLines(macros);
    var y := |Lines(s.body)|;
    var m1 := InLoop(m, 1, c, count, unresolved);
    var c1 := Run(host, macros, c, Args(m), level, s.body);
    var rest := RunTimes(host, macros, c, Args(m), level, s.body, RoundsLeft(count, unresolved));
    var end := After(m, 2 + y, SetLabel(host, rest, Args(m), s.rependLine));
    TimesOnce(host, macros, c, Args(m), level, s.body, RoundsLeft(count, unresolved));
    TimesOnce(host, macros, c1, Args(m), level, s.body, 1);
    AtThree(m, RepeatLine(s.l), Lines(s.body), [RependLine(s.rependLine)], c, c1);
    LoopAfter(m, 1, c, count, unresolved, y, c1, Lines(s.body));
    var j := RunsBlock(host, macros, m1, level, s.body);
    CloseLoop(host, all, m, 1 + y, c1, count, unresolved, s.rependLine);
    Chain(host, all, m1, j, InLoop(m, 1 + y, c1, count, unresolved), 1,
      if !unresolved && count != 1 then InLoop(m, 1, c1, count - 1, unresolved) else end);
    n := j + 1;
    if !unresolved && count != 1 {
      var i := RunsTimes(host, macros, m, level, s, c1, count - 1, unresolved);
      Chain(host, all, m1, n, InLoop(m, 1, c1, count - 1, unresolved), i, end);
      n := n + i;
    }
  }

  lemma TimesOnce<W, L, A>(host: Host<W, L, A>, macros: seq<Macro<L>>, c: Config<W>, a: A, level: nat, body: Block<L>,
      n: nat)
    requires level <= MAXMACLEVEL && n > 0
    ensures RunTimes(host, macros, c, a, level, body, n)
        == RunTimes(host, macros, Run(host, macros, c, a, level, body), a, level, body, n - 1)
    ensures RunTimes(host, macros, c, a, level, body, 0) == c
  {
  }

  lemma LoopAfter<W, L, A>(m: Machine<W, L, A>, k: nat, c: Config<W>, count: Count, unresolved: bool, j: nat,
      d: Config<W>, lines: seq<Flat<L>>)
    requires m.files != []
    ensures After(InLoop(m, k, c, count, unresolved), j, d) == InLoop(m, k + j, d, count, unresolved)
    ensures At(InLoop(m, k, c, count, unresolved), lines) == At(After(m, k, c), lines)
  {
    AfterAfter(m, k, c, j, d);
  }

  /** REPEND goes back to the line after REPEAT, or ends the loop. */
  lemma CloseLoop<W, L, A>(host: Host<W, L, A>, macros: seq<seq<Flat<L>>>, m: Machine<W, L, A>, k: nat, c: Config<W>,
      count: Count, unresolved: bool, l: L)
    requires m.files != [] && At(After(m, k, c), [RependLine(l)])
    ensures Steps(host, macros, InLoop(m, k, c, count, unresolved), 1)
         == if !unresolved && count != 1 then InLoop(m, 1, c, count - 1, unresolved)
            else After(m, k + 1, SetLabel(host, c, Args(m), l))
  {
    LoopAfter(m, k, c, count, unresolved, 1, c, [RependLine(l)]);
    StepAt(host, macros, InLoop(m, k, c, count, unresolved), [RependLine(l)]);
  }

  // ---------------------------------------------------------------------------
  // Macros and files

  lemma CallReads<W, L, A>(host: Host<W, L, A>, macros: seq<Macro<L>>, m: Machine<W, L, A>, level: nat, s: Stmt<L>)
    requires s.Call? && Ready(m, level, StmtLines(s)) && level < MAXMACLEVEL
    ensures Ready(VExecmac(host, After(m, 1, m.c), s.l, MacroBody(AllLines(macros), s.callee)),
        level + 1, Lines(Callee(macros, s.callee).body))
  {
    hide SetLabel;
    var m1 := VExecmac(host, After(m, 1, m.c), s.l, MacroBody(AllLines(macros), s.callee));
    var macro := Callee(macros, s.callee);
    CalleeLines(macros, s.callee);
    FileReads(m1, Lines(macro.body), AfterBody(macro));
  }

  lemma FileReads<W, L, A>(m: Machine<W, L, A>, lines: seq<Flat<L>>, more: seq<Flat<L>>)
    requires m.files != [] && Top(m.files).pos == 0 && Top(m.files).lines == lines + more
    ensures At(m, lines)
  {
  }

  /** At the end of a macro, or at its MEXIT, the caller goes on with its own names. */
  lemma LeaveMacro<W, L, A>(host: Host<W, L, A>, macros: seq<seq<Flat<L>>>, m: Machine<W, L, A>, macro: Macro<L>,
      c: Config<W>)
    requires m.files != [] && Top(m.files).pos == 0 && Top(m.files).isMacro && Top(m.files).lines == MacroLines(macro)
    requires Active(m.ifs)
    ensures Steps(host, macros, After(m, |Lines(macro.body)|, c), 1)
         == m.(c := c.(names := c.names.(scope := Top(m.files).saved)), level := m.level - 1, files := Pop(m.files))
  {
    hide Lines;
    var m1 := After(m, |Lines(macro.body)|, c);
    assert Steps(host, macros, m1, 1) == Steps(host, macros, Step(host, macros, m1), 0);
    if macro.Exits? {
      assert Top(m1.files).lines[Top(m1.files).pos] == MexitLine(macro.exitLine);
    }
  }

  /** At the end of a file nothing is left open that a structured program has opened. */
  lemma LeaveFile<W, L, A>(host: Host<W, L, A>, macros: seq<seq<Flat<L>>>, m: Machine<W, L, A>, m1: Machine<W, L, A>,
      c: Config<W>)
    requires Sane(m) && m1.files != [] && Pop(m1.files) == m.files && Top(m1.files).pos == 0 && !Top(m1.files).isMacro
    requires m1.ifs == m.ifs && m1.loops == m.loops && m1.level == m.level
    ensures Steps(host, macros, After(m1, |Top(m1.files).lines|, c), 1) == m.(c := c)
  {
    var m2 := After(m1, |Top(m1.files).lines|, c);
    assert Steps(host, macros, m2, 1) == Steps(host, macros, Step(host, macros, m2), 0);
    assert DropIfs(m.ifs, |m1.files|) == m.ifs;
    assert DropLoops(m.loops, |m1.files|) == m.loops;
  }

  lemma CalleeLines<L>(macros: seq<Macro<L>>, i: nat)
    ensures MacroBody(AllLines(macros), i) == MacroLines(Callee(macros, i))
  {
    assert MacroLines<L>(Whole(Done)) == [];
  }

  /** What a call enters with, and how it comes back. */
  lemma CallReturns<W, L, A>(host: Host<W, L, A>, macros: seq<Macro<L>>, m: Machine<W, L, A>, level: nat, s: Stmt<L>,
      c: Config<W>)
    requires s.Call? && Ready(m, level, StmtLines(s)) && level < MAXMACLEVEL
    ensures var c1 := SetLabel(host, m.c, Args(m), s.l);
            var m1 := VExecmac(host, After(m, 1, m.c), s.l, MacroBody(AllLines(macros), s.callee));
            && Steps(host, AllLines(macros), m, 1) == m1
            && m1.c == c1.(names := EnterMacro(c1.names)) && Args(m1) == host.bind(Args(m), s.l)
            && Steps(host, AllLines(macros), After(m1, |Lines(Callee(macros, s.callee).body)|, c), 1)
            == After(m, 1, c.(names := c.names.(scope := c1.names.scope)))
  {
    hide Steps, Lines, SetLabel;
    StepAt(host, AllLines(macros), m, StmtLines(s));
    CalleeLines(macros, s.callee);
    var m1 := VExecmac(host, After(m, 1, m.c), s.l, MacroBody(AllLines(macros), s.callee));
    LeaveMacro(host, AllLines(macros), m1, Callee(macros, s.callee), c);
  }

  lemma CallRefused<W, L, A>(host: Host<W, L, A>, macros: seq<Macro<L>>, m: Machine<W, L, A>, s: Stmt<L>)
    requires s.Call? && Ready(m, MAXMACLEVEL, StmtLines(s))
    ensures Steps(host, AllLines(macros), m, 1) == After(m, 1, RunStmt(host, macros, m.c, Args(m), MAXMACLEVEL, s))
  {
    hide Steps, Lines, SetLabel;
    StepAt(host, AllLines(macros), m, StmtLines(s));
  }

  lemma {:induction false} RunsCall<W, L, A>(host: Host<W, L, A>, macros: seq<Macro<L>>, m: Machine<W, L, A>,
      level: nat, s: Stmt<L>) returns (n: nat)
    requires s.Call? && Ready(m, level, StmtLines(s))
    ensures Steps(host, AllLines(macros), m, n)
        == After(m, |StmtLines(s)|, RunStmt(host, macros, m.c, Args(m), level, s))
    decreases MAXMACLEVEL - level, s, 0
  {
    hide Steps, Lines, Run, SetLabel, VExecmac, EnterMacro;
    n := 1;
    if level == MAXMACLEVEL {
      CallRefused(host, macros, m, s);
    } else {
      var all := AllLines(macros);
      var m1 := VExecmac(host, After(m, 1, m.c), s.l, MacroBody(all, s.callee));
      var b := Callee(macros, s.callee).body;
      CallReads(host, macros, m, level, s);
      var j := RunsBlock(host, macros, m1, level + 1, b);
      var c3 := Run(host, macros, m1.c, Args(m1), level + 1, b);
      CallReturns(host, macros, m, level, s, c3);
      n := 1 + j + 1;
      Chain(host, all, m, 1, m1, j, After(m1, |Lines(b)|, c3));
      Chain(host, all, m, 1 + j, After(m1, |Lines(b)|, c3), 1,
        After(m, 1, c3.(names := c3.names.(scope := SetLabel(host, m.c, Args(m), s.l).names.scope))));
    }
  }

  lemma {:induction false} RunsInclude<W, L, A>(host: Host<W, L, A>, macros: seq<Macro<L>>, m: Machine<W, L, A>,
      level: nat, s: Stmt<L>) returns (n: nat)
    requires s.Include? && Ready(m, level, StmtLines(s))
    ensures Steps(host, AllLines(macros), m, n)
        == After(m, |StmtLines(s)|, RunStmt(host, macros, m.c, Args(m), level, s))
    decreases MAXMACLEVEL - level, s, 0
  {
    hide Steps, Lines, Run;
    var all := AllLines(macros);
    StepAt(host, all, m, StmtLines(s));
    var m1 := VInclude(host, After(m, 1, m.c), s.l, Lines(s.file));
    FileReads(m1, Lines(s.file), []);
    var j := RunsBlock(host, macros, m1, level, s.file);
    var c3 := Run(host, macros, m1.c, Args(m1), level, s.file);
    LeaveFile(host, all, After(m, 1, m.c), m1, c3);
    n := 1 + j + 1;
    Chain(host, all, m, 1, m1, j, After(m1, |Lines(s.file)|, c3));
    Chain(host, all, m, 1 + j, After(m1, |Lines(s.file)|, c3), 1, After(m, 1, c3));
  }

  // ---------------------------------------------------------------------------
  // A pass

  /** The names at the start of a pass. */
  const NAMES := Names(Scope(0, 0), 0, 0)

  /** The machine at the start of a pass over this file. */
  function Start<W, L, A>(host: Host<W, L, A>, w: W, lines: seq<Flat<L>>): Machine<W, L, A> {
    Machine(Config(w, NAMES), [Reading(lines, 0, false, host.noArgs, Scope(0, 0))], [], [], 0)
  }

  /** The machine that reads the flat text of a program does what the program means, whatever its
      lines do to the state its conditions and counts are computed from: the same lines in the same
      order, each loop as often as its operand says, and neither branch of a conditional that is not
      resolved. It comes to an end, and leaves no file, conditional or loop open. */
  lemma MachineRunsProgram<W, L, A>(host: Host<W, L, A>, macros: seq<Macro<L>>, w: W, b: Block<L>) returns (n: nat)
    ensures Steps(host, AllLines(macros), Start(host, w, Lines(b)), n)
         == Machine(Run(host, macros, Config(w, NAMES), host.noArgs, 0, b), [], [], [], 0)
  {
    hide Steps, Run, Lines;
    var all := AllLines(macros);
    var m := Start(host, w, Lines(b));
    FileReads(m, Lines(b), []);
    var j := RunsBlock(host, macros, m, 0, b);
    var c := Run(host, macros, m.c, Args(m), 0, b);
    LeaveFile(host, all, m.(files := []), m, c);
    n := j + 1;
    Chain(host, all, m, j, After(m, |Lines(b)|, c), 1, m.(c := c, files := []));
  }
}
