/** The machine that runs the lines of a pass: a stack of files and macros being read, a stack of
    conditionals, a stack of repeat loops, and the numbering of local names (the main loop of
    src/main.c, and v_if to v_repend and v_execmac of src/ops.c). What a line does otherwise, and
    what its operand is worth, is the host's business. */
module LineMachine {
  import opened Operators
  import opened Symbols

  // ---------------------------------------------------------------------------
  // Lines

  /** A line of a source file or a macro body, by what the machine does with it. */
  datatype Flat<+L> =
    | Plain(l: L)
    | SubroutineLine(l: L)
    | IfLine(l: L)
    | ElseLine(l: L)
    | EndifLine(l: L)
    | RepeatLine(l: L)
    | RependLine(l: L)
    | CallLine(l: L, callee: nat)
    | IncludeLine(l: L, lines: seq<Flat<L>>)
    | MexitLine(l: L)

  // ---------------------------------------------------------------------------
  // The host

  /** Things the machine reports. */
  datatype Event = IfNotResolved | RepeatNotResolved | RepeatNegative | TooDeep | TooManyEndifs | NoRepeat | NotInMacro

  /** What lines mean: W is the rest of the assembler's state, L a line's text, and A the arguments
      of the macro a line is in. */
  datatype Host<!W, !L, !A> = Host(
    global: (A, L) -> bool,                // does the line set a label that is neither .x nor x$?
    define: (W, Scope, A, L) -> W,         // programlabel
    plain: (W, Scope, Scope, A, L) -> W,   // any other line, given the scopes before and after its label
    test: (W, Scope, A, L) -> (W, Arg),    // eval
    bind: (A, L) -> A,                     // the arguments of a macro call
    noArgs: A,
    note: (W, Event) -> W
  )

  // ---------------------------------------------------------------------------
  // State

  /** Localindex and Localdollarindex, Lastlocalindex, and Lastlocaldollarindex. */
  datatype Names = Names(scope: Scope, lastLocal: nat, lastDollar: nat)

  datatype Config<W> = Config(w: W, names: Names)

  /** IFSTACK, above the base frame. A file is known by its height on the stack of files. */
  datatype IfFrame = IfFrame(file: nat, xtrue: bool, acctrue: bool)

  type Count = n: nat | n > 0 witness 1

  /** REPLOOP */
  datatype LoopFrame = LoopFrame(file: nat, count: Count, seek: nat, unresolved: bool)

  /** INCFILE */
  datatype Reading<L, A> = Reading(lines: seq<Flat<L>>, pos: nat, isMacro: bool, args: A, saved: Scope)

  datatype Machine<W, L, A> = Machine(
    c: Config<W>,
    files: seq<Reading<L, A>>,
    ifs: seq<IfFrame>,
    loops: seq<LoopFrame>,
    level: int                             // Mlevel
  )

  const MAXMACLEVEL := 32

  function Top<T>(s: seq<T>): T
    requires s != []
  {
    s[|s| - 1]
  }

  function Pop<T>(s: seq<T>): seq<T>
    requires s != []
  {
    s[..|s| - 1]
  }

  function SetTop<T>(s: seq<T>, x: T): (r: seq<T>)
    requires s != []
    ensures |r| == |s| && Top(r) == x && Pop(r) == Pop(s)
  {
    s[|s| - 1 := x]
  }

  predicate Active(ifs: seq<IfFrame>) {
    ifs == [] || (Top(ifs).xtrue && Top(ifs).acctrue)
  }

  // ---------------------------------------------------------------------------
  // Names

  /** A label that is not itself local starts a new scope of dollar labels. */
  function Bump(names: Names, bump: bool): Names {
    if bump then Names(names.scope.(dollar := names.lastDollar + 1), names.lastLocal, names.lastDollar + 1) else names
  }

  /** programlabel */
  function SetLabel<W, L, A>(host: Host<W, L, A>, c: Config<W>, a: A, l: L): Config<W> {
    var names := Bump(c.names, host.global(a, l));
    Config(host.define(c.w, names.scope, a, l), names)
  }

  function DoPlain<W, L, A>(host: Host<W, L, A>, c: Config<W>, a: A, l: L): Config<W> {
    var names := Bump(c.names, host.global(a, l));
    Config(host.plain(c.w, c.names.scope, names.scope, a, l), names)
  }

  function NewLocal(names: Names): Names {
    Names(names.scope.(local := names.lastLocal + 1), names.lastLocal + 1, names.lastDollar)
  }

  /** v_subroutine */
  function DoSubroutine<W, L, A>(host: Host<W, L, A>, c: Config<W>, a: A, l: L): Config<W> {
    SetLabel(host, c.(names := NewLocal(c.names)), a, l)
  }

  /** The names inside a macro call. */
  function EnterMacro(names: Names): Names {
    Names(Scope(names.lastLocal + 1, names.lastDollar + 1), names.lastLocal + 1, names.lastDollar + 1)
  }

  function Note<W, L, A>(host: Host<W, L, A>, c: Config<W>, e: Event): Config<W> {
    c.(w := host.note(c.w, e))
  }

  // ---------------------------------------------------------------------------
  // Operations

  function Args<W, L, A>(m: Machine<W, L, A>): A
    requires m.files != []
  {
    Top(m.files).args
  }

  function Label<W, L, A>(host: Host<W, L, A>, m: Machine<W, L, A>, l: L): Machine<W, L, A>
    requires m.files != []
  {
    m.(c := SetLabel(host, m.c, Args(m), l))
  }

  function PushIf<W, L, A>(m: Machine<W, L, A>, x: bool): Machine<W, L, A> {
    m.(ifs := m.ifs + [IfFrame(|m.files|, x, Active(m.ifs))])
  }

  function VIf<W, L, A>(host: Host<W, L, A>, m: Machine<W, L, A>, l: L): Machine<W, L, A>
    requires m.files != []
  {
    if !Active(m.ifs) then PushIf(m, false)
    else
      var c1 := SetLabel(host, m.c, Args(m), l);
      var (w, a) := host.test(c1.w, c1.names.scope, Args(m), l);
      var m1 := m.(c := c1.(w := w));
      if a.unknown then m1.(c := Note(host, m1.c, IfNotResolved), ifs := m.ifs + [IfFrame(|m.files|, false, false)])
      else PushIf(m1, a.value != 0)
  }

  function VElse<W, L, A>(host: Host<W, L, A>, m: Machine<W, L, A>, l: L): Machine<W, L, A>
    requires m.files != []
  {
    if m.ifs != [] && Top(m.ifs).acctrue then
      Label(host, m, l).(ifs := SetTop(m.ifs, Top(m.ifs).(xtrue := !Top(m.ifs).xtrue)))
    else m
  }

  function VEndif<W, L, A>(host: Host<W, L, A>, m: Machine<W, L, A>, l: L): Machine<W, L, A>
    requires m.files != []
  {
    if m.ifs == [] then m
    else
      var m1 := if Top(m.ifs).acctrue then Label(host, m, l) else m;
      if Top(m.ifs).file != |m.files| then m1.(c := Note(host, m1.c, TooManyEndifs))
      else m1.(ifs := Pop(m.ifs))
  }

  function VRepeat<W, L, A>(host: Host<W, L, A>, m: Machine<W, L, A>, l: L): Machine<W, L, A>
    requires m.files != []
  {
    if !Active(m.ifs) then PushIf(m, false)
    else
      var c1 := SetLabel(host, m.c, Args(m), l);
      var (w, a) := host.test(c1.w, c1.names.scope, Args(m), l);
      var m1 := m.(c := c1.(w := w));
      if a.value == 0 then PushIf(m1, false)
      else if a.value < 0 then
        var m2 := PushIf(m1, false);
        m2.(c := Note(host, m2.c, RepeatNegative))
      else
        var m2 := if a.unknown then m1.(c := Note(host, m1.c, RepeatNotResolved)) else m1;
        PushIf(m2.(loops := m.loops + [LoopFrame(|m.files|, a.value, Top(m.files).pos, a.unknown)]), true)
  }

  function Jump<W, L, A>(m: Machine<W, L, A>, pos: nat): Machine<W, L, A>
    requires m.files != []
  {
    m.(files := SetTop(m.files, Top(m.files).(pos := pos)))
  }

  function VRepend<W, L, A>(host: Host<W, L, A>, m: Machine<W, L, A>, l: L): Machine<W, L, A>
    requires m.files != []
  {
    if !Active(m.ifs) then VEndif(host, m, l)
    else if m.loops != [] && Top(m.loops).file == |m.files| then
      var loop := Top(m.loops);
      if !loop.unresolved && loop.count != 1 then
        Jump(m.(loops := SetTop(m.loops, loop.(count := loop.count - 1))), loop.seek)
      else VEndif(host, m.(loops := Pop(m.loops)), l)
    else m.(c := Note(host, m.c, NoRepeat))
  }

  /** v_execmac */
  function VExecmac<W, L, A>(host: Host<W, L, A>, m: Machine<W, L, A>, l: L, body: seq<Flat<L>>): Machine<W, L, A>
    requires m.files != []
  {
    var c1 := SetLabel(host, m.c, Args(m), l);
    if m.level == MAXMACLEVEL then m.(c := Note(host, c1, TooDeep))
    else
      m.(c := c1.(names := EnterMacro(c1.names)), level := m.level + 1,
         files := m.files + [Reading(body, 0, true, host.bind(Args(m), l), c1.names.scope)])
  }

  /** v_endm, which also is v_mexit and what happens at the end of a macro. */
  function VEndm<W, L, A>(host: Host<W, L, A>, m: Machine<W, L, A>): Machine<W, L, A>
    requires m.files != []
  {
    if Top(m.files).isMacro then
      m.(c := m.c.(names := m.c.names.(scope := Top(m.files).saved)),
         level := m.level - 1, files := Pop(m.files))
    else m.(c := Note(host, m.c, NotInMacro))
  }

  /** v_include */
  function VInclude<W, L, A>(host: Host<W, L, A>, m: Machine<W, L, A>, l: L, lines: seq<Flat<L>>): Machine<W, L, A>
    requires m.files != []
  {
    Label(host, m, l).(files := m.files + [Reading(lines, 0, false, host.noArgs, Scope(0, 0))])
  }

  function DropLoops(loops: seq<LoopFrame>, file: nat): seq<LoopFrame> {
    if loops != [] && Top(loops).file == file then DropLoops(Pop(loops), file) else loops
  }

  function DropIfs(ifs: seq<IfFrame>, file: nat): seq<IfFrame> {
    if ifs != [] && Top(ifs).file == file then DropIfs(Pop(ifs), file) else ifs
  }

  /** The end of a file closes what was left open in it. */
  function EndOfFile<W, L, A>(m: Machine<W, L, A>): Machine<W, L, A>
    requires m.files != []
  {
    m.(loops := DropLoops(m.loops, |m.files|), ifs := DropIfs(m.ifs, |m.files|), files := Pop(m.files))
  }

  // ---------------------------------------------------------------------------
  // The main loop

  function MacroBody<L>(macros: seq<seq<Flat<L>>>, i: nat): seq<Flat<L>> {
    if i < |macros| then macros[i] else []
  }

  /** MF_IF: lines that are looked at even where nothing is assembled. */
  predicate Steers<L>(line: Flat<L>) {
    line.IfLine? || line.ElseLine? || line.EndifLine? || line.RepeatLine? || line.RependLine?
  }

  function Dispatch<W, L, A>(host: Host<W, L, A>, macros: seq<seq<Flat<L>>>, m: Machine<W, L, A>,
      line: Flat<L>): Machine<W, L, A>
    requires m.files != []
  {
    if !Steers(line) && !Active(m.ifs) then m
    else
      match line
      case Plain(l) => m.(c := DoPlain(host, m.c, Args(m), l))
      case SubroutineLine(l) => m.(c := DoSubroutine(host, m.c, Args(m), l))
      case IfLine(l) => VIf(host, m, l)
      case ElseLine(l) => VElse(host, m, l)
      case EndifLine(l) => VEndif(host, m, l)
      case RepeatLine(l) => VRepeat(host, m, l)
      case RependLine(l) => VRepend(host, m, l)
      case CallLine(l, callee) => VExecmac(host, m, l, MacroBody(macros, callee))
      case IncludeLine(l, lines) => VInclude(host, m, l, lines)
      case MexitLine(_) => VEndm(host, m)
  }

  function Step<W, L, A>(host: Host<W, L, A>, macros: seq<seq<Flat<L>>>, m: Machine<W, L, A>): Machine<W, L, A> {
    if m.files == [] then m
    else
      var top := Top(m.files);
      if top.pos < |top.lines| then Dispatch(host, macros, Jump(m, top.pos + 1), top.lines[top.pos])
      else if top.isMacro then VEndm(host, m)
      else EndOfFile(m)
  }

  function Steps<W, L, A>(host: Host<W, L, A>, macros: seq<seq<Flat<L>>>, m: Machine<W, L, A>, n: nat): Machine<W, L, A>
    decreases n
  {
    if n == 0 then m else Steps(host, macros, Step(host, macros, m), n - 1)
  }

  lemma {:induction false} StepsAdd<W, L, A>(host: Host<W, L, A>, macros: seq<seq<Flat<L>>>, m: Machine<W, L, A>,
      j: nat, k: nat)
    ensures Steps(host, macros, m, j + k) == Steps(host, macros, Steps(host, macros, m, j), k)
    decreases j
  {
    hide Step;
    if j != 0 {
      StepsAdd(host, macros, Step(host, macros, m), j - 1, k);
    }
  }

  /** When everything has been read nothing more happens. */
  lemma {:induction false} StepsHalted<W, L, A>(host: Host<W, L, A>, macros: seq<seq<Flat<L>>>, m: Machine<W, L, A>,
      n: nat)
    requires m.files == []
    ensures Steps(host, macros, m, n) == m
    decreases n
  {
    if n != 0 {
      StepsHalted(host, macros, m, n - 1);
    }
  }
}
