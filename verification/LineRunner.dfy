/** The main loop over the lines of a pass and the directives that steer it (src/main.c and
    src/ops.c), with the stacks as they are changed in place. */
module LineRunner {
  import opened Operators
  import opened Symbols
  import opened LineMachine
  import opened Structured

  class Runner<W, L, A> {
    const host: Host<W, L, A>
    const macros: seq<seq<Flat<L>>>
    var w: W
    var localIndex: nat
    var lastLocalIndex: nat
    var localDollarIndex: nat
    var lastLocalDollarIndex: nat
    var incFile: seq<Reading<L, A>>
    var ifStack: seq<IfFrame>
    var repLoop: seq<LoopFrame>
    var mlevel: int

    constructor (host: Host<W, L, A>, macros: seq<seq<Flat<L>>>, w: W)
      ensures this.host == host && this.macros == macros && View() == Machine(Config(w, NAMES), [], [], [], 0)
    {
      this.host := host;
      this.macros := macros;
      this.w := w;
      localIndex, lastLocalIndex, localDollarIndex, lastLocalDollarIndex := 0, 0, 0, 0;
      incFile, ifStack, repLoop, mlevel := [], [], [], 0;
    }

    function Names(): Names
      reads this
    {
      LineMachine.Names(Scope(localIndex, localDollarIndex), lastLocalIndex, lastLocalDollarIndex)
    }

    /** The state as a value. */
    function View(): Machine<W, L, A>
      reads this
    {
      Machine(Config(w, Names()), incFile, ifStack, repLoop, mlevel)
    }

    function CurrentArgs(): A
      requires incFile != []
      reads this
    {
      Top(incFile).args
    }

    predicate IsActive()
      reads this
    {
      Active(ifStack)
    }

    /** programlabel, as far as names go; the rest is the host's. */
    method ProgramLabel(l: L)
      requires incFile != []
      modifies this
      ensures View() == Label(host, old(View()), l)
    {
      if host.global(CurrentArgs(), l) {
        lastLocalDollarIndex := lastLocalDollarIndex + 1;
        localDollarIndex := lastLocalDollarIndex;
      }
      w := host.define(w, Scope(localIndex, localDollarIndex), CurrentArgs(), l);
    }

    method Report(e: Event)
      modifies this
      ensures View() == old(View()).(c := Note(host, old(View()).c, e))
    {
      w := host.note(w, e);
    }

    method Eval(l: L) returns (x: Arg)
      requires incFile != []
      modifies this
      ensures var m := old(View());
              var (w, a) := host.test(m.c.w, m.c.names.scope, Args(m), l);
              x == a && View() == m.(c := m.c.(w := w))
    {
      var (w1, a) := host.test(w, Scope(localIndex, localDollarIndex), CurrentArgs(), l);
      w := w1;
      x := a;
    }

    method PushIf(xtrue: bool)
      modifies this
      ensures View() == LineMachine.PushIf(old(View()), xtrue)
    {
      ifStack := ifStack + [IfFrame(|incFile|, xtrue, Active(ifStack))];
    }

    /** Neither branch of an unresolved conditional is assembled. */
    method PushUnresolved()
      modifies this
      ensures View() == old(View()).(ifs := old(View()).ifs + [IfFrame(|old(View()).files|, false, false)])
    {
      hide SetTop, Active, Pop;
      PushIf(false);
      ReplaceTop(old(ifStack), Top(ifStack), Top(ifStack).(acctrue := false));
      ifStack := SetTop(ifStack, Top(ifStack).(acctrue := false));
    }

    method VIf(l: L)
      requires incFile != []
      modifies this
      ensures View() == LineMachine.VIf(host, old(View()), l)
    {
      if !IsActive() {
        PushIf(false);
        return;
      }
      ProgramLabel(l);
      var x := Eval(l);
      if x.unknown {
        Report(IfNotResolved);
        PushUnresolved();
      } else {
        PushIf(x.value != 0);
      }
    }

    method VElse(l: L)
      requires incFile != []
      modifies this
      ensures View() == LineMachine.VElse(host, old(View()), l)
    {
      if ifStack != [] && Top(ifStack).acctrue {
        ProgramLabel(l);
        ifStack := SetTop(ifStack, Top(ifStack).(xtrue := !Top(ifStack).xtrue));
      }
    }

    method VEndif(l: L)
      requires incFile != []
      modifies this
      ensures View() == LineMachine.VEndif(host, old(View()), l)
    {
      if ifStack == [] {
        return;
      }
      if Top(ifStack).acctrue {
        ProgramLabel(l);
      }
      if Top(ifStack).file != |incFile| {
        Report(TooManyEndifs);
      } else {
        ifStack := Pop(ifStack);
      }
    }

    method VRepeat(l: L)
      requires incFile != []
      modifies this
      ensures View() == LineMachine.VRepeat(host, old(View()), l)
    {
      if !IsActive() {
        PushIf(false);
        return;
      }
      ProgramLabel(l);
      var x := Eval(l);
      if x.value == 0 {
        PushIf(false);
        return;
      }
      if x.value < 0 {
        PushIf(false);
        Report(RepeatNegative);
        return;
      }
      if x.unknown {
        Report(RepeatNotResolved);
      }
      repLoop := repLoop + [LoopFrame(|incFile|, x.value, Top(incFile).pos, x.unknown)];
      PushIf(true);
    }

    method Seek(pos: nat)
      requires incFile != []
      modifies this
      ensures View() == Jump(old(View()), pos)
    {
      incFile := SetTop(incFile, Top(incFile).(pos := pos));
    }

    method VRepend(l: L)
      requires incFile != []
      modifies this
      ensures View() == LineMachine.VRepend(host, old(View()), l)
    {
      if !IsActive() {
        VEndif(l);
        return;
      }
      if repLoop != [] && Top(repLoop).file == |incFile| {
        var again := false;
        if !Top(repLoop).unresolved {
          if Top(repLoop).count != 1 {
            repLoop := SetTop(repLoop, Top(repLoop).(count := Top(repLoop).count - 1));
            again := true;
          }
        }
        if again {
          Seek(Top(repLoop).seek);
        } else {
          repLoop := Pop(repLoop);
          VEndif(l);
        }
        return;
      }
      Report(NoRepeat);
    }

    method VSubroutine(l: L)
      requires incFile != []
      modifies this
      ensures View() == old(View()).(c := DoSubroutine(host, old(View()).c, Args(old(View())), l))
    {
      lastLocalIndex := lastLocalIndex + 1;
      localIndex := lastLocalIndex;
      ProgramLabel(l);
    }

    method VExecmac(l: L, body: seq<Flat<L>>)
      requires incFile != []
      modifies this
      ensures View() == LineMachine.VExecmac(host, old(View()), l, body)
    {
      ProgramLabel(l);
      if mlevel == MAXMACLEVEL {
        Report(TooDeep);
        return;
      }
      mlevel := mlevel + 1;
      incFile := incFile + [Reading(body, 0, true, host.bind(CurrentArgs(), l), Scope(localIndex, localDollarIndex))];
      lastLocalIndex := lastLocalIndex + 1;
      localIndex := lastLocalIndex;
      lastLocalDollarIndex := lastLocalDollarIndex + 1;
      localDollarIndex := lastLocalDollarIndex;
    }

    method VEndm()
      requires incFile != []
      modifies this
      ensures View() == LineMachine.VEndm(host, old(View()))
    {
      var inc := Top(incFile);
      if inc.isMacro {
        mlevel := mlevel - 1;
        localIndex := inc.saved.local;
        localDollarIndex := inc.saved.dollar;
        incFile := Pop(incFile);
        return;
      }
      Report(NotInMacro);
    }

    method VInclude(l: L, lines: seq<Flat<L>>)
      requires incFile != []
      modifies this
      ensures View() == LineMachine.VInclude(host, old(View()), l, lines)
    {
      ProgramLabel(l);
      PushInclude(lines);
    }

    method PushInclude(lines: seq<Flat<L>>)
      modifies this
      ensures View() == old(View()).(files := old(View()).files + [Reading(lines, 0, false, host.noArgs, Scope(0, 0))])
    {
      incFile := incFile + [Reading(lines, 0, false, host.noArgs, Scope(0, 0))];
    }

    /** Any line that does not steer the machine. */
    method VPlain(l: L)
      requires incFile != []
      modifies this
      ensures View() == old(View()).(c := DoPlain(host, old(View()).c, Args(old(View())), l))
    {
      var scope := Scope(localIndex, localDollarIndex);
      if host.global(CurrentArgs(), l) {
        lastLocalDollarIndex := lastLocalDollarIndex + 1;
        localDollarIndex := lastLocalDollarIndex;
      }
      w := host.plain(w, scope, Scope(localIndex, localDollarIndex), CurrentArgs(), l);
    }

    method Perform(line: Flat<L>)
      requires incFile != []
      modifies this
      ensures View() == Dispatch(host, macros, old(View()), line)
    {
      if !Steers(line) && !IsActive() {
        return;
      }
      match line
      case Plain(l) => VPlain(l);
      case SubroutineLine(l) => VSubroutine(l);
      case IfLine(l) => VIf(l);
      case ElseLine(l) => VElse(l);
      case EndifLine(l) => VEndif(l);
      case RepeatLine(l) => VRepeat(l);
      case RependLine(l) => VRepend(l);
      case CallLine(l, callee) => VExecmac(l, MacroBody(macros, callee));
      case IncludeLine(l, lines) => VInclude(l, lines);
      case MexitLine(_) => VEndm();
    }

    /** What is done when a file has been read. */
    method CloseFile()
      requires incFile != []
      modifies this
      ensures View() == EndOfFile(old(View()))
    {
      while repLoop != [] && Top(repLoop).file == |incFile|
        invariant View() == old(View()).(loops := repLoop)
        invariant DropLoops(repLoop, |incFile|) == DropLoops(old(repLoop), |incFile|)
        decreases |repLoop|
      {
        repLoop := Pop(repLoop);
      }
      while ifStack != [] && Top(ifStack).file == |incFile|
        invariant View() == old(View()).(loops := DropLoops(old(repLoop), |incFile|), ifs := ifStack)
        invariant DropIfs(ifStack, |incFile|) == DropIfs(old(ifStack), |incFile|)
        decreases |ifStack|
      {
        ifStack := Pop(ifStack);
      }
      incFile := Pop(incFile);
    }

    /** One turn of the loop over lines: a macro that has been read is left, any other line is done. */
    method ReadLine()
      requires incFile != [] && (Top(incFile).isMacro || Top(incFile).pos < |Top(incFile).lines|)
      modifies this
      ensures View() == Step(host, macros, old(View()))
    {
      hide Dispatch;
      if Top(incFile).pos >= |Top(incFile).lines| {
        VEndm();
      } else {
        var line := Top(incFile).lines[Top(incFile).pos];
        Seek(Top(incFile).pos + 1);
        Perform(line);
      }
    }

    /** A pass over a structured program: reading its lines comes to an end, and does what the
        program means. */
    method RunPass(lines: seq<Flat<L>>, ghost program: Block<L>, ghost bodies: seq<Macro<L>>)
      requires lines == Lines(program) && macros == AllLines(bodies)
      requires View() == Machine(Config(w, NAMES), [], [], [], 0)
      modifies this
      ensures View() == Machine(Run(host, bodies, Config(old(w), NAMES), host.noArgs, 0, program), [], [], [], 0)
    {
      hide Run, Lines, Dispatch;
      ghost var n := MachineRunsProgram(host, bodies, w, program);
      ghost var end := Machine(Run(host, bodies, Config(w, NAMES), host.noArgs, 0, program), [], [], [], 0);
      PushInclude(lines);
      while incFile != []
        invariant Steps(host, macros, View(), n) == end
        invariant FilesFirst(incFile)
        decreases n
      {
        while Top(incFile).isMacro || Top(incFile).pos < |Top(incFile).lines|
          invariant Steps(host, macros, View(), n) == end
          invariant incFile != [] && FilesFirst(incFile)
          decreases n
        {
          StaysInFile(host, macros, View());
          ReadLine();
          n := n - 1;
        }
        CloseFile();
        n := n - 1;
      }
      StepsHalted(host, macros, View(), n);
    }
  }

  lemma ReplaceTop<T>(s: seq<T>, x: T, y: T)
    ensures SetTop(s + [x], y) == s + [y]
  {
  }

  /** What is read first is a file, not a macro. */
  predicate FilesFirst<L, A>(files: seq<Reading<L, A>>) {
    files != [] ==> !files[0].isMacro
  }

  /** Macros are left before the file they were called from. */
  lemma StaysInFile<W, L, A>(host: Host<W, L, A>, macros: seq<seq<Flat<L>>>, m: Machine<W, L, A>)
    requires m.files != [] && FilesFirst(m.files) && (Top(m.files).isMacro || Top(m.files).pos < |Top(m.files).lines|)
    ensures var r := Step(host, macros, m);
            r.files != [] && FilesFirst(r.files)
  {
    hide SetLabel, DoPlain, DoSubroutine;
  }
}
