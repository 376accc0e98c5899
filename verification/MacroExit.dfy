/** MEXIT inside a conditional: v_endm of src/ops.c leaves the macro's frames on the stack of
    conditionals, where they stand in the way of the caller's. */
module MacroExit {
  import opened Operators
  import opened Symbols
  import opened LineMachine
  import opened Structured

  /** A conditional around a call of the macro IF, MEXIT, ENDIF. */
  function CallerLines<L>(l: L): seq<Flat<L>> {
    [IfLine(l), CallLine(l, 0), ElseLine(l), EndifLine(l), Plain(l)]
  }

  function ExitLines<L>(l: L): seq<Flat<L>> {
    [IfLine(l), MexitLine(l), EndifLine(l)]
  }

  /** The caller, this far into its lines, with these frames. */
  function Caller<W, L, A>(host: Host<W, L, A>, c: Config<W>, l: L, pos: nat, ifs: seq<IfFrame>): Machine<W, L, A> {
    Machine(c, [Reading(CallerLines(l), pos, false, host.noArgs, Scope(0, 0))], ifs, [], 0)
  }

  /** Up to the end of the macro. */
  lemma CallLeavesFrame<W, L, A>(host: Host<W, L, A>, w: W, l: L) returns (c: Config<W>)
    requires forall w: W, s, a: A :: host.test(w, s, a, l) == (w, Arg(1, false))
    ensures Steps(host, [ExitLines(l)], Start(host, w, CallerLines(l)), 4)
         == Caller(host, c, l, 2, [IfFrame(1, true, true), IfFrame(2, true, true)])
  {
    hide SetLabel, DoPlain;
    var macros := [ExitLines(l)];
    var m0 := Start(host, w, CallerLines(l));
    var m1 := Step(host, macros, m0);
    assert m1 == Caller(host, m1.c, l, 1, [IfFrame(1, true, true)]);
    var m2 := Step(host, macros, m1);
    var inner := Reading(ExitLines(l), 0, true, host.bind(host.noArgs, l), m2.files[1].saved);
    assert m2 == Machine(m2.c, [Reading(CallerLines(l), 2, false, host.noArgs, Scope(0, 0)), inner], m1.ifs, [], 1);
    var m3 := Step(host, macros, m2);
    assert m3
        == Machine(m3.c, [m2.files[0], inner.(pos := 1)], [IfFrame(1, true, true), IfFrame(2, true, true)], [], 1);
    var m4 := Step(host, macros, m3);
    c := m4.c;
    assert m4 == Caller(host, c, l, 2, m3.ifs);
    assert Steps(host, macros, m0, 4) == Steps(host, macros, m2, 2);
  }

  /** What is left of the caller. */
  lemma FrameIsInTheWay<W, L, A>(host: Host<W, L, A>, c: Config<W>, l: L) returns (c': Config<W>)
    ensures var m := Caller(host, c, l, 2, [IfFrame(1, true, true), IfFrame(2, true, true)]);
            && Steps(host, [ExitLines(l)], m, 2)
                 == Caller(host, c', l, 4, [IfFrame(1, true, true), IfFrame(2, false, true)])
            && Steps(host, [ExitLines(l)], m, 4)
                 == Machine(c', [], [IfFrame(1, true, true), IfFrame(2, false, true)], [], 0)
  {
    hide SetLabel, DoPlain;
    var macros := [ExitLines(l)];
    var ifs := [IfFrame(1, true, true), IfFrame(2, false, true)];
    var m4 := Caller(host, c, l, 2, [IfFrame(1, true, true), IfFrame(2, true, true)]);
    var m5 := Step(host, macros, m4);
    assert m5 == Caller(host, m5.c, l, 3, ifs);
    var m6 := Step(host, macros, m5);
    c' := m6.c;
    assert m6 == Caller(host, c', l, 4, ifs);
    var m7 := Step(host, macros, m6);
    assert m7 == Caller(host, c', l, 5, ifs);
    assert Step(host, macros, m7) == Machine(c', [], ifs, [], 0);
    assert Steps(host, macros, m4, 4) == Steps(host, macros, m6, 2);
  }

  /** The caller's ELSE and ENDIF meet the frame of the macro's conditional: ELSE turns it off, ENDIF
      cannot close it, and the line after ENDIF is skipped although it stands outside all
      conditionals. Both frames are still there at the end of the pass. */
  lemma ExitInsideIf<W, L, A>(host: Host<W, L, A>, w: W, l: L)
    requires forall w: W, s, a: A :: host.test(w, s, a, l) == (w, Arg(1, false))
    ensures var macros := [ExitLines(l)];
            var r := Steps(host, macros, Start(host, w, CallerLines(l)), 8);
            && r.files == [] && |r.ifs| == 2
            && var before := Steps(host, macros, Start(host, w, CallerLines(l)), 6);
               At(before, [Plain(l)]) && r.c == before.c
  {
    hide Steps, Step;
    var macros := [ExitLines(l)];
    var m := Start(host, w, CallerLines(l));
    var c := CallLeavesFrame(host, w, l);
    var c' := FrameIsInTheWay(host, c, l);
    StepsAdd(host, macros, m, 4, 2);
    StepsAdd(host, macros, m, 4, 4);
  }

  /** The machine with the text of its macro cut off where it reads. */
  function Cut<W, L, A>(m: Machine<W, L, A>): Machine<W, L, A>
    requires m.files != [] && Top(m.files).pos <= |Top(m.files).lines|
  {
    m.(files := SetTop(m.files, Top(m.files).(lines := Top(m.files).lines[..Top(m.files).pos])))
  }

  /** MEXIT leaves the machine as the end of the macro would, if it ended there. */
  lemma ExitIsEnd<W, L, A>(host: Host<W, L, A>, macros: seq<seq<Flat<L>>>, m: Machine<W, L, A>, l: L)
    requires At(m, [MexitLine(l)]) && Top(m.files).isMacro && Active(m.ifs)
    ensures Step(host, macros, m) == Step(host, macros, Cut(m))
  {
    AtHead(m, [MexitLine(l)]);
    assert Pop(Cut(m).files) == Pop(m.files) == Pop(Jump(m, Top(m.files).pos + 1).files);
  }

  /** The file that is read again when the macro is left. */
  function CallerOf<W, L, A>(m: Machine<W, L, A>): Reading<L, A>
    requires |m.files| > 1
  {
    m.files[|m.files| - 2]
  }

  /** If the caller's next line is ENDIF it ends the caller's conditional just if that is what is on top
      of the stack when MEXIT is met. If a conditional or loop of the macro is on top, ENDIF is reported as
      one too many and all frames stay. */
  lemma ExitIsCleanExactly<W, L, A>(host: Host<W, L, A>, macros: seq<seq<Flat<L>>>, m: Machine<W, L, A>, l: L, endif: L)
    requires At(m, [MexitLine(l)]) && Top(m.files).isMacro && Active(m.ifs)
    requires |m.files| > 1 && m.ifs != [] && Sane(m)
    requires var caller := CallerOf(m);
             caller.pos < |caller.lines| && caller.lines[caller.pos] == EndifLine(endif)
    ensures var r := Steps(host, macros, m, 2);
            var back := m.c.(names := m.c.names.(scope := Top(m.files).saved));
            var labelled := SetLabel(host, back, CallerOf(m).args, endif);
            && (r.ifs == Pop(m.ifs) <==> Top(m.ifs).file == |m.files| - 1)
            && (Top(m.ifs).file == |m.files| - 1 ==> r.c == labelled)
            && (Top(m.ifs).file == |m.files| ==> r.ifs == m.ifs && r.c == Note(host, labelled, TooManyEndifs))
  {
    hide SetLabel;
    AtHead(m, [MexitLine(l)]);
    var m1 := Step(host, macros, m);
    assert Top(m1.files) == CallerOf(m) && m1.ifs == m.ifs;
    var m2 := Step(host, macros, m1);
    assert Steps(host, macros, m, 2) == Steps(host, macros, m1, 1) == Steps(host, macros, m2, 0) == m2;
  }
}
