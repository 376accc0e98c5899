/** Scopes over whole passes: numbers of scopes are never given out twice, so that local names of
    different scopes never share a symbol, and a caller gets its scope back (src/ops.c). */
module Scopes {
  import opened Symbols
  import opened Mangling
  import opened LineMachine
  import opened Structured

  // ---------------------------------------------------------------------------
  // Numbering

  predicate Below(s: Scope, names: Names) {
    s.local <= names.lastLocal && s.dollar <= names.lastDollar
  }

  /** No scope in use is newer than the last one given out. */
  ghost predicate Numbered<W, L, A>(m: Machine<W, L, A>) {
    && Below(m.c.names.scope, m.c.names)
    && forall i :: 0 <= i < |m.files| ==> Below(m.files[i].saved, m.c.names)
  }

  /** Numbers are only given out, one at a time, and a new number is that of the current scope. */
  predicate Counts(a: Names, b: Names) {
    && a.lastLocal <= b.lastLocal <= a.lastLocal + 1
    && a.lastDollar <= b.lastDollar
    && (b.lastLocal != a.lastLocal ==> b.scope.local == b.lastLocal)
    && (b.lastDollar != a.lastDollar ==> b.scope.dollar == b.lastDollar)
  }

  /** Numbers are counted from one well-numbered state to another. */
  predicate Advances(a: Names, b: Names) {
    Counts(a, b) && (Below(a.scope, a) ==> Below(b.scope, b))
  }

  lemma NamesCount<W, L, A>(host: Host<W, L, A>, c: Config<W>, a: A, l: L)
    ensures Advances(c.names, SetLabel(host, c, a, l).names)
        && SetLabel(host, c, a, l).names.lastLocal == c.names.lastLocal
    ensures Advances(c.names, DoPlain(host, c, a, l).names)
    ensures Advances(c.names, DoSubroutine(host, c, a, l).names)
  {
  }

  lemma DispatchCounts<W, L, A>(host: Host<W, L, A>, macros: seq<seq<Flat<L>>>, m: Machine<W, L, A>, line: Flat<L>)
    requires m.files != [] && Numbered(m)
    ensures var r := Dispatch(host, macros, m, line);
            Numbered(r) && Counts(m.c.names, r.c.names)
  {
    hide SetLabel, DoPlain, DoSubroutine;
    NamesCount(host, m.c, Args(m), line.l);
  }

  lemma StepCounts<W, L, A>(host: Host<W, L, A>, macros: seq<seq<Flat<L>>>, m: Machine<W, L, A>)
    requires Numbered(m)
    ensures var r := Step(host, macros, m);
            Numbered(r) && Counts(m.c.names, r.c.names)
  {
    hide Dispatch;
    if m.files != [] && Top(m.files).pos < |Top(m.files).lines| {
      DispatchCounts(host, macros, Jump(m, Top(m.files).pos + 1), Top(m.files).lines[Top(m.files).pos]);
    }
  }

  lemma {:induction false} StepsCount<W, L, A>(host: Host<W, L, A>, macros: seq<seq<Flat<L>>>, m: Machine<W, L, A>,
      n: nat)
    requires Numbered(m)
    ensures var r := Steps(host, macros, m, n);
            Numbered(r) && m.c.names.lastLocal <= r.c.names.lastLocal && m.c.names.lastDollar <= r.c.names.lastDollar
    decreases n
  {
    hide Step;
    if n != 0 {
      StepCounts(host, macros, m);
      StepsCount(host, macros, Step(host, macros, m), n - 1);
    }
  }

  /** The next line is a SUBROUTINE, or a macro call that is not too deep. */
  predicate Opens<W, L, A>(m: Machine<W, L, A>) {
    && m.files != [] && Top(m.files).pos < |Top(m.files).lines| && Active(m.ifs)
    && var line := Top(m.files).lines[Top(m.files).pos];
       line.SubroutineLine? || (line.CallLine? && m.level != MAXMACLEVEL)
  }

  lemma OpensNew<W, L, A>(host: Host<W, L, A>, macros: seq<seq<Flat<L>>>, m: Machine<W, L, A>)
    requires Opens(m)
    ensures Step(host, macros, m).c.names.lastLocal == m.c.names.lastLocal + 1
    ensures Top(m.files).lines[Top(m.files).pos].CallLine?
        ==> Step(host, macros, m).c.names.lastDollar > m.c.names.lastDollar
  {
  }

  /** Each SUBROUTINE and each macro call gets a local scope that has not been in use since the pass
      began, and so does each new scope of dollar labels. Names in it are other symbols than the
      same names were at any time before. */
  lemma ScopesAreFresh<W, L, A>(host: Host<W, L, A>, macros: seq<seq<Flat<L>>>, m: Machine<W, L, A>, i: nat, j: nat,
      n1: string, n2: string)
    requires Numbered(m) && i <= j && n1 != [] && n2 != []
    ensures var (earlier, before, now) := (Steps(host, macros, m, i), Steps(host, macros, m, j),
        Steps(host, macros, m, j + 1));
            && (Opens(before) ==> now.c.names.lastLocal != before.c.names.lastLocal)
            && (now.c.names.lastLocal != before.c.names.lastLocal && IsDot(n1) && IsDot(n2) ==>
                  Mangle(n1, earlier.c.names.scope) != Mangle(n2, now.c.names.scope))
            && (now.c.names.lastDollar != before.c.names.lastDollar && IsDollar(n1) && IsDollar(n2) ==>
                  Mangle(n1, earlier.c.names.scope) != Mangle(n2, now.c.names.scope))
  {
    hide Step, Mangle, Opens;
    var earlier := Steps(host, macros, m, i);
    var before := Steps(host, macros, m, j);
    StepsAdd(host, macros, m, j, 1);
    StepsAdd(host, macros, m, i, j - i);
    var now := Step(host, macros, before);
    assert Steps(host, macros, before, 1) == Steps(host, macros, now, 0) == now;
    StepsCount(host, macros, m, i);
    StepsCount(host, macros, earlier, j - i);
    StepCounts(host, macros, before);
    if Opens(before) {
      OpensNew(host, macros, before);
    }
    if (IsDot(n1) && IsDot(n2)) || (IsDollar(n1) && IsDollar(n2)) {
      MangleInjective(n1, earlier.c.names.scope, n2, now.c.names.scope);
    }
  }

  /** The label of a SUBROUTINE belongs to the scope that begins there, that of a macro call to the scope of
      the caller, which it comes back to. */
  lemma LabelsBelong<W, L, A>(host: Host<W, L, A>, macros: seq<seq<Flat<L>>>, m: Machine<W, L, A>, line: Flat<L>)
    requires m.files != [] && Active(m.ifs)
    ensures var r := Dispatch(host, macros, m, line);
            && (line.SubroutineLine? ==>
                  && r.c.w == host.define(m.c.w, r.c.names.scope, Args(m), line.l)
                  && r.c.names.scope.local == m.c.names.lastLocal + 1)
            && (line.CallLine? && m.level != MAXMACLEVEL ==>
                  && r.c.w == host.define(m.c.w, Top(r.files).saved, Args(m), line.l)
                  && Top(r.files).saved.local == m.c.names.scope.local)
  {
  }

  // ---------------------------------------------------------------------------
  // Dollar labels

  /** Does this line, met here, set its label? */
  predicate SetsLabel<W, L, A>(m: Machine<W, L, A>, line: Flat<L>) {
    match line
    case ElseLine(_) => m.ifs != [] && Top(m.ifs).acctrue
    case EndifLine(_) => m.ifs != [] && Top(m.ifs).acctrue
    case RependLine(_) => (Active(m.ifs) ==> EndsLoop(m)) && m.ifs != [] && Top(m.ifs).acctrue
    case MexitLine(_) => false
    case _ => Active(m.ifs)
  }

  /** The innermost loop is one of this file, and this is its last round. */
  predicate EndsLoop<W, L, A>(m: Machine<W, L, A>) {
    m.loops != [] && Top(m.loops).file == |m.files| && (Top(m.loops).unresolved || Top(m.loops).count == 1)
  }

  predicate Enters<W, L, A>(m: Machine<W, L, A>, line: Flat<L>) {
    line.CallLine? && Active(m.ifs) && m.level != MAXMACLEVEL
  }

  predicate Leaves<W, L, A>(m: Machine<W, L, A>, line: Flat<L>) {
    line.MexitLine? && Active(m.ifs)
  }

  /** A line that sets a global label begins a new scope of dollar labels, which is the current one or, if
      the line enters a macro, the one to come back to. No other line, macros aside, changes the scope. */
  lemma DispatchDollar<W, L, A>(host: Host<W, L, A>, macros: seq<seq<Flat<L>>>, m: Machine<W, L, A>, line: Flat<L>)
    requires m.files != [] && m.c.names.scope.dollar <= m.c.names.lastDollar
    ensures var (was, r) := (m.c.names, Dispatch(host, macros, m, line));
            var now := r.c.names;
            var global := SetsLabel(m, line) && host.global(Args(m), line.l);
            && (global && !Enters(m, line) ==> now.scope.dollar == now.lastDollar > was.lastDollar)
            && (Enters(m, line) ==>
                  && now.scope.dollar == now.lastDollar > was.lastDollar
                  && Top(r.files).saved.dollar < now.scope.dollar
                  && (if global then Top(r.files).saved.dollar > was.lastDollar
                      else Top(r.files).saved.dollar == was.scope.dollar))
            && (!global && !Enters(m, line) && !Leaves(m, line) ==>
                  now.scope.dollar == was.scope.dollar && now.lastDollar == was.lastDollar)
  {
  }

  /** The line the machine is about to read. */
  function NextLine<W, L, A>(m: Machine<W, L, A>): Flat<L>
    requires m.files != [] && Top(m.files).pos < |Top(m.files).lines|
  {
    Top(m.files).lines[Top(m.files).pos]
  }

  /** Dollar names before a global label and after it are different symbols, whatever line sets it. */
  lemma DollarsDiffer<W, L, A>(host: Host<W, L, A>, macros: seq<seq<Flat<L>>>, m: Machine<W, L, A>, i: nat, j: nat,
      n1: string, n2: string)
    requires Numbered(m) && i <= j && n1 != [] && n2 != [] && IsDollar(n1) && IsDollar(n2)
    requires var before := Steps(host, macros, m, j);
             && before.files != [] && Top(before.files).pos < |Top(before.files).lines|
             && SetsLabel(before, NextLine(before)) && host.global(Args(before), NextLine(before).l)
    ensures Mangle(n1, Steps(host, macros, m, i).c.names.scope) != Mangle(n2,
        Steps(host, macros, m, j + 1).c.names.scope)
  {
    hide Dispatch, Mangle, SetsLabel, Enters, Leaves;
    var before := Steps(host, macros, m, j);
    StepsAdd(host, macros, m, j, 1);
    StepsAdd(host, macros, m, i, j - i);
    StepsCount(host, macros, m, j);
    var jumped := Jump(before, Top(before.files).pos + 1);
    JumpKeeps(before, Top(before.files).pos + 1, NextLine(before));
    DispatchDollar(host, macros, jumped, NextLine(before));
    var now := Step(host, macros, before);
    assert Steps(host, macros, before, 1) == Steps(host, macros, now, 0) == now;
    ScopesAreFresh(host, macros, m, i, j, n1, n2);
  }

  lemma JumpKeeps<W, L, A>(m: Machine<W, L, A>, pos: nat, line: Flat<L>)
    requires m.files != []
    ensures var r := Jump(m, pos);
            && Args(r) == Args(m) && r.c == m.c
            && SetsLabel(r, line) == SetsLabel(m, line) && Enters(r, line) == Enters(m, line)
            && Leaves(r, line) == Leaves(m, line)
  {
  }

  /** Lines that are neither conditionals, loops, calls nor the like. */
  function PlainLines<L>(ls: seq<L>): (r: seq<Flat<L>>)
    ensures |r| == |ls| && forall i :: 0 <= i < |r| ==> r[i] == Plain(ls[i])
  {
    seq(|ls|, i requires 0 <= i < |ls| => Plain(ls[i]))
  }

  /** On the way through plain lines the scope of dollar labels changes at each global label. */
  lemma {:induction false} PlainDollar<W, L, A>(host: Host<W, L, A>, macros: seq<seq<Flat<L>>>, m: Machine<W, L, A>,
      ls: seq<L>)
    requires m.files != [] && At(m, PlainLines(ls)) && Active(m.ifs)
    requires m.c.names.scope.dollar <= m.c.names.lastDollar
    ensures var (was, now) := (m.c.names, Steps(host, macros, m, |ls|).c.names);
            && now.scope.dollar <= now.lastDollar
            && (if forall k :: 0 <= k < |ls| ==> !host.global(Args(m), ls[k])
                then now.scope.dollar == was.scope.dollar && now.lastDollar == was.lastDollar
                else now.scope.dollar > was.lastDollar)
    decreases |ls|
  {
    hide At, Step, PlainLines;
    if ls != [] {
      var next := Step(host, macros, m);
      PlainStep(host, macros, m, ls);
      PlainDollar(host, macros, next, ls[1..]);
      assert forall k :: 1 <= k < |ls| ==> ls[k] == ls[1..][k - 1];
    }
  }

  lemma PlainStep<W, L, A>(host: Host<W, L, A>, macros: seq<seq<Flat<L>>>, m: Machine<W, L, A>, ls: seq<L>)
    requires m.files != [] && At(m, PlainLines(ls)) && Active(m.ifs) && ls != []
    ensures var next := Step(host, macros, m);
            && Steps(host, macros, m, |ls|) == Steps(host, macros, next, |ls| - 1)
            && next.files != [] && At(next, PlainLines(ls[1..])) && next.ifs == m.ifs && Args(next) == Args(m)
            && next.c.names == Bump(m.c.names, host.global(Args(m), ls[0]))
  {
    var c := DoPlain(host, m.c, Args(m), ls[0]);
    assert PlainLines(ls) == [Plain(ls[0])] + PlainLines(ls[1..]);
    hide At, After, Steps, Step, PlainLines, DoPlain;
    AtParts(m, [Plain(ls[0])], PlainLines(ls[1..]), c);
    OnePlain(host, macros, m, ls[0]);
    AfterKeeps(m, c);
    StepFirst(host, macros, m, |ls|);
    PlainNames(host, m.c, Args(m), ls[0]);
  }

  lemma OnePlain<W, L, A>(host: Host<W, L, A>, macros: seq<seq<Flat<L>>>, m: Machine<W, L, A>, l: L)
    requires At(m, [Plain(l)]) && Active(m.ifs)
    ensures Step(host, macros, m) == After(m, 1, DoPlain(host, m.c, Args(m), l))
  {
    hide DoPlain;
    AtHead(m, [Plain(l)]);
  }

  lemma PlainNames<W, L, A>(host: Host<W, L, A>, c: Config<W>, a: A, l: L)
    ensures DoPlain(host, c, a, l).names == Bump(c.names, host.global(a, l))
  {
  }

  lemma AfterKeeps<W, L, A>(m: Machine<W, L, A>, c: Config<W>)
    requires m.files != []
    ensures After(m, 1, c).ifs == m.ifs && Args(After(m, 1, c)) == Args(m) && After(m, 1, c).c == c
    ensures After(m, 1, c).files != []
  {
  }

  lemma StepFirst<W, L, A>(host: Host<W, L, A>, macros: seq<seq<Flat<L>>>, m: Machine<W, L, A>, n: nat)
    requires n > 0
    ensures Steps(host, macros, m, n) == Steps(host, macros, Step(host, macros, m), n - 1)
  {
    hide Step;
  }

  /** Two dollar names at two places of such a run are the same symbol just if they are the same name and no
      global label is set between the places. */
  lemma DollarScopesExactly<W, L, A>(host: Host<W, L, A>, macros: seq<seq<Flat<L>>>, m: Machine<W, L, A>, ls: seq<L>,
      n1: string, n2: string)
    requires m.files != [] && At(m, PlainLines(ls)) && Active(m.ifs)
    requires m.c.names.scope.dollar <= m.c.names.lastDollar
    requires n1 != [] && n2 != [] && IsDollar(n1) && IsDollar(n2)
    ensures Mangle(n1, m.c.names.scope) == Mangle(n2, Steps(host, macros, m, |ls|).c.names.scope)
       <==> Clip(n1) == Clip(n2) && forall k :: 0 <= k < |ls| ==> !host.global(Args(m), ls[k])
  {
    hide Mangle, Clip, At, PlainLines;
    PlainDollar(host, macros, m, ls);
    MangleInjective(n1, m.c.names.scope, n2, Steps(host, macros, m, |ls|).c.names.scope);
  }

  // ---------------------------------------------------------------------------
  // Coming back

  /** No SUBROUTINE in the program itself; the macros it calls may have some. */
  predicate NoSubroutine<L>(b: Block<L>) {
    match b
    case Done => true
    case Then(s, rest) => NoSubroutineIn(s) && NoSubroutine(rest)
  }

  predicate NoSubroutineIn<L>(s: Stmt<L>) {
    match s
    case Subroutine(_) => false
    case If(_, yes, _) => NoSubroutine(yes)
    case IfElse(_, yes, _, no, _) => NoSubroutine(yes) && NoSubroutine(no)
    case Repeat(_, body, _) => NoSubroutine(body)
    case Include(_, file) => NoSubroutine(file)
    case _ => true
  }

  /** No line of the program itself sets a global label; the macros it calls may set some. */
  predicate NoGlobal<W, L, A>(host: Host<W, L, A>, a: A, b: Block<L>) {
    match b
    case Done => true
    case Then(s, rest) => NoGlobalIn(host, a, s) && NoGlobal(host, a, rest)
  }

  predicate NoGlobalIn<W, L, A>(host: Host<W, L, A>, a: A, s: Stmt<L>) {
    && !host.global(a, s.l)
    && match s
       case If(_, yes, endifLine) => NoGlobal(host, a, yes) && !host.global(a, endifLine)
       case IfElse(_, yes, elseLine, no, endifLine) =>
         NoGlobal(host, a, yes) && !host.global(a, elseLine) && NoGlobal(host, a, no) && !host.global(a, endifLine)
       case Repeat(_, body, rependLine) => NoGlobal(host, a, body) && !host.global(a, rependLine)
       case Include(_, file) => NoGlobal(host, host.noArgs, file)
       case _ => true
  }

  /** The local names after a program are those before it, and so are its dollar labels if no line of
      its own has set a global label. */
  predicate CameBack(before: Names, after: Names, dollars: bool) {
    before.scope.local == after.scope.local && (dollars ==> before.scope == after.scope)
  }

  lemma LabelComesBack<W, L, A>(host: Host<W, L, A>, c: Config<W>, a: A, l: L)
    ensures CameBack(c.names, SetLabel(host, c, a, l).names, !host.global(a, l))
    ensures CameBack(c.names, DoPlain(host, c, a, l).names, !host.global(a, l))
    ensures CameBack(c.names, Test(host, c, a, l).0.names, !host.global(a, l))
  {
  }

  /** Whatever macros it calls, a program that has no SUBROUTINE ends in the local scope it began in; and if
      none of its own lines sets a global label, in the scope of dollar labels it began in, too. */
  lemma {:induction false} ScopeComesBack<W, L, A>(host: Host<W, L, A>, macros: seq<Macro<L>>, c: Config<W>, a: A,
      level: nat, b: Block<L>)
    requires level <= MAXMACLEVEL && NoSubroutine(b)
    ensures Run(host, macros, c, a, level, b).names.scope.local == c.names.scope.local
    ensures NoGlobal(host, a, b) ==> Run(host, macros, c, a, level, b).names.scope == c.names.scope
    decreases b, 2
  {
    hide RunStmt;
    match b
    case Done =>
    case Then(s, rest) =>
      StmtComesBack(host, macros, c, a, level, s);
      ScopeComesBack(host, macros, RunStmt(host, macros, c, a, level, s), a, level, rest);
  }

  lemma {:induction false} StmtComesBack<W, L, A>(host: Host<W, L, A>, macros: seq<Macro<L>>, c: Config<W>, a: A,
      level: nat, s: Stmt<L>)
    requires level <= MAXMACLEVEL && NoSubroutineIn(s)
    ensures CameBack(c.names, RunStmt(host, macros, c, a, level, s).names, NoGlobalIn(host, a, s))
    decreases s, 1
  {
    hide Run, SetLabel, Test, DoPlain;
    LabelComesBack(host, c, a, s.l);
    match s
    case If(l, yes, endifLine) =>
      var c1 := Test(host, c, a, l).0;
      ScopeComesBack(host, macros, c1, a, level, yes);
      LabelComesBack(host, c1, a, endifLine);
      LabelComesBack(host, Run(host, macros, c1, a, level, yes), a, endifLine);
    case IfElse(l, yes, elseLine, no, endifLine) =>
      EitherComesBack(host, macros, Test(host, c, a, l).0, a, level, s);
    case Repeat(l, body, rependLine) =>
      var (c1, x) := Test(host, c, a, l);
      var c2 := NoteCount(host, c1, x);
      TimesComeBack(host, macros, c2, a, level, body, Rounds(x));
      LabelComesBack(host, RunTimes(host, macros, c2, a, level, body, Rounds(x)), a, rependLine);
    case Include(l, file) => ScopeComesBack(host, macros, SetLabel(host, c, a, l), host.noArgs, level, file);
    case _ =>
  }

  lemma {:induction false} EitherComesBack<W, L, A>(host: Host<W, L, A>, macros: seq<Macro<L>>, c: Config<W>, a: A,
      level: nat, s: Stmt<L>)
    requires level <= MAXMACLEVEL && s.IfElse? && NoSubroutineIn(s)
    ensures var yes := SetLabel(host, Run(host, macros, c, a, level, s.yes), a, s.elseLine);
            var no := Run(host, macros, SetLabel(host, c, a, s.elseLine), a, level, s.no);
            && CameBack(c.names, SetLabel(host, yes, a, s.endifLine).names, NoGlobalIn(host, a, s))
            && CameBack(c.names, SetLabel(host, no, a, s.endifLine).names, NoGlobalIn(host, a, s))
    decreases s, 0
  {
    hide Run, SetLabel;
    ScopeComesBack(host, macros, c, a, level, s.yes);
    LabelComesBack(host, Run(host, macros, c, a, level, s.yes), a, s.elseLine);
    LabelComesBack(host, SetLabel(host, Run(host, macros, c, a, level, s.yes), a, s.elseLine), a, s.endifLine);
    var c1 := SetLabel(host, c, a, s.elseLine);
    LabelComesBack(host, c, a, s.elseLine);
    ScopeComesBack(host, macros, c1, a, level, s.no);
    LabelComesBack(host, Run(host, macros, c1, a, level, s.no), a, s.endifLine);
  }

  lemma {:induction false} TimesComeBack<W, L, A>(host: Host<W, L, A>, macros: seq<Macro<L>>, c: Config<W>, a: A,
      level: nat, body: Block<L>, n: nat)
    requires level <= MAXMACLEVEL && NoSubroutine(body)
    ensures CameBack(c.names, RunTimes(host, macros, c, a, level, body, n).names, NoGlobal(host, a, body))
    decreases body, 3, n
  {
    hide Run;
    if n != 0 {
      ScopeComesBack(host, macros, c, a, level, body);
      TimesComeBack(host, macros, Run(host, macros, c, a, level, body), a, level, body, n - 1);
    }
  }
}
