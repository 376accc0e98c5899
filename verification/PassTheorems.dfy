/** What a pass that asks for no other pass guarantees: the operands it used agree with the symbol
    table it ends with. */
module PassTheorems {
  import opened Bytes
  import opened Operators
  import AddressModes
  import Encoding
  import opened Lexer
  import opened Symbols
  import opened ExprMachine
  import opened ExprTree
  import opened ExprText
  import opened ExprTheorems
  import opened EvalSafety
  import opened ExprFits
  import opened Pass

  // ---------------------------------------------------------------------------
  // Definitions

  /** The symbols a program defines as labels, and those it defines by EQU. */
  function LabelKeys(prog: seq<Line>): set<string> {
    set line | line in prog && line.name != [] && !line.op.Equ? :: Key(line.name)
  }

  function EquKeys(prog: seq<Line>): set<string> {
    set line | line in prog && line.name != [] && line.op.Equ? :: Key(line.name)
  }

  /** Does this line take part in the assembly? */
  predicate Executes(st: State, line: Line) {
    !st.fault && Active(st.ifs) && !line.op.Else? && !line.op.Endif?
  }

  /** Operations whose operands must be known before the assembler is content. */
  predicate Consumes(op: Op) {
    !op.Org? && !op.Equ?
  }

  /** Two symbols with the same value and the same knowledge of it. */
  predicate SameValue(a: Symbol, b: Symbol) {
    a.value == b.value && a.unknown == b.unknown
  }

  /** Nothing but another pass can change this symbol's value: it is known, and it has been
      referenced, or is no label, or the origin is known and (orgs) stays known. */
  predicate Stable(st: State, k: string, labels: set<string>, orgs: bool) {
    var sym := Find(st.syms, k);
    !sym.unknown && (sym.ref || k !in labels || (orgs && !st.orgUnknown))
  }

  /** If this line sets the origin, it sets it to a known address, with a known fill byte. */
  predicate OrgResolved(st: State, line: Line) {
    Executes(st, line) && line.op.Org? ==>
      forall i :: 0 <= i < |Exprs(line.op)| ==> !Args(st, line.op)[i].unknown
  }

  /** Every ORG of the pass does. */
  ghost predicate OrgsResolved(st: State, prog: seq<Line>, cpu: Processor)
    requires ProgramOk(prog)
    decreases |prog|
  {
    prog != [] ==> OrgResolved(st, prog[0]) && OrgsResolved(StepLine(st, prog[0], cpu), prog[1..], cpu)
  }

  /** The labels and equates of a program are among these keys and do not mix. */
  ghost predicate Separate(prog: seq<Line>, labels: set<string>) {
    LabelKeys(prog) <= labels && EquKeys(prog) !! labels
  }

  ghost predicate SeparateLine(line: Line, labels: set<string>) {
    line.name != [] ==> (if line.op.Equ? then Key(line.name) !in labels else Key(line.name) in labels)
  }

  /** The state in which a line's label gets its address, if it does. */
  function LabelState(st: State, line: Line, cpu: Processor): Option<State>
    requires LineOk(line)
  {
    if st.fault || line.name == [] then None
    else if line.op.Else? || line.op.Endif? then
      if st.ifs != [] && TopFrame(st.ifs).acctrue then Some(st) else None
    else if !Active(st.ifs) || line.op.Equ? then None
    else if LabelFirst(line.op) then Some(st)
    else
      var s3 := Act(Evaluated(st, line.op), line, Args(st, line.op), cpu);
      if s3.fault then None else Some(s3)
  }

  /** Symbols that this line sets as labels at an unknown origin are among these keys, and symbols it
      equates are not. */
  ghost predicate ApartAt(st: State, line: Line, cpu: Processor, labels: set<string>)
    requires LineOk(line)
  {
    && (Executes(st, line) && line.op.Equ? && line.name != [] ==> Key(line.name) !in labels)
    && (var at := LabelState(st, line, cpu);
        at.Some? && at.value.orgUnknown && line.name != [] ==> Key(line.name) in labels)
  }

  /** In this pass no symbol is both equated and set as a label at an unknown origin. */
  ghost predicate Apart(st: State, prog: seq<Line>, cpu: Processor, labels: set<string>)
    requires ProgramOk(prog)
    decreases |prog|
  {
    prog != [] ==> ApartAt(st, prog[0], cpu, labels) && Apart(StepLine(st, prog[0], cpu), prog[1..], cpu, labels)
  }

  lemma SeparateParts(prog: seq<Line>, labels: set<string>)
    requires prog != [] && Separate(prog, labels)
    ensures SeparateLine(prog[0], labels) && Separate(prog[1..], labels)
  {
    hide Mangle;
    var line := prog[0];
    assert line in prog;
    if line.name != [] && !line.op.Equ? {
      assert Key(line.name) in LabelKeys(prog);
    } else if line.name != [] {
      assert Key(line.name) in EquKeys(prog);
    }
    assert LabelKeys(prog[1..]) <= LabelKeys(prog);
    assert EquKeys(prog[1..]) <= EquKeys(prog);
  }

  /** Labels and equates that do not mix at all do not mix in any pass. */
  lemma {:induction false} SeparateApart(st: State, prog: seq<Line>, cpu: Processor, labels: set<string>)
    requires ProgramOk(prog) && Separate(prog, labels)
    ensures Apart(st, prog, cpu, labels)
    decreases |prog|
  {
    hide StepLine, LineOk, Separate, LabelState, Mangle;
    if prog != [] {
      OkParts(prog);
      SeparateParts(prog, labels);
      if prog[0].op.Equ? {
        LabelStateNone(st, prog[0], cpu);
      }
      SeparateApart(StepLine(st, prog[0], cpu), prog[1..], cpu, labels);
    }
  }

  lemma LabelStateNone(st: State, line: Line, cpu: Processor)
    requires LineOk(line) && line.op.Equ?
    ensures LabelState(st, line, cpu) == None
  {
    hide Act, LineOk;
  }

  lemma OkParts(prog: seq<Line>)
    requires prog != [] && ProgramOk(prog)
    ensures LineOk(prog[0]) && ProgramOk(prog[1..])
  {
    hide LineOk;
    assert prog[0] in prog;
  }

  // ---------------------------------------------------------------------------
  // The count of reasons for another pass only grows

  lemma {:induction false} GenFillGrows(st: State, gen: seq<byte>, bytes: nat)
    requires |gen| == GEN_SIZE
    ensures var r := GenFill(st, gen, bytes);
            r.redo >= st.redo && r.syms == st.syms && r.ifs == st.ifs && r.orgUnknown == st.orgUnknown
              && r.fault == st.fault
    decreases bytes
  {
    if bytes > GEN_SIZE {
      GenFillGrows(Generate(st, gen), gen, bytes - GEN_SIZE);
    }
  }

  lemma FillGrows(st: State, fill: int, entries: nat, size: nat, msbFirst: bool)
    ensures var r := Fill(st, fill, entries, size, msbFirst);
            r.redo >= st.redo && r.syms == st.syms && r.ifs == st.ifs && r.orgUnknown == st.orgUnknown
              && r.fault == st.fault
  {
    if entries != 0 {
      GenFillGrows(st, Pattern(fill, size, msbFirst), entries * size);
    }
  }

  lemma GenerateGrows(st: State, bytes: seq<byte>)
    ensures var r := Generate(st, bytes);
            r.redo >= st.redo && r.syms == st.syms && r.orgUnknown == st.orgUnknown
  {
  }

  lemma {:induction false} NoneUnknown(args: seq<Arg>)
    requires CountUnknown(args) == 0
    ensures forall i :: 0 <= i < |args| ==> !args[i].unknown
  {
    if args != [] {
      NoneUnknown(args[1..]);
      forall i | 0 <= i < |args| ensures !args[i].unknown {
        if i > 0 {
          assert args[i] == args[1..][i - 1];
        }
      }
    }
  }

  lemma CodeGrows(st: State, op: Op, operand: Operand, cpu: Processor)
    requires (op.Instr? || op.Implied?) && Encoding.WellFormed(op.mne)
    ensures var r := CodeOperand(st, op, operand, cpu);
            r.redo >= st.redo && r.syms == st.syms && r.orgUnknown == st.orgUnknown
              && (r.redo == 0 ==> !operand.arg.unknown)
  {
    hide Generate, Encoding.Encode;
    var code := Encoding.Encode(op.mne, operand, op.forced, op.isForced, cpu.msbFirst, Arg(st.org, st.orgUnknown));
    if code.Coded? {
      GenerateGrows(Again(st, operand.arg.unknown, MnemonicNotResolved), code.bytes);
    }
  }

  lemma DataGrows(st: State, args: seq<Arg>, size: nat, cpu: Processor)
    ensures var r := Data(st, args, size, cpu);
            r.redo >= st.redo && r.syms == st.syms && r.orgUnknown == st.orgUnknown
            && (r.redo == 0 ==> forall i :: 0 <= i < |args| ==> !args[i].unknown)
  {
    hide Generate, DataBytes, CountUnknown;
    GenerateGrows(AgainFor(st, CountUnknown(args), DcNotResolved), DataBytes(args, size, cpu.msbFirst));
    if CountUnknown(args) == 0 {
      NoneUnknown(args);
    }
  }

  lemma SpaceGrows(st: State, args: seq<Arg>, size: nat, cpu: Processor)
    requires 1 <= |args| <= 2
    ensures var r := Space(st, args, size, cpu);
            r.redo >= st.redo && r.syms == st.syms && r.orgUnknown == st.orgUnknown
            && (r.redo == 0 ==> forall i :: 0 <= i < |args| ==> !args[i].unknown)
  {
    hide Fill;
    var st1 := Again(st, |args| > 1 && args[1].unknown, DsNotResolved);
    if args[0].value >= 0 {
      FillGrows(st1, if |args| > 1 then args[1].value else 0, args[0].value, size, cpu.msbFirst);
    }
  }

  lemma AlignGrows(st: State, args: seq<Arg>, cpu: Processor)
    requires 1 <= |args| <= 2
    ensures var r := AlignTo(st, args, cpu);
            r.redo >= st.redo && r.syms == st.syms && r.orgUnknown == st.orgUnknown
            && (r.redo == 0 ==> forall i :: 0 <= i < |args| ==> !args[i].unknown)
  {
    hide Fill;
    var st1 := Again(st, |args| > 1 && args[1].unknown, AlignNotResolved);
    var fill := if |args| > 1 && !args[1].unknown then Lo(args[1].value) else 0;
    var n := args[0].value;
    if n > 0 {
      FillGrows(st1, fill, n - st.org % n, 1, cpu.msbFirst);
    }
  }

  /** Nothing takes back a reason for another pass; only EQU writes to the table; and whoever uses
      an unknown operand asks for another pass. */
  lemma ActGrows(st: State, line: Line, args: seq<Arg>, cpu: Processor)
    requires LineOk(line) && |args| == |Exprs(line.op)|
    ensures var r := Act(st, line, args, cpu);
            && r.redo >= st.redo && (!line.op.Equ? ==> r.syms == st.syms)
            && (!line.op.Org? ==> r.orgUnknown == st.orgUnknown)
            && (Consumes(line.op) && r.redo == 0 ==> forall i :: 0 <= i < |args| ==> !args[i].unknown)
  {
    hide CodeOperand, Data, Space, AlignTo, ExprOk, ListText, LooksIndexed, Mangle, NameOk;
    match line.op
    case Instr(_, form, _, _, _) => CodeGrows(st, line.op, Operand(form.Mode(), args[0]), cpu);
    case Implied(_, _, _) => CodeGrows(st, line.op, Operand(AddressModes.Imp, ZERO), cpu);
    case Dc(size, _) => DataGrows(st, args, size, cpu);
    case Ds(size, _, _) => SpaceGrows(st, args, size, cpu);
    case Align(_, _) => AlignGrows(st, args, cpu);
    case _ =>
  }

  lemma LabelGrows(st: State, name: string)
    ensures ProgramLabel(st, name).redo >= st.redo
  {
  }

  lemma StepGrows(st: State, line: Line, cpu: Processor)
    requires LineOk(line)
    ensures StepLine(st, line, cpu).redo >= st.redo
  {
    hide Act, ProgramLabel, LineOk;
    LabelGrows(st, line.name);
    if Executes(st, line) {
      var s1 := Before(st, line);
      var s2 := Evaluated(s1, line.op);
      ActGrows(s2, line, Args(s1, line.op), cpu);
      LabelGrows(Act(s2, line, Args(s1, line.op), cpu), line.name);
    }
  }

  lemma {:induction false} RunGrows(st: State, prog: seq<Line>, cpu: Processor)
    requires ProgramOk(prog)
    ensures Run(st, prog, cpu).redo >= st.redo
    decreases |prog|
  {
    if prog != [] {
      OkParts(prog);
      StepGrows(st, prog[0], cpu);
      RunGrows(StepLine(st, prog[0], cpu), prog[1..], cpu);
    }
  }

  // ---------------------------------------------------------------------------
  // Referenced symbols keep their values

  lemma LabelKeeps(st: State, name: string, k: string, labels: set<string>, orgs: bool)
    requires name != [] && st.orgUnknown ==> Key(name) in labels
    requires Stable(st, k, labels, orgs) && ProgramLabel(st, name).redo == 0
    ensures var r := ProgramLabel(st, name);
            Stable(r, k, labels, orgs) && SameValue(Find(r.syms, k), Find(st.syms, k))
  {
    hide Mangle;
  }

  lemma TouchKeeps(st: State, op: Op, k: string, labels: set<string>, orgs: bool)
    requires Stable(st, k, labels, orgs)
    ensures var r := Evaluated(st, op);
            Stable(r, k, labels, orgs) && SameValue(Find(r.syms, k), Find(st.syms, k))
  {
    hide ListEffect;
  }

  lemma ActKeeps(st: State, line: Line, args: seq<Arg>, cpu: Processor, k: string, labels: set<string>, orgs: bool)
    requires LineOk(line) && |args| == |Exprs(line.op)|
    requires line.op.Equ? && line.name != [] ==> Key(line.name) !in labels
    requires orgs && line.op.Org? ==> !args[0].unknown
    requires Stable(st, k, labels, orgs) && Act(st, line, args, cpu).redo == 0
    ensures var r := Act(st, line, args, cpu);
            Stable(r, k, labels, orgs) && SameValue(Find(r.syms, k), Find(st.syms, k))
  {
    hide Mangle, Act, LineOk;
    ActGrows(st, line, args, cpu);
    if line.op.Org? {
      assert Act(st, line, args, cpu) == SetOrigin(st, args) by { OrgActs(st, line, args, cpu); }
    }
    if line.op.Equ? {
      EquateActs(st, line, args, cpu);
    }
  }

  /** One line of a pass that asks for no other pass. */
  lemma StepKeeps(st: State, line: Line, cpu: Processor, k: string, labels: set<string>, orgs: bool)
    requires LineOk(line) && ApartAt(st, line, cpu, labels)
    requires orgs ==> OrgResolved(st, line)
    requires Stable(st, k, labels, orgs) && StepLine(st, line, cpu).redo == 0
    ensures var r := StepLine(st, line, cpu);
            Stable(r, k, labels, orgs) && SameValue(Find(r.syms, k), Find(st.syms, k))
  {
    hide Act, ProgramLabel, LineOk, Evaluated, Mangle, Args;
    if Executes(st, line) {
      ExecuteKeeps(st, line, cpu, k, labels, orgs);
    } else if !st.fault && (line.op.Else? || line.op.Endif?) {
      if st.ifs != [] && TopFrame(st.ifs).acctrue {
        LabelKeeps(st, line.name, k, labels, orgs);
      }
    }
  }

  lemma ExecuteKeeps(st: State, line: Line, cpu: Processor, k: string, labels: set<string>, orgs: bool)
    requires LineOk(line) && ApartAt(st, line, cpu, labels) && Executes(st, line)
    requires orgs && line.op.Org? ==> !Args(st, line.op)[0].unknown
    requires Stable(st, k, labels, orgs) && Execute(st, line, cpu).redo == 0
    ensures var r := Execute(st, line, cpu);
            Stable(r, k, labels, orgs) && SameValue(Find(r.syms, k), Find(st.syms, k))
  {
    hide Act, ProgramLabel, LineOk, Evaluated, Mangle, Args, Stable;
    var s1 := Before(st, line);
    var s2 := Evaluated(s1, line.op);
    var args := Args(s1, line.op);
    var s3 := Act(s2, line, args, cpu);
    RedoInside(st, line, cpu);
    if LabelFirst(line.op) {
      LabelKeeps(st, line.name, k, labels, orgs);
    }
    TouchKeeps(s1, line.op, k, labels, orgs);
    ActKeeps(s2, line, args, cpu, k, labels, orgs);
    if LabelLast(line.op) && !s3.fault {
      LabelKeeps(s3, line.name, k, labels, orgs);
    }
  }

  /** If a line ends without a reason for another pass, so did its parts. */
  lemma RedoInside(st: State, line: Line, cpu: Processor)
    requires LineOk(line) && Execute(st, line, cpu).redo == 0
    ensures var s1 := Before(st, line);
            var s2 := Evaluated(s1, line.op);
            var s3 := Act(s2, line, Args(s1, line.op), cpu);
            st.redo == 0 && s1.redo == 0 && s2.redo == 0 && s3.redo == 0
  {
    hide Act, ProgramLabel, LineOk, Args;
    var s1 := Before(st, line);
    var s2 := Evaluated(s1, line.op);
    var s3 := Act(s2, line, Args(s1, line.op), cpu);
    ActGrows(s2, line, Args(s1, line.op), cpu);
    LabelGrows(st, line.name);
    LabelGrows(s3, line.name);
  }

  /** A symbol that is known and referenced keeps its value to the end of such a pass. */
  lemma {:induction false} RunKeeps(st: State, prog: seq<Line>, cpu: Processor, k: string, labels: set<string>,
      orgs: bool)
    requires ProgramOk(prog) && Apart(st, prog, cpu, labels)
    requires orgs ==> OrgsResolved(st, prog, cpu)
    requires Stable(st, k, labels, orgs) && Run(st, prog, cpu).redo == 0
    ensures var r := Run(st, prog, cpu);
            Stable(r, k, labels, orgs) && SameValue(Find(r.syms, k), Find(st.syms, k))
    decreases |prog|
  {
    hide StepLine, LineOk, Stable, ApartAt, OrgResolved;
    if prog != [] {
      OkParts(prog);
      RunGrows(StepLine(st, prog[0], cpu), prog[1..], cpu);
      StepKeeps(st, prog[0], cpu, k, labels, orgs);
      RunKeeps(StepLine(st, prog[0], cpu), prog[1..], cpu, k, labels, orgs);
    }
  }

  // ---------------------------------------------------------------------------
  // What operands are worth

  /** The value of a leaf, spelled out. */
  function LeafArg(st: State, leaf: Leaf): Arg
    requires LeafShaped(leaf)
  {
    match leaf
    case Name(n) => Arg(Find(st.syms, Key(n)).value, Find(st.syms, Key(n)).unknown)
    case Dot => Arg(st.org, st.orgUnknown)
    case Star => Arg(st.org, st.orgUnknown)
    case Decimal(ds) => Arg(NumberValue(ds, Radix10), false)
    case Octal(ds) => Arg(NumberValue(ds, Radix8), false)
    case Hex(ds) => Arg(NumberValue(ds, Radix16), false)
    case Bits(ds) => Arg(NumberValue(ds, Radix2), false)
    case Character(c) => Arg(c as int, false)
  }

  lemma LeafValue(st: State, leaf: Leaf)
    requires LeafShaped(leaf) && NoEqm(st.syms)
    ensures ValuesOf(st)(leaf) == LeafArg(st, leaf)
    ensures Resolve(EnvOf(st), leaf, 0).errors == 0 && EqmText(leaf, EnvOf(st)).None?
    ensures leaf.Name? ==> LeafEffect(leaf, EnvOf(st), 0).keys == {Key(leaf.name)}
  {
    hide Mangle, NumberValue;
  }

  lemma {:induction false} LeafTouched(st: State, e: Expr, leaf: Leaf)
    requires Shaped(e) && leaf in Leaves(e) && leaf.Name? && NoEqm(st.syms)
    ensures leaf.name != [] && Key(leaf.name) in ExprEffect(e, EnvOf(st), 0).keys
  {
    hide Mangle, LeafEffect;
    match e
    case Atom(_) => LeafValue(st, leaf);
    case PrefixOp(_, e1) => LeafTouched(st, e1, leaf);
    case Bracket(e1) => LeafTouched(st, e1, leaf);
    case BinaryOp(_, _, l, r) => if leaf in Leaves(l) { LeafTouched(st, l, leaf); } else { LeafTouched(st, r, leaf); }
  }

  lemma {:induction false} ListTouches(env: Env, es: seq<Expr>, e: Expr)
    requires e in es
    ensures ExprEffect(e, env, 0).keys <= ListEffect(es, env, 0).keys
  {
    hide ExprEffect;
    if e != es[0] {
      ListTouches(env, es[1..], e);
    }
  }

  /** After an operand has been evaluated its symbols are marked referenced. */
  lemma OperandTouched(st: State, op: Op, e: Expr, leaf: Leaf)
    requires e in Exprs(op) && Shaped(e) && leaf in Leaves(e) && leaf.Name? && NoEqm(st.syms)
    ensures var r := Evaluated(st, op);
            leaf.name != [] && Find(r.syms, Key(leaf.name)) == Find(st.syms, Key(leaf.name)).(ref := true)
  {
    hide Mangle, ExprEffect, ListEffect;
    LeafTouched(st, e, leaf);
    ListTouches(EnvOf(st), Exprs(op), e);
  }

  lemma NoEqmKept(st: State, line: Line, cpu: Processor)
    requires LineOk(line) && NoEqm(st.syms)
    ensures NoEqm(StepLine(st, line, cpu).syms) && NoEqm(Before(st, line).syms)
  {
    hide Mangle, Act, LineOk, ListEffect, ProgramLabel, NoEqm, Args, Equate, Touch;
    LabelNoEqm(st, line.name);
    if Executes(st, line) {
      var s1 := Before(st, line);
      var s2 := Evaluated(s1, line.op);
      var args := Args(s1, line.op);
      TouchNoEqm(s1.syms, ListEffect(Exprs(line.op), EnvOf(s1), 0).keys);
      assert NoEqm(s2.syms);
      ActGrows(s2, line, args, cpu);
      if line.op.Equ? {
        EquateActs(s2, line, args, cpu);
        EquateNoEqm(s2, line.name, args[0]);
      }
      LabelNoEqm(Act(s2, line, args, cpu), line.name);
    }
  }

  lemma LabelNoEqm(st: State, name: string)
    requires NoEqm(st.syms)
    ensures NoEqm(ProgramLabel(st, name).syms)
  {
    hide Mangle;
  }

  lemma TouchNoEqm(t: Table, keys: set<string>)
    requires NoEqm(t)
    ensures NoEqm(Touch(t, keys))
  {
  }

  lemma EquateNoEqm(st: State, name: string, a: Arg)
    requires NoEqm(st.syms) && name != []
    ensures NoEqm(Equate(st, name, a).syms)
  {
    hide Mangle;
  }

  lemma OrgActs(st: State, line: Line, args: seq<Arg>, cpu: Processor)
    requires LineOk(line) && line.op.Org? && |args| == |Exprs(line.op)|
    ensures args != [] && Act(st, line, args, cpu) == SetOrigin(st, args)
  {
  }

  lemma EquateActs(st: State, line: Line, args: seq<Arg>, cpu: Processor)
    requires LineOk(line) && line.op.Equ? && |args| == |Exprs(line.op)|
    ensures line.name != [] && |args| == 1 && Act(st, line, args, cpu) == Equate(st, line.name, args[0])
  {
  }

  // ---------------------------------------------------------------------------
  // Consistency

  /** Every operand the line used was known and is worth the same with the final table, its own
      program counter aside; an equate that was known still holds. */
  ghost predicate LineConsistent(st: State, line: Line, cpu: Processor, final: Table)
    requires LineOk(line)
  {
    Executes(st, line) ==>
      var s1 := Before(st, line);
      && (Consumes(line.op) ==>
            forall e :: e in Exprs(line.op) ==>
              !Meaning(e, ValuesOf(s1)).unknown
              && Meaning(e, ValuesOf(s1.(syms := final))) == Meaning(e, ValuesOf(s1)))
      && (line.op.Equ? && !Meaning(line.op.e, ValuesOf(s1)).unknown ==>
            line.name != []
            && Meaning(line.op.e, ValuesOf(s1.(syms := final))) == Meaning(line.op.e, ValuesOf(s1))
            && SameValue(Find(final, Key(line.name)),
                 Symbol(Meaning(line.op.e, ValuesOf(s1)).value, false, false, None)))
  }

  ghost predicate PassConsistent(st: State, prog: seq<Line>, cpu: Processor, final: Table)
    requires ProgramOk(prog)
    decreases |prog|
  {
    prog != [] ==>
      && LineConsistent(st, prog[0], cpu, final)
      && PassConsistent(StepLine(st, prog[0], cpu), prog[1..], cpu, final)
  }

  /** The end of a pass that starts at this line. */
  function Rest(st: State, line: Line, rest: seq<Line>, cpu: Processor): State
    requires LineOk(line) && ProgramOk(rest)
  {
    Run(StepLine(st, line, cpu), rest, cpu)
  }

  ghost predicate ApartFrom(st: State, line: Line, rest: seq<Line>, cpu: Processor, labels: set<string>)
    requires LineOk(line) && ProgramOk(rest)
  {
    ApartAt(st, line, cpu, labels) && Apart(StepLine(st, line, cpu), rest, cpu, labels)
  }

  /** A symbol that is stable when the operands have been evaluated keeps its value to the end. */
  lemma EvaluatedKeeps(st: State, line: Line, rest: seq<Line>, cpu: Processor, k: string, labels: set<string>,
      orgs: bool)
    requires LineOk(line) && ProgramOk(rest) && ApartFrom(st, line, rest, cpu, labels)
    requires Executes(st, line) && Rest(st, line, rest, cpu).redo == 0
    requires orgs ==> OrgResolved(st, line) && OrgsResolved(StepLine(st, line, cpu), rest, cpu)
    requires Stable(Evaluated(Before(st, line), line.op), k, labels, orgs)
    ensures SameValue(Find(Rest(st, line, rest, cpu).syms, k), Find(Evaluated(Before(st, line), line.op).syms, k))
  {
    hide Act, ProgramLabel, LineOk, Evaluated, Mangle, Args, Stable, Run;
    RunGrows(StepLine(st, line, cpu), rest, cpu);
    RedoInside(st, line, cpu);
    var s1 := Before(st, line);
    var s2 := Evaluated(s1, line.op);
    var args := Args(s1, line.op);
    var s3 := Act(s2, line, args, cpu);
    ActKeeps(s2, line, args, cpu, k, labels, orgs);
    if LabelLast(line.op) && !s3.fault {
      LabelKeeps(s3, line.name, k, labels, orgs);
    }
    RunKeeps(StepLine(st, line, cpu), rest, cpu, k, labels, orgs);
  }

  /** For every operand, the final table knows at least what was known when it was used. */
  lemma FinalInforms(st: State, line: Line, rest: seq<Line>, cpu: Processor, labels: set<string>, e: Expr)
    requires LineOk(line) && ProgramOk(rest) && ApartFrom(st, line, rest, cpu, labels)
    requires Executes(st, line) && Rest(st, line, rest, cpu).redo == 0
    requires NoEqm(st.syms) && NoEqm(Rest(st, line, rest, cpu).syms) && e in Exprs(line.op) && Shaped(e)
    ensures var s1 := Before(st, line);
            Informs(ValuesOf(s1.(syms := Rest(st, line, rest, cpu).syms)), ValuesOf(s1), Leaves(e))
  {
    hide Act, ProgramLabel, LineOk, Evaluated, Mangle, Args, Run, Before, StepLine, ValuesOf, NumberValue, LeafShaped,
      Shaped, Rest;
    var s1 := Before(st, line);
    var final := Rest(st, line, rest, cpu).syms;
    assert NoEqm(s1.syms) by { NoEqmKept(st, line, cpu); }
    forall leaf | leaf in Leaves(e)
      ensures Refines(ValuesOf(s1)(leaf), ValuesOf(s1.(syms := final))(leaf))
    {
      LeavesShaped(e, leaf);
      LeafValue(s1, leaf);
      LeafValue(s1.(syms := final), leaf);
      if leaf.Name? && !LeafArg(s1, leaf).unknown {
        OperandTouched(s1, line.op, e, leaf);
        EvaluatedKeeps(st, line, rest, cpu, Key(leaf.name), labels, false);
      }
    }
  }

  lemma MeaningsAt(es: seq<Expr>, v: Valuation, e: Expr)
    requires e in es
    ensures Meaning(e, v) in Meanings(es, v)
  {
    var i :| 0 <= i < |es| && es[i] == e;
    assert Meanings(es, v)[i] == Meaning(e, v);
  }

  /** Every operand an executed line used was known. */
  lemma UsedKnown(st: State, line: Line, rest: seq<Line>, cpu: Processor, e: Expr)
    requires LineOk(line) && ProgramOk(rest) && Executes(st, line) && Consumes(line.op)
    requires Rest(st, line, rest, cpu).redo == 0 && e in Exprs(line.op)
    ensures !Meaning(e, ValuesOf(Before(st, line))).unknown
  {
    hide Act, ProgramLabel, LineOk, Evaluated, Run, Before, Meaning, ValuesOf;
    var s1 := Before(st, line);
    RunGrows(StepLine(st, line, cpu), rest, cpu);
    RedoInside(st, line, cpu);
    ActGrows(Evaluated(s1, line.op), line, Args(s1, line.op), cpu);
    MeaningsAt(Exprs(line.op), ValuesOf(s1), e);
  }

  lemma OkShaped(line: Line, e: Expr)
    requires LineOk(line) && e in Exprs(line.op)
    ensures ExprOk(e)
  {
  }

  /** An equate that was known holds to the end. */
  lemma EquateFinal(st: State, line: Line, rest: seq<Line>, cpu: Processor, labels: set<string>)
    requires LineOk(line) && ProgramOk(rest) && ApartFrom(st, line, rest, cpu, labels)
    requires Executes(st, line) && Rest(st, line, rest, cpu).redo == 0 && line.op.Equ?
    requires !Meaning(line.op.e, ValuesOf(st)).unknown
    ensures line.name != []
            && SameValue(Find(Rest(st, line, rest, cpu).syms, Key(line.name)),
                         Symbol(Meaning(line.op.e, ValuesOf(st)).value, false, false, None))
  {
    hide ProgramLabel, Evaluated, Mangle, Run, Meaning, ValuesOf, Act, LineOk;
    var args := Args(st, line.op);
    var s2 := Evaluated(st, line.op);
    EquateActs(s2, line, args, cpu);
    assert args[0] == Meaning(line.op.e, ValuesOf(st));
    RunKeeps(StepLine(st, line, cpu), rest, cpu, Key(line.name), labels, false);
  }

  /** One line of a pass that asks for no other pass agrees with the final table. */
  lemma LineIsConsistent(st: State, line: Line, rest: seq<Line>, cpu: Processor, labels: set<string>)
    requires LineOk(line) && ProgramOk(rest) && ApartFrom(st, line, rest, cpu, labels)
    requires Rest(st, line, rest, cpu).redo == 0
    requires NoEqm(st.syms) && NoEqm(Rest(st, line, rest, cpu).syms)
    ensures LineConsistent(st, line, cpu, Rest(st, line, rest, cpu).syms)
  {
    hide ProgramLabel, Evaluated, Mangle, Run, Meaning, ValuesOf, Act, LineOk, Rest, NoEqm;
    if Executes(st, line) {
      var s1 := Before(st, line);
      var final := Rest(st, line, rest, cpu).syms;
      forall e | e in Exprs(line.op)
        ensures Refines(Meaning(e, ValuesOf(s1)), Meaning(e, ValuesOf(s1.(syms := final))))
      {
        OkShaped(line, e);
        FinalInforms(st, line, rest, cpu, labels, e);
        MeaningMonotone(e, ValuesOf(s1), ValuesOf(s1.(syms := final)));
      }
      if Consumes(line.op) {
        forall e | e in Exprs(line.op) ensures !Meaning(e, ValuesOf(s1)).unknown {
          UsedKnown(st, line, rest, cpu, e);
        }
      } else if line.op.Equ? && !Meaning(line.op.e, ValuesOf(s1)).unknown {
        assert line.op.e in Exprs(line.op);
        EquateFinal(st, line, rest, cpu, labels);
      }
    }
  }

  lemma {:induction false} NoEqmRun(st: State, prog: seq<Line>, cpu: Processor)
    requires ProgramOk(prog) && NoEqm(st.syms)
    ensures NoEqm(Run(st, prog, cpu).syms)
    decreases |prog|
  {
    hide StepLine, LineOk;
    if prog != [] {
      OkParts(prog);
      NoEqmKept(st, prog[0], cpu);
      NoEqmRun(StepLine(st, prog[0], cpu), prog[1..], cpu);
    }
  }

  /** A pass that asks for no other pass is consistent with the table it ends with, whatever table
      it began with: every operand used was known, and has the same value in the final table. Only
      symbols that are set as labels at an unknown origin must not be equated as well; where every
      label is set at a known origin, no symbol is among these keys. */
  lemma {:induction false} PassIsConsistent(st: State, prog: seq<Line>, cpu: Processor, labels: set<string>)
    requires ProgramOk(prog) && Apart(st, prog, cpu, labels) && NoEqm(st.syms)
    requires Run(st, prog, cpu).redo == 0
    ensures PassConsistent(st, prog, cpu, Run(st, prog, cpu).syms)
    decreases |prog|
  {
    hide StepLine, LineOk, LineConsistent, ApartAt;
    if prog != [] {
      OkParts(prog);
      NoEqmKept(st, prog[0], cpu);
      NoEqmRun(st, prog, cpu);
      LineIsConsistent(st, prog[0], prog[1..], cpu, labels);
      PassIsConsistent(StepLine(st, prog[0], cpu), prog[1..], cpu, labels);
    }
  }

  // ---------------------------------------------------------------------------
  // Labels

  predicate LabelFinal(at: Option<State>, name: string, final: Table) {
    at.Some? && !at.value.orgUnknown && name != [] ==>
      SameValue(Find(final, Key(name)), Symbol(at.value.org, false, false, None))
  }

  ghost predicate LabelsFinal(st: State, prog: seq<Line>, cpu: Processor, final: Table)
    requires ProgramOk(prog)
    decreases |prog|
  {
    prog != [] ==>
      && LabelFinal(LabelState(st, prog[0], cpu), prog[0].name, final)
      && LabelsFinal(StepLine(st, prog[0], cpu), prog[1..], cpu, final)
  }

  lemma LabelIsStable(st: State, name: string, labels: set<string>)
    requires name != [] && !st.orgUnknown
    ensures var r := ProgramLabel(st, name);
            Stable(r, Key(name), labels, true) && SameValue(Find(r.syms, Key(name)), Symbol(st.org, false, false, None))
  {
    hide Mangle;
  }

  lemma LineLabelFinal(st: State, line: Line, rest: seq<Line>, cpu: Processor, labels: set<string>)
    requires LineOk(line) && ProgramOk(rest) && ApartFrom(st, line, rest, cpu, labels)
    requires OrgResolved(st, line) && OrgsResolved(StepLine(st, line, cpu), rest, cpu)
    requires Rest(st, line, rest, cpu).redo == 0
    ensures LabelFinal(LabelState(st, line, cpu), line.name, Rest(st, line, rest, cpu).syms)
  {
    hide ProgramLabel, Evaluated, Mangle, Run, Act, LineOk, Stable, OrgResolved, Args;
    if LabelState(st, line, cpu).None? || LabelState(st, line, cpu).value.orgUnknown {
      return;
    }
    var at := LabelState(st, line, cpu).value;
    LabelIsStable(at, line.name, labels);
    if Executes(st, line) && LabelFirst(line.op) {
      TouchKeeps(Before(st, line), line.op, Key(line.name), labels, true);
      EvaluatedKeeps(st, line, rest, cpu, Key(line.name), labels, true);
    } else {
      StableFrame(ProgramLabel(at, line.name), StepLine(st, line, cpu), Key(line.name), labels);
      RunKeeps(StepLine(st, line, cpu), rest, cpu, Key(line.name), labels, true);
    }
  }

  lemma StableFrame(a: State, b: State, k: string, labels: set<string>)
    requires a.syms == b.syms && a.orgUnknown == b.orgUnknown && Stable(a, k, labels, true)
    ensures Stable(b, k, labels, true)
  {
  }

  /** In such a pass, if every ORG was resolved, every label set at a known address has that
      address in the final table. */
  lemma {:induction false} LabelsAreFinal(st: State, prog: seq<Line>, cpu: Processor, labels: set<string>)
    requires ProgramOk(prog) && Apart(st, prog, cpu, labels) && OrgsResolved(st, prog, cpu)
    requires Run(st, prog, cpu).redo == 0
    ensures LabelsFinal(st, prog, cpu, Run(st, prog, cpu).syms)
    decreases |prog|
  {
    hide StepLine, LineOk, ApartAt, OrgResolved, LabelState, LabelFinal, Mangle;
    if prog != [] {
      OkParts(prog);
      LineLabelFinal(st, prog[0], prog[1..], cpu, labels);
      LabelsAreFinal(StepLine(st, prog[0], cpu), prog[1..], cpu, labels);
    }
  }
}
