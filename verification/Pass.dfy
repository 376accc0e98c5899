/** One pass over the source as a function on the assembler's state: labels, instructions and
    data, origins, equates and conditionals (src/symbols.c, src/ops.c, and the line dispatch and
    pass loop of src/main.c). */
module Pass {
  import opened Bytes
  import opened Operators
  import opened AddressModes
  import opened Symbols
  import opened ExprMachine
  import opened ExprTree
  import opened ExprText
  import opened ExprTheorems
  import opened EvalSafety
  import opened ExprFits
  import opened Encoding

  // ---------------------------------------------------------------------------
  // Source lines

  datatype Op =
    | Label                                                   // no operation, perhaps a label
    | Instr(mne: Mnemonic, form: Form, e: Expr, forced: Mode, isForced: bool)
    | Implied(mne: Mnemonic, forced: Mode, isForced: bool)
    | Dc(size: nat, es: seq<Expr>)
    | Ds(size: nat, count: Expr, fill: Option<Expr>)
    | Align(n: Expr, fill: Option<Expr>)
    | Org(e: Expr, fill: Option<Expr>)
    | Equ(e: Expr)
    | If(e: Expr)
    | Else
    | Endif

  datatype Line = Line(name: string, op: Op)

  /** The expressions of an operation, as eval's list. */
  function Exprs(op: Op): seq<Expr> {
    match op
    case Instr(_, _, e, _, _) => [e]
    case Dc(_, es) => es
    case Ds(_, count, fill) => if fill.Some? then [count, fill.value] else [count]
    case Align(n, fill) => if fill.Some? then [n, fill.value] else [n]
    case Org(e, fill) => if fill.Some? then [e, fill.value] else [e]
    case Equ(e) => [e]
    case If(e) => [e]
    case _ => []
  }

  /** The scope of all names here: no SUBROUTINE, no macro, no dollar labels. */
  const SCOPE := Scope(0, 0)

  function Key(name: string): string
    requires name != []
  {
    Mangle(name, SCOPE)
  }

  /** A line the assembler can read: expressions it reads as written and that fit its stacks, data
      that fits the buffer Gen. */
  predicate ExprOk(e: Expr) {
    Grammatical(e) && Shaped(e) && ReadsRight(e, true) && Fits(e, 0, 0, NoTexts)
  }

  const GEN_SIZE := 256

  /** The special symbols and dollar labels are not used as labels here. */
  predicate NameOk(name: string) {
    name == [] || (name[|name| - 1] != '$' && name != "." && name != ".." && name != "..." && name != "*")
  }

  predicate SizeOk(size: nat) {
    size == 1 || size == 2 || size == 4
  }

  predicate LineOk(line: Line) {
    && NameOk(line.name)
    && (forall e :: e in Exprs(line.op) ==> ExprOk(e))
    && (forall i :: 0 < i < |Exprs(line.op)| ==> !LooksIndexed(ListText(Exprs(line.op)[i..])))
    && match line.op
       case Instr(mne, _, _, _, _) => WellFormed(mne)
       case Implied(mne, _, _) => WellFormed(mne)
       case Dc(size, es) => SizeOk(size) && es != [] && size * |es| <= GEN_SIZE
       case Ds(size, _, _) => SizeOk(size)
       case Equ(_) => line.name != []
       case _ => true
  }

  ghost predicate ProgramOk(prog: seq<Line>) {
    forall line :: line in prog ==> LineOk(line)
  }

  // ---------------------------------------------------------------------------
  // State

  datatype Reason =
    | MnemonicNotResolved | Obscure | DcNotResolved | DsNotResolved | AlignNotResolved
    | AlignOriginNotKnown | EquNotResolved | EquValueMismatch | IfNotResolved
    | ForwardReference | PhaseError

  /** An IFSTACK frame above the base frame. */
  datatype IfFrame = IfFrame(xtrue: bool, acctrue: bool)

  datatype State = State(
    syms: Table,
    org: int, orgUnknown: bool,        // Csegment->org and its SF_UNKNOWN
    ifs: seq<IfFrame>,
    redo: nat, why: set<Reason>, redoEval: nat,
    fisclear: bool, orgFill: byte,
    out: seq<Chunk>,
    fault: bool                        // the process died: a division by zero or a failed assertion
  )

  /** Which byte comes first in a word. */
  datatype Processor = Processor(msbFirst: bool)

  function Again(st: State, b: bool, why: Reason): State {
    if b then st.(redo := st.redo + 1, why := st.why + {why}) else st
  }

  predicate Active(ifs: seq<IfFrame>) {
    ifs == [] || (ifs[|ifs| - 1].xtrue && ifs[|ifs| - 1].acctrue)
  }

  function EnvOf(st: State): Env {
    Env(st.syms, SCOPE, Arg(st.org, st.orgUnknown), ZERO, 0)
  }

  function ValuesOf(st: State): Valuation {
    Values(EnvOf(st), 0)
  }

  // ---------------------------------------------------------------------------
  // Labels

  /** programlabel: the label gets the current address. Another pass is needed if it was referenced
      while unknown, or is referenced and the origin is unknown, or if it moved. */
  function ProgramLabel(st: State, name: string): State {
    if name == [] then st
    else
      var sym := Find(st.syms, Key(name));
      var st1 :=
        if sym.unknown && sym.ref then Again(st, true, ForwardReference)
        else if st.orgUnknown && sym.ref then Again(st, true, ForwardReference)
        else if !st.orgUnknown && !sym.unknown then Again(st, st.org != sym.value, PhaseError)
        else st;
      st1.(syms := st.syms[Key(name) := sym.(value := st.org, unknown := st.orgUnknown)])
  }

  // ---------------------------------------------------------------------------
  // Output

  /** generate: the bytes are written only in a pass that needs no other so far. The very first
      output at an unknown origin asks for another pass and does not even advance. */
  function Generate(st: State, bytes: seq<byte>): State {
    if st.redo == 0 then
      if st.fisclear && st.orgUnknown then Again(st, true, Obscure).(fisclear := false)
      else st.(fisclear := false, out := st.out + [Chunk(st.org, bytes, st.orgFill)], org := st.org + |bytes|)
    else st.(org := st.org + |bytes|)
  }

  /** genfill's buffer: one entry repeated. */
  function Pattern(fill: int, size: nat, msbFirst: bool): (r: seq<byte>)
    ensures |r| == GEN_SIZE
  {
    var entry := EntryBytes(fill, size, msbFirst);
    seq(GEN_SIZE, i requires 0 <= i < GEN_SIZE => entry[i % |entry|])
  }

  /** genfill's loop: full buffers, then the rest. */
  function GenFill(st: State, gen: seq<byte>, bytes: nat): State
    requires |gen| == GEN_SIZE
    decreases bytes
  {
    if bytes > GEN_SIZE then GenFill(Generate(st, gen), gen, bytes - GEN_SIZE)
    else Generate(st, gen[..bytes])
  }

  /** genfill does nothing for no entries. */
  function Fill(st: State, fill: int, entries: nat, size: nat, msbFirst: bool): State {
    if entries == 0 then st else GenFill(st, Pattern(fill, size, msbFirst), entries * size)
  }

  // ---------------------------------------------------------------------------
  // Operations on the values of their operands

  function CodeOperand(st: State, op: Op, operand: Operand, cpu: Processor): State
    requires (op.Instr? || op.Implied?) && WellFormed(op.mne)
  {
    var st1 := Again(st, operand.arg.unknown, MnemonicNotResolved);
    var code := Encode(op.mne, operand, op.forced, op.isForced, cpu.msbFirst, Arg(st.org, st.orgUnknown));
    if code.NoCode? then st1 else Generate(st1, code.bytes)
  }

  function DataBytes(args: seq<Arg>, size: nat, msbFirst: bool): (r: seq<byte>) {
    if args == [] then [] else EntryBytes(args[0].value, size, msbFirst) + DataBytes(args[1..], size, msbFirst)
  }

  function CountUnknown(args: seq<Arg>): nat {
    if args == [] then 0 else CountIf(args[0].unknown) + CountUnknown(args[1..])
  }

  function AgainFor(st: State, n: nat, why: Reason): State {
    if n == 0 then st else st.(redo := st.redo + n, why := st.why + {why})
  }

  function Data(st: State, args: seq<Arg>, size: nat, cpu: Processor): State {
    Generate(AgainFor(st, CountUnknown(args), DcNotResolved), DataBytes(args, size, cpu.msbFirst))
  }

  function Space(st: State, args: seq<Arg>, size: nat, cpu: Processor): State
    requires args != []
  {
    if args[0].unknown then Again(st, true, DsNotResolved)
    else
      var st1 := Again(st, |args| > 1 && args[1].unknown, DsNotResolved);
      if args[0].value < 0 then st1
      else Fill(st1, if |args| > 1 then args[1].value else 0, args[0].value, size, cpu.msbFirst)
  }

  function AlignTo(st: State, args: seq<Arg>, cpu: Processor): State
    requires args != []
  {
    var st1 := Again(st, |args| > 1 && args[1].unknown, AlignNotResolved);
    var fill := if |args| > 1 && !args[1].unknown then Lo(args[1].value) else 0;
    var n := args[0].value;
    if st.orgUnknown || args[0].unknown then Again(st1, true, AlignOriginNotKnown)
    else if n == 0 || (n < 0 && st.org != 0) then st1.(fault := true)
    else if n < 0 || st.org % n == 0 then st1
    else Fill(st1, fill, n - st.org % n, 1, cpu.msbFirst)
  }

  function SetOrigin(st: State, args: seq<Arg>): State
    requires args != []
  {
    st.(org := args[0].value, orgUnknown := args[0].unknown,
        orgFill := if |args| > 1 then Lo(args[1].value) else st.orgFill)
  }

  /** v_equ: another pass is needed if a symbol that was known becomes unknown or changes. */
  function Equate(st: State, name: string, a: Arg): State
    requires name != []
  {
    var sym := Find(st.syms, Key(name));
    var st1 :=
      if sym.unknown then st
      else if a.unknown then Again(st, true, EquNotResolved)
      else Again(st, sym.value != a.value, EquValueMismatch);
    st1.(syms := st.syms[Key(name) := Symbol(a.value, a.unknown, false, None)])
  }

  /** pushif */
  function PushIf(st: State, x: bool): State {
    st.(ifs := st.ifs + [IfFrame(x, Active(st.ifs))])
  }

  function Condition(st: State, a: Arg): State {
    if a.unknown then
      Again(st, true, IfNotResolved).(ifs := st.ifs + [IfFrame(false, false)])
    else PushIf(st, a.value != 0)
  }

  // ---------------------------------------------------------------------------
  // Lines

  /** Is the label set before the operands are evaluated, or after the operation? */
  predicate LabelFirst(op: Op) {
    !(op.Org? || op.Align? || op.Equ?)
  }

  predicate LabelLast(op: Op) {
    op.Org? || op.Align?
  }

  /** The state in which the operands of a line are evaluated. */
  function Before(st: State, line: Line): State {
    if LabelFirst(line.op) then ProgramLabel(st, line.name) else st
  }

  /** The operands' values. */
  function Args(st: State, op: Op): (r: seq<Arg>)
    ensures |r| == |Exprs(op)|
  {
    Meanings(Exprs(op), ValuesOf(st))
  }

  /** The state after eval has looked up the symbols of the operands. */
  function Evaluated(st: State, op: Op): State {
    var t := ListEffect(Exprs(op), EnvOf(st), 0);
    st.(syms := Touch(st.syms, t.keys), redoEval := st.redoEval + t.unknowns)
  }

  /** What the operation does with the values. */
  function Act(st: State, line: Line, args: seq<Arg>, cpu: Processor): State
    requires LineOk(line) && |args| == |Exprs(line.op)|
  {
    match line.op
    case Instr(_, form, _, _, _) => CodeOperand(st, line.op, Operand(form.Mode(), args[0]), cpu)
    case Implied(_, _, _) => CodeOperand(st, line.op, Operand(Imp, ZERO), cpu)
    case Dc(size, _) => Data(st, args, size, cpu)
    case Ds(size, _, _) => Space(st, args, size, cpu)
    case Align(_, _) => AlignTo(st, args, cpu)
    case Org(_, _) => SetOrigin(st, args)
    case Equ(_) => Equate(st, line.name, args[0])
    case If(_) => Condition(st, args[0])
    case _ => st
  }

  /** A line that takes part in the assembly. */
  function Execute(st: State, line: Line, cpu: Processor): State
    requires LineOk(line)
  {
    var s1 := Before(st, line);
    var s2 := Act(Evaluated(s1, line.op), line, Args(s1, line.op), cpu);
    if LabelLast(line.op) && !s2.fault then ProgramLabel(s2, line.name) else s2
  }

  function TopFrame(ifs: seq<IfFrame>): IfFrame
    requires ifs != []
  {
    ifs[|ifs| - 1]
  }

  /** v_else and v_endif act on conditionals that were met while assembling. */
  function ElseLine(st: State, name: string): State {
    if st.ifs != [] && TopFrame(st.ifs).acctrue then
      var s1 := ProgramLabel(st, name);
      s1.(ifs := st.ifs[|st.ifs| - 1 := TopFrame(st.ifs).(xtrue := !TopFrame(st.ifs).xtrue)])
    else st
  }

  function EndifLine(st: State, name: string): State {
    if st.ifs == [] then st
    else
      var s1 := if TopFrame(st.ifs).acctrue then ProgramLabel(st, name) else st;
      s1.(ifs := st.ifs[..|st.ifs| - 1])
  }

  /** The body of the main loop: conditionals are always looked at, everything else only where the
      enclosing conditionals hold. */
  function StepLine(st: State, line: Line, cpu: Processor): State
    requires LineOk(line)
  {
    if st.fault then st
    else if line.op.Else? then ElseLine(st, line.name)
    else if line.op.Endif? then EndifLine(st, line.name)
    else if Active(st.ifs) then Execute(st, line, cpu)
    else if line.op.If? then PushIf(st, false)
    else st
  }

  function Run(st: State, prog: seq<Line>, cpu: Processor): State
    requires ProgramOk(prog)
    decreases |prog|
  {
    if prog == [] then st else Run(StepLine(st, prog[0], cpu), prog[1..], cpu)
  }

  // ---------------------------------------------------------------------------
  // Passes

  const DEFORGFILL: byte := 255

  /** clear_all_symbol_refs */
  function ClearRefs(t: Table): Table {
    map k | k in t :: t[k].(ref := false)
  }

  /** The state at the start of a pass. What is left of the last pass is the table, the origin,
      now unknown, and the fill byte. */
  function StartPass(syms: Table, org: int, orgFill: byte): State {
    State(syms, org, true, [], 0, {}, 0, true, orgFill, [], false)
  }

  /** What the pass loop does between passes: clear_all_symbol_refs and clearsegs. */
  function NextPass(st: State): State {
    StartPass(ClearRefs(st.syms), st.org, st.orgFill)
  }

  /** No EQM symbols. */
  ghost predicate NoEqm(t: Table) {
    forall k :: k in t ==> t[k].eqm.None?
  }
}
