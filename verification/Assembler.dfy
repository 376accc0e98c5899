/** The assembler in the source's own form (src/symbols.c, src/ops.c, src/main.c): an object whose
    methods update the symbol table, the origin, the conditional stack and the Redo count, line by
    line and pass by pass. Each method does what the functions of module Pass say. */
module Assembler {
  import opened Bytes
  import opened Operators
  import opened AddressModes
  import opened Symbols
  import M = ExprMachine
  import opened ExprTree
  import opened ExprText
  import opened ExprTheorems
  import opened EvalSafety
  import opened ExprFits
  import opened Encoding
  import E = Evaluator
  import opened Pass
  import opened PassTheorems
  import opened PassLoop

  /** Lines that are accepted can be evaluated. */
  lemma OkUsable(st: State, e: Expr)
    requires ExprOk(e) && NoEqm(st.syms)
    ensures Usable(e, EnvOf(st), 0, 0, 0, NoTexts)
  {
    OkErrorFree(st, e);
    forall leaf | leaf in Leaves(e) ensures EqmText(leaf, EnvOf(st)).None? {
      LeavesShaped(e, leaf);
      LeafValue(st, leaf);
    }
    NoMacrosHeld(e, EnvOf(st), 0, NoTexts);
  }

  lemma {:induction false} OkErrorFree(st: State, e: Expr)
    requires Shaped(e) && NoEqm(st.syms)
    ensures ErrorFree(e, EnvOf(st), 0)
  {
    hide M.Resolve, NoEqm;
    match e
    case Atom(leaf) => LeafValue(st, leaf);
    case PrefixOp(_, e1) => OkErrorFree(st, e1);
    case Bracket(e1) => OkErrorFree(st, e1);
    case BinaryOp(_, _, l, r) =>
      OkErrorFree(st, l);
      OkErrorFree(st, r);
  }

  /** What Evaluate needs to know about a list of accepted expressions. */
  lemma ListEvaluates(es: seq<Expr>, st: State)
    requires NoEqm(st.syms) && es != [] && (forall e :: e in es ==> ExprOk(e))
    requires forall i :: 0 < i < |es| ==> !LooksIndexed(ListText(es[i..]))
    ensures Safe(ListText(es), M.Begin(false), EnvOf(st), 0, 0, 0)
    ensures TextEffect(ListText(es), M.Begin(false), EnvOf(st), 0) == ListEffect(es, EnvOf(st), 0)
    ensures var r := M.EvalText(ListText(es), false, EnvOf(st), 0);
            |r.0| == |es| && r.1 == 0 && forall i :: 0 <= i < |es| ==> r.0[i].arg == Meanings(es, ValuesOf(st))[i]
  {
    hide ListText, Safe, M.EvalText, TextEffect, LooksIndexed, Meaning, Readable, ExprOk, NoEqm;
    forall e | e in es ensures Usable(e, EnvOf(st), 0, 0, 0, NoTexts) {
      OkUsable(st, e);
    }
    ListIsSafe(es, EnvOf(st), 0, 0, 0, NoTexts);
  }

  lemma OperandEvaluates(form: Form, e: Expr, st: State)
    requires NoEqm(st.syms) && ExprOk(e)
    ensures Safe(FormText(form, e), M.Begin(true), EnvOf(st), 0, 0, 0)
    ensures TextEffect(FormText(form, e), M.Begin(true), EnvOf(st), 0) == ExprEffect(e, EnvOf(st), 0)
    ensures M.EvalText(FormText(form, e), true, EnvOf(st), 0) == ([M.Operand(form.Mode(), Meaning(e, ValuesOf(st)))], 0)
  {
    hide FormText, Safe, M.EvalText, TextEffect, Usable, Meaning, ExprOk, NoEqm;
    OkUsable(st, e);
    OperandIsSafe(form, e, EnvOf(st), 0, 0, 0, NoTexts);
  }

  class Assembler {
    const ev: E.Evaluator
    const cpu: Processor
    const gen: array<byte>
    var glen: nat
    var org: int
    var orgUnknown: bool
    var ifs: seq<IfFrame>
    var redo: nat
    var why: set<Reason>
    var fisclear: bool
    var orgFill: byte
    var out: seq<Chunk>
    var fault: bool

    ghost predicate Valid()
      reads this, ev, ev.argStack, ev.argFlags, ev.opPri, ev.opDis
    {
      && ev.Valid() && ev.argi == 0 && ev.opi == 0
      && ev.scope == SCOPE && ev.dv == ZERO && ev.checksum == 0
      && NoEqm(ev.table)
      && gen.Length == GEN_SIZE
      && gen as object != ev.argStack && gen as object != ev.opPri
    }

    ghost function St(): State
      reads this, ev
    {
      State(ev.table, org, orgUnknown, ifs, redo, why, ev.redoEval, fisclear, orgFill, out, fault)
    }

    constructor (cpu: Processor)
      ensures Valid() && fresh(ev) && fresh(gen) && this.cpu == cpu
      ensures fresh(ev.argStack) && fresh(ev.argFlags) && fresh(ev.opPri) && fresh(ev.opDis)
      ensures St() == StartPass(map[], 0, DEFORGFILL)
    {
      this.cpu := cpu;
      var e := new E.Evaluator();
      ev := e;
      gen := new byte[GEN_SIZE](_ => 0);
      glen, org, orgUnknown, ifs, redo, why := 0, 0, true, [], 0, {};
      fisclear, orgFill, out, fault := true, DEFORGFILL, [], false;
      new;
      ev.scope, ev.dv, ev.checksum := SCOPE, ZERO, 0;
    }

    // -------------------------------------------------------------------------
    // Reasons for another pass

    method Again(b: bool, reason: Reason)
      modifies `redo, `why
      ensures St() == Pass.Again(old(St()), b, reason)
    {
      if b {
        redo := redo + 1;
        why := why + {reason};
      }
    }

    // -------------------------------------------------------------------------
    // Labels

    method ProgramLabel(name: string)
      requires Valid()
      modifies `redo, `why, ev`table
      ensures Valid() && St() == Pass.ProgramLabel(old(St()), name)
    {
      hide Mangle;
      if name == [] {
        return;
      }
      var key := Key(name);
      var sym := if key in ev.table then ev.table[key] else CREATED;
      if key in ev.table {
        if sym.unknown && sym.ref {
          Again(true, ForwardReference);
        } else if orgUnknown && sym.ref {
          Again(true, ForwardReference);
        } else if !orgUnknown && !sym.unknown {
          Again(org != sym.value, PhaseError);
        }
      }
      ev.table := ev.table[key := sym.(value := org, unknown := orgUnknown)];
    }

    // -------------------------------------------------------------------------
    // Output

    /** generate, as far as the state of the assembly goes: the bytes are in Gen[..Glen]. */
    method Generate()
      requires Valid() && glen <= GEN_SIZE
      modifies `redo, `why, `fisclear, `out, `org
      ensures Valid() && St() == Pass.Generate(old(St()), gen[..glen])
    {
      if redo == 0 {
        if fisclear {
          fisclear := false;
          if orgUnknown {
            Again(true, Obscure);
            return;
          }
        }
        out := out + [Chunk(org, gen[..glen], orgFill)];
      }
      org := org + glen;
    }

    /** genfill's buffer full of the filler. */
    method FillBuffer(fill: int, size: nat)
      requires Valid() && SizeOk(size)
      modifies gen
      ensures Valid() && gen[..] == Pattern(fill, size, cpu.msbFirst)
    {
      var entry := EntryBytes(fill, size, cpu.msbFirst);
      var i := 0;
      while i < GEN_SIZE
        invariant i <= GEN_SIZE
        invariant forall j :: 0 <= j < i ==> gen[j] == entry[j % |entry|]
      {
        gen[i] := entry[i % |entry|];
        i := i + 1;
      }
    }

    /** genfill: the buffer, written as often as it takes. */
    method GenFill(fill: int, entries: nat, size: nat)
      requires Valid() && SizeOk(size)
      modifies `redo, `why, `fisclear, `out, `org, `glen, gen
      ensures Valid() && St() == Fill(old(St()), fill, entries, size, cpu.msbFirst)
    {
      if entries == 0 {
        return;
      }
      hide Pattern, Pass.Generate;
      var bytes: nat := entries * size;
      FillBuffer(fill, size);
      ghost var pattern := Pattern(fill, size, cpu.msbFirst);
      glen := GEN_SIZE;
      while bytes > GEN_SIZE
        invariant Valid() && glen == GEN_SIZE && gen[..] == pattern
        invariant Pass.GenFill(St(), pattern, bytes) == Pass.GenFill(old(St()), pattern, entries * size)
      {
        assert gen[..glen] == pattern;
        Generate();
        bytes := bytes - GEN_SIZE;
      }
      glen := bytes;
      assert gen[..glen] == pattern[..bytes];
      Generate();
    }

    // -------------------------------------------------------------------------
    // Evaluation

    /** eval of a list of expressions, here as in v_dc and the other operations. */
    method Evaluate(es: seq<Expr>) returns (args: seq<Arg>)
      requires Valid() && es != [] && (forall e :: e in es ==> ExprOk(e))
      requires forall i :: 0 < i < |es| ==> !LooksIndexed(ListText(es[i..]))
      modifies ev, ev.argStack, ev.argFlags, ev.opPri, ev.opDis
      ensures Valid() && args == Meanings(es, ValuesOf(old(St())))
      ensures var t := ListEffect(es, EnvOf(old(St())), 0);
              St() == old(St()).(syms := Touch(old(St()).syms, t.keys), redoEval := old(St()).redoEval + t.unknowns)
    {
      hide ListText, Safe, M.EvalText, TextEffect, LooksIndexed, Meaning, ListEffect, Meanings, Touch, NoEqm, ExprOk;
      ghost var st := St();
      ListEvaluates(es, st);
      TouchNoEqm(st.syms, ListEffect(es, EnvOf(st), 0).keys);
      ev.pc := Arg(org, orgUnknown);
      var result := ev.Eval(ListText(es), false, EnvOf(st), 0);
      args := Values(result);
    }

    /** The values of a symbol list. */
    method Values(list: seq<M.Operand>) returns (args: seq<Arg>)
      ensures |args| == |list| && forall i :: 0 <= i < |list| ==> args[i] == list[i].arg
    {
      args := [];
      var i := 0;
      while i < |list|
        invariant i <= |list| && |args| == i
        invariant forall j :: 0 <= j < i ==> args[j] == list[j].arg
      {
        args := args + [list[i].arg];
        i := i + 1;
      }
    }

    /** eval of an operand with an addressing mode. */
    method EvaluateOperand(form: Form, e: Expr) returns (operand: M.Operand)
      requires Valid() && ExprOk(e)
      modifies ev, ev.argStack, ev.argFlags, ev.opPri, ev.opDis
      ensures Valid() && operand == M.Operand(form.Mode(), Meaning(e, ValuesOf(old(St()))))
      ensures var t := ExprEffect(e, EnvOf(old(St())), 0);
              St() == old(St()).(syms := Touch(old(St()).syms, t.keys), redoEval := old(St()).redoEval + t.unknowns)
    {
      hide FormText, Safe, M.EvalText, TextEffect, Meaning, ExprEffect, Touch, NoEqm, ExprOk;
      ghost var st := St();
      OperandEvaluates(form, e, st);
      TouchNoEqm(st.syms, ExprEffect(e, EnvOf(st), 0).keys);
      ev.pc := Arg(org, orgUnknown);
      var result := ev.Eval(FormText(form, e), true, EnvOf(st), 0);
      operand := result[0];
    }

    // -------------------------------------------------------------------------
    // Operations

    /** Put bytes at the end of Gen. */
    method Put(bytes: seq<byte>)
      requires Valid() && glen + |bytes| <= GEN_SIZE
      modifies `glen, gen
      ensures Valid() && glen == old(glen) + |bytes| && gen[..glen] == old(gen[..glen]) + bytes
    {
      var i := 0;
      while i < |bytes|
        invariant i <= |bytes| && glen == old(glen) + i <= GEN_SIZE
        invariant gen[..glen] == old(gen[..glen]) + bytes[..i]
      {
        gen[glen] := bytes[i];
        glen := glen + 1;
        i := i + 1;
      }
    }

    /** v_mnemonic, once the label is set: with an operand or without. */
    method Mnemonic(op: Op, operand: M.Operand)
      requires Valid() && (op.Instr? || op.Implied?) && WellFormed(op.mne)
      modifies `redo, `why, `fisclear, `out, `org, `glen, gen
      ensures Valid() && St() == CodeOperand(old(St()), op, operand, cpu)
    {
      hide Pass.Generate, OpcodeBytes, OperandBytes;
      Again(operand.arg.unknown, MnemonicNotResolved);
      var choice := SelectMode(op.mne, operand, op.forced, op.isForced);
      if choice.Invalid? {
        return;
      }
      glen := 0;
      assert gen[..glen] == [];
      EncodeInto(op, operand, choice.mode);
      Generate();
    }

    method EncodeInto(op: Op, operand: M.Operand, mode: Mode)
      requires Valid() && (op.Instr? || op.Implied?) && WellFormed(op.mne) && glen == 0
      requires ChooseMode(op.mne, operand, op.forced, op.isForced).Chosen?
      requires mode == ChooseMode(op.mne, operand, op.forced, op.isForced).mode
      modifies `glen, gen
      ensures Valid() && glen <= GEN_SIZE
      ensures var code := Encode(op.mne, operand, op.forced, op.isForced, cpu.msbFirst, Arg(org, orgUnknown));
              code.Coded? && gen[..glen] == code.bytes
    {
      hide ChooseMode;
      var code := OpcodeBytes(op.mne.opcode[Code(mode)]);
      assert gen[..glen] == [];
      Put(code);
      if mode == Rel {
        var dest := 0;
        if !operand.arg.unknown && !orgUnknown {
          dest := Displacement(operand.arg.value, org, glen + 1);
        }
        Put([Lo(dest)]);
      } else {
        Put(OperandBytes(OperandSize(mode), operand.arg.value, cpu.msbFirst));
      }
    }

    method DefineOne(a: Arg, size: nat)
      requires Valid() && SizeOk(size) && glen + size <= GEN_SIZE
      modifies `redo, `why, `glen, gen
      ensures Valid() && glen == old(glen) + size
      ensures gen[..glen] == old(gen[..glen]) + EntryBytes(a.value, size, cpu.msbFirst)
      ensures St() == Pass.Again(old(St()), a.unknown, DcNotResolved)
    {
      hide EntryBytes;
      Again(a.unknown, DcNotResolved);
      Put(EntryBytes(a.value, size, cpu.msbFirst));
    }

    /** v_dc, once the label is set. */
    method DefineConstants(args: seq<Arg>, size: nat)
      requires Valid() && SizeOk(size) && size * |args| <= GEN_SIZE
      modifies `redo, `why, `fisclear, `out, `org, `glen, gen
      ensures Valid() && St() == Data(old(St()), args, size, cpu)
    {
      hide Pass.Generate, EntryBytes, DataBytes, CountUnknown;
      ghost var st := St();
      glen := 0;
      var i := 0;
      assert args[0..] == args;
      assert gen[..glen] == [];
      while i < |args|
        invariant i <= |args| && Valid() && glen == size * i
        invariant gen[..glen] + DataBytes(args[i..], size, cpu.msbFirst) == DataBytes(args, size, cpu.msbFirst)
        invariant AgainFor(St(), CountUnknown(args[i..]), DcNotResolved)
            == AgainFor(st, CountUnknown(args), DcNotResolved)
        invariant unchanged(`fisclear, `out, `org)
      {
        DataStep(args, i, size, cpu);
        SizeLeft(size, i, |args|);
        DefineOne(args[i], size);
        i := i + 1;
      }
      DataEnd(args[i..], gen[..glen], size, cpu);
      Generate();
    }

    /** v_ds, once the label is set. */
    method DefineSpace(args: seq<Arg>, size: nat)
      requires Valid() && SizeOk(size) && args != []
      modifies `redo, `why, `fisclear, `out, `org, `glen, gen
      ensures Valid() && St() == Space(old(St()), args, size, cpu)
    {
      hide Fill;
      var filler := 0;
      if |args| > 1 {
        filler := args[1].value;
      }
      if args[0].unknown {
        Again(true, DsNotResolved);
      } else {
        if |args| > 1 && args[1].unknown {
          Again(true, DsNotResolved);
        }
        if args[0].value >= 0 {
          GenFill(filler, args[0].value, size);
        }
      }
    }

    /** v_align, before the label is set. */
    method AlignOrigin(args: seq<Arg>)
      requires Valid() && args != []
      modifies `redo, `why, `fisclear, `out, `org, `glen, `fault, gen
      ensures Valid() && St() == AlignTo(old(St()), args, cpu)
    {
      hide Fill;
      var fill: byte := 0;
      if |args| > 1 {
        if args[1].unknown {
          Again(true, AlignNotResolved);
        } else {
          fill := Lo(args[1].value);
        }
      }
      var n := args[0].value;
      if orgUnknown || args[0].unknown {
        Again(true, AlignOriginNotKnown);
      } else if n == 0 || (n < 0 && org != 0) {
        fault := true;
      } else if n > 0 && org % n != 0 {
        GenFill(fill, n - org % n, 1);
      }
    }

    /** v_org, before the label is set. */
    method SetOrg(args: seq<Arg>)
      requires Valid() && args != []
      modifies `org, `orgUnknown, `orgFill
      ensures Valid() && St() == SetOrigin(old(St()), args)
    {
      org := args[0].value;
      orgUnknown := args[0].unknown;
      if |args| > 1 {
        orgFill := Lo(args[1].value);
      }
    }

    /** v_equ, once its operand is evaluated. */
    method Equ(name: string, a: Arg)
      requires Valid() && name != []
      modifies `redo, `why, ev`table
      ensures Valid() && St() == Equate(old(St()), name, a)
    {
      hide Mangle;
      var key := Key(name);
      var lab := if key in ev.table then ev.table[key] else CREATED;
      if !lab.unknown {
        if a.unknown {
          Again(true, EquNotResolved);
        } else if lab.value != a.value {
          Again(true, EquValueMismatch);
        }
      }
      ev.table := ev.table[key := Symbol(a.value, a.unknown, false, None)];
    }

    // -------------------------------------------------------------------------
    // Conditionals

    method PushIf(x: bool)
      requires Valid()
      modifies `ifs
      ensures Valid() && St() == Pass.PushIf(old(St()), x)
    {
      ifs := ifs + [IfFrame(x, Active(ifs))];
    }

    /** v_if, once its operand is evaluated. */
    method TestIf(a: Arg)
      requires Valid()
      modifies `ifs, `redo, `why
      ensures Valid() && St() == Condition(old(St()), a)
    {
      if a.unknown {
        Again(true, IfNotResolved);
        PushIf(false);
        var top := |ifs| - 1;
        ifs := ifs[top := ifs[top].(acctrue := false)];
      } else {
        PushIf(a.value != 0);
      }
    }

    method VElse(name: string)
      requires Valid()
      modifies `ifs, `redo, `why, ev`table
      ensures Valid() && St() == ElseLine(old(St()), name)
    {
      hide Pass.ProgramLabel;
      if ifs != [] && TopFrame(ifs).acctrue {
        ProgramLabel(name);
        var top := |ifs| - 1;
        ifs := ifs[top := ifs[top].(xtrue := !ifs[top].xtrue)];
      }
    }

    method VEndif(name: string)
      requires Valid()
      modifies `ifs, `redo, `why, ev`table
      ensures Valid() && St() == EndifLine(old(St()), name)
    {
      hide Pass.ProgramLabel;
      if ifs != [] {
        if TopFrame(ifs).acctrue {
          ProgramLabel(name);
        }
        ifs := ifs[..|ifs| - 1];
      }
    }

    // -------------------------------------------------------------------------
    // Lines and passes

    /** The operation of a line, its operands evaluated. */
    method Perform(line: Line, args: seq<Arg>)
      requires Valid() && LineOk(line) && |args| == |Exprs(line.op)| && !line.op.Instr?
      modifies this, ev`table, gen
      ensures Valid() && St() == Act(old(St()), line, args, cpu)
    {
      hide CodeOperand, Data, Space, AlignTo, SetOrigin, Equate, Condition, ExprOk, ListText, LooksIndexed;
      match line.op
      case Implied(_, _, _) => Mnemonic(line.op, M.Operand(Imp, ZERO));
      case Dc(size, _) => DefineConstants(args, size);
      case Ds(size, _, _) => DefineSpace(args, size);
      case Align(_, _) => AlignOrigin(args);
      case Org(_, _) => SetOrg(args);
      case Equ(_) => Equ(line.name, args[0]);
      case If(_) => TestIf(args[0]);
      case _ =>
    }

    /** v_mnemonic with an operand. */
    method Instruction(line: Line)
      requires Valid() && LineOk(line) && line.op.Instr?
      modifies this, ev, ev.argStack, ev.argFlags, ev.opPri, ev.opDis, gen
      ensures Valid() && St() == Execute(old(St()), line, cpu)
    {
      hide CodeOperand, ExprOk, ListText, LooksIndexed, Pass.ProgramLabel, ExprEffect, Meaning, Touch;
      ProgramLabel(line.name);
      ghost var s1 := St();
      SingleEffect(line.op.e, EnvOf(s1), ValuesOf(s1));
      OkHas(line, line.op.e);
      var operand := EvaluateOperand(line.op.form, line.op.e);
      Mnemonic(line.op, operand);
    }

    /** Any other operation that takes part in the assembly. */
    method Operation(line: Line)
      requires Valid() && LineOk(line) && !line.op.Instr? && !line.op.Else? && !line.op.Endif?
      modifies this, ev, ev.argStack, ev.argFlags, ev.opPri, ev.opDis, gen
      ensures Valid() && St() == Execute(old(St()), line, cpu)
    {
      hide Act, ExprOk, ListText, LooksIndexed, Pass.ProgramLabel, ListEffect, Meanings, Touch, LineOk;
      if LabelFirst(line.op) {
        ProgramLabel(line.name);
      }
      ghost var s1 := St();
      var args := [];
      if Exprs(line.op) != [] {
        OkOperands(line);
        args := Evaluate(Exprs(line.op));
      } else {
        NoOperands(s1, line.op);
      }
      Perform(line, args);
      if LabelLast(line.op) && !fault {
        ProgramLabel(line.name);
      }
    }

    /** The body of the main loop. */
    method DoLine(line: Line)
      requires Valid() && LineOk(line)
      modifies this, ev, ev.argStack, ev.argFlags, ev.opPri, ev.opDis, gen
      ensures Valid() && St() == StepLine(old(St()), line, cpu)
    {
      hide Execute, ElseLine, EndifLine, LineOk;
      if fault {
        return;
      }
      if line.op.Else? {
        VElse(line.name);
      } else if line.op.Endif? {
        VEndif(line.name);
      } else if Active(ifs) {
        if line.op.Instr? {
          Instruction(line);
        } else {
          Operation(line);
        }
      } else if line.op.If? {
        PushIf(false);
      }
    }

    /** One pass over the source. */
    method DoPass(prog: seq<Line>)
      requires Valid() && ProgramOk(prog)
      modifies this, ev, ev.argStack, ev.argFlags, ev.opPri, ev.opDis, gen
      ensures Valid() && St() == Run(old(St()), prog, cpu)
    {
      hide StepLine, LineOk;
      var i := 0;
      assert prog[0..] == prog;
      while i < |prog|
        invariant i <= |prog| && Valid()
        invariant Run(St(), prog[i..], cpu) == Run(old(St()), prog, cpu)
      {
        assert prog[i..][1..] == prog[i + 1..] && prog[i..][0] == prog[i];
        DoLine(prog[i]);
        i := i + 1;
      }
      assert prog[i..] == [];
    }

    /** clear_all_symbol_refs */
    method ClearAllRefs()
      requires Valid()
      modifies ev`table
      ensures Valid() && ev.table == ClearRefs(old(ev.table))
    {
      var keys := ev.table.Keys;
      while keys != {}
        invariant Valid() && keys <= ev.table.Keys == old(ev.table).Keys
        invariant forall k :: k in ev.table ==>
                    ev.table[k] == if k in keys then old(ev.table)[k] else old(ev.table)[k].(ref := false)
      {
        var k :| k in keys;
        ev.table := ev.table[k := ev.table[k].(ref := false)];
        keys := keys - {k};
      }
    }

    method ForgetEval()
      requires Valid()
      modifies ev`redoEval
      ensures Valid() && ev.redoEval == 0
    {
      ev.redoEval := 0;
    }

    /** Between passes. The origin and the fill byte stay as they are. */
    method PrepareNextPass()
      requires Valid()
      modifies `orgUnknown, `ifs, `redo, `why, `fisclear, `out, `fault, ev`table, ev`redoEval
      ensures Valid() && St() == NextPass(old(St()))
    {
      hide ClearRefs;
      ClearAllRefs();
      ForgetEval();
      ClearSegments();
    }

    method ClearSegments()
      requires Valid()
      modifies `orgUnknown, `ifs, `redo, `why, `fisclear, `out, `fault
      ensures Valid() && orgUnknown && ifs == [] && redo == 0 && why == {} && fisclear && out == [] && !fault
    {
      redo, why := 0, {};
      orgUnknown, ifs, fisclear, out, fault := true, [], true, [], false;
    }

    /** The pass loop: assemble until a pass asks for no other, two in a row ask in the same way, or enough
        passes have been made. passes counts those before the last one, which is the one that start began.
        If the source is assembled, that pass is consistent with the table it ended with. */
    method Assemble(prog: seq<Line>, maxPasses: nat, ghost labels: set<string>)
        returns (verdict: Verdict, ghost passes: nat, ghost start: State)
      requires Valid() && ProgramOk(prog) && Separate(prog, labels)
      requires St() == StartPass(ev.table, org, orgFill)
      modifies this, ev, ev.argStack, ev.argFlags, ev.opPri, ev.opDis, gen
      ensures Valid()
      ensures Ends(old(St()), prog, cpu, maxPasses, passes, verdict)
      ensures start == StartOf(old(St()), prog, cpu, passes) && St() == EndOf(old(St()), prog, cpu, passes)
      ensures verdict.Assembled? <==> exists k :: Resolves(old(St()), prog, cpu, maxPasses, k)
      ensures start == StartPass(start.syms, start.org, start.orgFill) && NoEqm(start.syms)
      ensures verdict.Assembled? ==> redo == 0 && !fault && PassConsistent(start, prog, cpu, ev.table)
    {
      hide Run, PassConsistent, Separate, LineOk, ClearRefs, Resolves, NoEqm;
      ghost var s0 := St();
      var pass := 1;
      var oldredo: int := -1;
      var oldwhy, oldeval := {}, 0;
      passes := 0;
      while true
        invariant Valid() && St() == StartPass(ev.table, org, orgFill)
        invariant pass == passes + 1 && St() == StartOf(s0, prog, cpu, passes)
        invariant Makes(s0, prog, cpu, maxPasses, passes)
        invariant passes == 0 ==> oldredo == -1
        invariant passes > 0 ==>
                    var r := EndOf(s0, prog, cpu, passes - 1);
                    oldredo == r.redo && oldwhy == r.why && oldeval == r.redoEval
        decreases maxPasses - pass
      {
        start := St();
        DoPass(prog);
        assert St() == EndOf(s0, prog, cpu, passes);
        if fault {
          verdict := Died;
          break;
        }
        if redo == 0 {
          SeparateApart(start, prog, cpu, labels);
          PassIsConsistent(start, prog, cpu, labels);
          verdict := Assembled;
          break;
        }
        if redo == oldredo && why == oldwhy && ev.redoEval == oldeval {
          verdict := NotResolvable;
          break;
        }
        oldredo, oldwhy, oldeval := redo, why, ev.redoEval;
        pass := pass + 1;
        if pass > maxPasses {
          verdict := TooManyPasses;
          break;
        }
        PrepareNextPass();
        passes := passes + 1;
      }
      AssembledExactly(s0, prog, cpu, maxPasses, passes, verdict);
    }
  }

  lemma OkHas(line: Line, e: Expr)
    requires LineOk(line) && e in Exprs(line.op)
    ensures ExprOk(e)
  {
  }

  lemma OkOperands(line: Line)
    requires LineOk(line)
    ensures forall e :: e in Exprs(line.op) ==> ExprOk(e)
    ensures forall i :: 0 < i < |Exprs(line.op)| ==> !LooksIndexed(ListText(Exprs(line.op)[i..]))
  {
  }

  lemma SingleEffect(e: Expr, env: M.Env, v: Valuation)
    ensures ListEffect([e], env, 0) == ExprEffect(e, env, 0)
    ensures Meanings([e], v) == [Meaning(e, v)]
  {
    hide ExprEffect, Meaning;
    assert [e][1..] == [];
    assert ListEffect([], env, 0) == NOTHING;
  }

  lemma NoOperands(st: State, op: Op)
    requires Exprs(op) == []
    ensures Evaluated(st, op) == st && Args(st, op) == []
  {
    TouchNothing(st.syms);
  }

  lemma DataStep(args: seq<Arg>, i: nat, size: nat, cpu: Processor)
    requires i < |args|
    ensures DataBytes(args[i..], size, cpu.msbFirst)
         == EntryBytes(args[i].value, size, cpu.msbFirst) + DataBytes(args[i + 1..], size, cpu.msbFirst)
    ensures CountUnknown(args[i..]) == CountIf(args[i].unknown) + CountUnknown(args[i + 1..])
  {
    hide EntryBytes;
    assert args[i..][1..] == args[i + 1..];
  }

  lemma DataEnd(args: seq<Arg>, gen: seq<byte>, size: nat, cpu: Processor)
    requires args == []
    ensures gen + DataBytes(args, size, cpu.msbFirst) == gen && CountUnknown(args) == 0
  {
  }

  lemma SizeLeft(size: nat, i: nat, n: nat)
    requires i < n && size * n <= GEN_SIZE
    ensures size * i + size <= GEN_SIZE && size * (i + 1) == size * i + size
  {
    assert size * (n - i - 1) >= 0;
    assert size * n == size * i + size + size * (n - i - 1);
  }
}