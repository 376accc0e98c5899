/** What an instruction puts into memory (v_mnemonic and generate of src/ops.c). */
module InstructionOutput {
  import opened Bytes
  import opened Symbols
  import opened Operators
  import opened AddressModes
  import opened ExprMachine
  import opened EvalSafety
  import opened Encoding
  import opened ModeLaws
  import opened OutputImage
  import opened Pass
  import opened DataOutput

  predicate IsInstruction(op: Op) {
    op.Instr? || op.Implied?
  }

  /** The operand as eval hands it over. */
  function OperandOf(op: Op, args: seq<Arg>): Operand
    requires IsInstruction(op) && |args| == |Exprs(op)|
  {
    if op.Instr? then Operand(op.form.Mode(), args[0]) else Operand(Imp, ZERO)
  }

  /** What is in memory from an address on. */
  function Memory(trace: seq<Chunk>, from: int, n: nat): (r: seq<byte>)
    ensures |r| == n
  {
    seq<byte>(n, i requires 0 <= i < n => ByteOrZero(ByteAt(Pieces(trace), from + i)))
  }

  function ByteOrZero(b: Option<byte>): byte {
    if b.Some? then b.value else 0
  }

  lemma MemoryIs(trace: seq<Chunk>, from: int, bytes: seq<byte>)
    requires forall a :: from <= a < from + |bytes| ==> ByteAt(Pieces(trace), a) == Some(bytes[a - from])
    ensures Memory(trace, from, |bytes|) == bytes
  {
    hide ByteAt;
    var r := Memory(trace, from, |bytes|);
    forall i | 0 <= i < |bytes| ensures r[i] == bytes[i] {
      var a := from + i;
      assert ByteAt(Pieces(trace), a) == Some(bytes[a - from]);
      assert r[i] == ByteOrZero(ByteAt(Pieces(trace), a));
    }
  }

  lemma GenerateFills(st: State, bytes: seq<byte>)
    requires Writes(st)
    ensures var r := Generate(st, bytes);
            && r.org == st.org + |bytes| && Memory(r.out, st.org, |bytes|) == bytes
            && forall a :: !(st.org <= a < r.org) ==> ByteAt(Pieces(r.out), a) == ByteAt(Pieces(st.out), a)
  {
    hide ByteAt, Generate, Memory;
    var r := Generate(st, bytes);
    GenerateWrites(st, bytes, 0);
    forall a | st.org <= a < st.org + |bytes| ensures ByteAt(Pieces(r.out), a) == Some(bytes[a - st.org]) {
      GenerateWrites(st, bytes, a);
    }
    forall a | !(st.org <= a < r.org) ensures ByteAt(Pieces(r.out), a) == ByteAt(Pieces(st.out), a) {
      GenerateWrites(st, bytes, a);
    }
    MemoryIs(r.out, st.org, bytes);
  }

  /** The bytes of an instruction in memory: the opcode of the chosen mode, and then the operand. An operand
      that the mode holds can be told from them, and of any other the low bytes can. A branch at a known
      address goes from its end to the operand just if that is within reach. */
  ghost predicate Assembled(bytes: seq<byte>, mne: Mnemonic, m: Mode, v: int, msbFirst: bool, at: Arg)
    requires WellFormed(mne)
  {
    var code := OpcodeBytes(mne.opcode[Code(m)]);
    var end := at.value + |bytes|;
    && code <= bytes
    && (m != Rel ==>
          && |bytes| == |code| + OperandSize(m) && |bytes| <= |code| + 2
          && Decode(bytes[|code|..], msbFirst) == v % Width(OperandSize(m))
          && (Holds(m, v) ==> Says(bytes[|code|..], v, msbFirst)))
    && (m == Rel ==>
          && |bytes| == |code| + 1
          && (!at.unknown ==> (end + SignExtend(bytes[|code|]) == v <==> -0x80 <= v - end < 0x80)))
  }

  lemma EncodeAssembles(mne: Mnemonic, op: Operand, forced: Mode, isForced: bool, msbFirst: bool, at: Arg)
    requires WellFormed(mne) && !op.arg.unknown && ChooseMode(mne, op, forced, isForced).Chosen?
    ensures var m := ChooseMode(mne, op, forced, isForced).mode;
            Assembled(Encode(mne, op, forced, isForced, msbFirst, at).bytes, mne, m, op.arg.value, msbFirst, at)
  {
    hide ChooseMode, Code, OpcodeBytes, Says, Holds, Decode, OperandBytes;
    var m := ChooseMode(mne, op, forced, isForced).mode;
    var code := OpcodeBytes(mne.opcode[Code(m)]);
    InstructionDecodes(mne, op, forced, isForced, msbFirst, at);
    if m != Rel {
      var rest := OperandBytes(OperandSize(m), op.arg.value, msbFirst);
      assert (code + rest)[|code|..] == rest;
      if Holds(m, op.arg.value) {
        OperandSays(m, op.arg.value, msbFirst);
      }
    } else if !at.unknown {
      var dest := Displacement(op.arg.value, at.value, |code| + 1);
      ByteReaches(dest);
    }
  }

  lemma ByteReaches(dest: int)
    ensures SignExtend(Lo(dest)) == dest <==> -0x80 <= dest < 0x80
  {
    assert dest == 256 * (dest / 256) + dest % 256;
  }

  /** An instruction whose operand is known, where output is written: memory from the origin on holds its
      bytes, nothing else changes, and the origin is behind them; without a mode it leaves no trace. */
  lemma InstructionWrites(st: State, line: Line, args: seq<Arg>, cpu: Processor, a: int)
    requires LineOk(line) && IsInstruction(line.op) && |args| == |Exprs(line.op)| && Writes(st)
    requires !OperandOf(line.op, args).arg.unknown
    ensures var r := Act(st, line, args, cpu);
            var choice := ChooseMode(line.op.mne, OperandOf(line.op, args), line.op.forced, line.op.isForced);
            && (choice.Invalid? ==> r == st)
            && (choice.Chosen? ==>
                  && r.redo == 0 && r.org > st.org
                  && Assembled(Memory(r.out, st.org, r.org - st.org), line.op.mne, choice.mode,
                               OperandOf(line.op, args).arg.value, cpu.msbFirst, Arg(st.org, st.orgUnknown))
                  && (st.org <= a < r.org ==> ByteAt(Pieces(r.out), a).Some?)
                  && (!(st.org <= a < r.org) ==> ByteAt(Pieces(r.out), a) == ByteAt(Pieces(st.out), a)))
  {
    hide ChooseMode, Assembled, ByteAt, Memory, Code, OpcodeBytes, Act, Encode, Generate;
    assert WellFormed(line.op.mne);
    hide LineOk, WellFormed;
    var (mne, op) := (line.op.mne, OperandOf(line.op, args));
    ActIsEncode(st, line, args, cpu);
    var choice := ChooseMode(mne, op, line.op.forced, line.op.isForced);
    if choice.Chosen? {
      var at := Arg(st.org, st.orgUnknown);
      var bytes := Encode(mne, op, line.op.forced, line.op.isForced, cpu.msbFirst, at).bytes;
      EncodeAssembles(mne, op, line.op.forced, line.op.isForced, cpu.msbFirst, at);
      GenerateFills(st, bytes);
      GenerateWrites(st, bytes, a);
      SomeOpcode(mne.opcode[Code(choice.mode)]);
    }
  }

  lemma SomeOpcode(opcode: nat)
    ensures OpcodeBytes(opcode) != []
  {
  }

  lemma ActIsEncode(st: State, line: Line, args: seq<Arg>, cpu: Processor)
    requires LineOk(line) && IsInstruction(line.op) && |args| == |Exprs(line.op)|
    ensures var (op, at) := (OperandOf(line.op, args), Arg(st.org, st.orgUnknown));
            var code := Encode(line.op.mne, op, line.op.forced, line.op.isForced, cpu.msbFirst, at);
            var st1 := Again(st, op.arg.unknown, MnemonicNotResolved);
            && Act(st, line, args, cpu) == (if code.NoCode? then st1 else Generate(st1, code.bytes))
            && (code.NoCode? <==> ChooseMode(line.op.mne, op, line.op.forced, line.op.isForced).Invalid?)
  {
    hide ChooseMode, Code, OpcodeBytes, OperandBytes, Generate;
  }

  /** Whatever the state and the operand, unless the first output of the pass is lost: an instruction takes
      the room of its mode, and asks for another pass just if its operand is unknown. */
  lemma InstructionAdvances(st: State, line: Line, args: seq<Arg>, cpu: Processor)
    requires LineOk(line) && IsInstruction(line.op) && |args| == |Exprs(line.op)|
    ensures var (r, op) := (Act(st, line, args, cpu), OperandOf(line.op, args));
            var choice := ChooseMode(line.op.mne, op, line.op.forced, line.op.isForced);
            var lost := st.redo == 0 && !op.arg.unknown && st.fisclear && st.orgUnknown;
            && (choice.Invalid? || !lost ==> r.redo == st.redo + CountIf(op.arg.unknown))
            && (choice.Invalid? || lost ==> r.org == st.org)
            && (choice.Chosen? && !lost ==> r.org == st.org + Length(line.op.mne, choice.mode))
            && (choice.Chosen? && lost ==> r.redo == 1)
            && (r.redo > 0 ==> r.out == st.out)
  {
    ActIsEncode(st, line, args, cpu);
    assert WellFormed(line.op.mne);
    hide ChooseMode, Code, OpcodeBytes, OperandBytes, Encode, Act, LineOk, WellFormed;
  }
}
