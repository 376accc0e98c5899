/** What the choice of an addressing mode (v_mnemonic of src/ops.c) comes to for the value of the operand:
    the chosen mode holds it, and no earlier one does. */
module ModeLaws {
  import opened Operators
  import opened AddressModes
  import opened ExprMachine
  import opened Bytes
  import opened Encoding

  /** What an instruction in this mode can say about its operand: nothing, that is, zero; one byte, signed or
      not; or a word. */
  predicate Holds(m: Mode, v: int) {
    match m
    case Imp | ZeroX | ZeroY => v == 0
    case Imm16 | WordAdr | WordAdrX | WordAdrY | IndWord | Rel => true
    case _ => -0x80 <= v < 0x100
  }

  /** What a mode does with its operand. */
  datatype Kind = Immediate | Direct | ByX | ByY | InX | InY | Through | Bit | Nothing

  function KindOf(m: Mode): Kind {
    match m
    case Imp => Nothing
    case Imm8 | Imm16 => Immediate
    case ByteAdr | WordAdr | Rel => Direct
    case ByteAdrX | WordAdrX | ZeroX => ByX
    case ByteAdrY | WordAdrY | ZeroY => ByY
    case IndByteX => InX
    case IndByteY => InY
    case IndWord => Through
    case BitMod | BitBraMod => Bit
  }

  /** Widening goes to modes of the same kind that hold more. */
  lemma {:induction false} ChainWidens(m: Mode, m': Mode, v: int)
    requires OnChain(m, m')
    ensures KindOf(m) == KindOf(m') && (Holds(m, v) ==> Holds(m', v))
    decreases Steps(m)
  {
    hide OnChain;
    ChainStep(m, m');
    StepsDown(m);
    if m != m' {
      ChainWidens(ConvertAddressMode(m), m', v);
    }
  }

  /** And to all of them: a mode of the same kind that holds a value this one does not is on the way. An
      address that has no mode of its own can be the target of a branch. */
  lemma ChainIsWhole(m: Mode, m': Mode, v: int)
    requires KindOf(m) == KindOf(m') && Holds(m', v) && !Holds(m, v)
    ensures OnChain(m, m') && OnChain(WordAdr, Rel)
  {
    assert OnChain(ConvertAddressMode(m), m') || ConvertAddressMode(ConvertAddressMode(m)) == m';
  }

  lemma SizeHolds(m: Mode, v: int)
    ensures Holds(m, v) <==> OpSize(Arg(v, false)) <= OperandSize(m)
  {
  }

  /** An operand has no mode just if none of its kind that is as wide as its syntax says is allowed, or the
      forced mode is not. */
  lemma InvalidExactly(mne: Mnemonic, op: Operand, forced: Mode, isForced: bool)
    requires WellFormed(mne)
    ensures ChooseMode(mne, op, forced, isForced).Invalid?
       <==> (forall m: Mode :: OnChain(op.mode, m) ==> !Allowed(mne, m)) || (isForced && !Allowed(mne, forced))
  {
    hide OnChain, Widen, OpSize, OperandSize, FirstAllowed, Allowed;
    var m0 := FirstAllowed(mne, op.mode);
    FirstOnChain(mne, op.mode);
    if m :| OnChain(op.mode, m) && Allowed(mne, m) {
      FirstAllowedIsFirst(mne, op.mode, m);
    }
  }

  lemma {:induction false} FirstOnChain(mne: Mnemonic, m: Mode)
    requires WellFormed(mne)
    ensures OnChain(m, FirstAllowed(mne, m))
    decreases Steps(m)
  {
    StepsDown(m);
    if !Allowed(mne, m) && ConvertAddressMode(m) != Imp {
      FirstOnChain(mne, ConvertAddressMode(m));
    }
  }

  /** The mode chosen for a known operand is allowed and of the kind that was written; what is passed on the
      way to it is not allowed or does not hold the value; and an error is reported just if it does not hold
      it itself, which happens just where there is no wider allowed mode to go on to. */
  lemma ModeFits(mne: Mnemonic, op: Operand, forced: Mode, isForced: bool, m': Mode)
    requires WellFormed(mne) && !op.arg.unknown && ChooseMode(mne, op, forced, isForced).Chosen?
    ensures var Chosen(m, rangeError) := ChooseMode(mne, op, forced, isForced);
            var (v, from) := (op.arg.value, if isForced then forced else op.mode);
            && Allowed(mne, m) && OnChain(from, m) && KindOf(m) == KindOf(from)
            && (rangeError <==> !Holds(m, v))
            && (OnChain(from, m') && OnChain(m', m) && m' != m && Allowed(mne, m') ==> !Holds(m', v))
            && (rangeError ==> ConvertAddressMode(m) == Imp || !Allowed(mne, ConvertAddressMode(m)))
  {
    hide OnChain, Widen, OpSize, OperandSize, FirstAllowed, ConvertAddressMode, KindOf, Holds;
    var Chosen(m, rangeError) := ChooseMode(mne, op, forced, isForced);
    var (v, from) := (op.arg.value, if isForced then forced else op.mode);
    var first := if isForced then forced else FirstAllowed(mne, op.mode);
    SizeHolds(m, v);
    SizeHolds(m', v);
    assert op.arg == Arg(v, false);
    WidenIsFirstFit(mne, first, OpSize(op.arg), m');
    if !isForced {
      FirstOnChain(mne, from);
      ChainJoins(from, first, m);
      if OnChain(from, m') && Allowed(mne, m') {
        FirstAllowedIsFirst(mne, from, m');
      }
    }
    ChainWidens(from, m, v);
  }

  lemma {:induction false} ChainJoins(a: Mode, b: Mode, c: Mode)
    requires OnChain(a, b) && OnChain(b, c)
    ensures OnChain(a, c)
    decreases Steps(a)
  {
    StepsDown(a);
    if a != b {
      ChainJoins(ConvertAddressMode(a), b, c);
    }
  }

  /** These bytes say what the operand is: zero, an address byte or its sign extension, or a word or its sign
      extension; only of values beyond 16 bits something is lost. */
  predicate Says(bytes: seq<byte>, v: int, msbFirst: bool) {
    && |bytes| <= 2
    && (|bytes| == 0 ==> v == 0)
    && (|bytes| == 1 ==> v == if v >= 0 then bytes[0] else bytes[0] as int - 0x100)
    && (|bytes| == 2 ==>
          var (first: int, second: int) := (bytes[0], bytes[1]);
          var w := if msbFirst then first * 256 + second else first + second * 256;
          -0x8000 <= v < 0x10000 <==> if v >= 0 then v == w else v == w - 0x10000 && w >= 0x8000)
  }

  lemma OperandSays(m: Mode, v: int, msbFirst: bool)
    requires Holds(m, v)
    ensures Says(OperandBytes(OperandSize(m), v, msbFirst), v, msbFirst)
  {
    SizeHolds(m, v);
    hide Holds;
    OperandDecodes(OperandSize(m), v, msbFirst);
    assert Width(2) == 0x10000 && Width(1) == 0x100;
  }

  /** An instruction for which no error is reported keeps its operand. */
  lemma OperandKept(mne: Mnemonic, op: Operand, forced: Mode, isForced: bool, msbFirst: bool, pc: Arg)
    requires WellFormed(mne) && !op.arg.unknown
    requires var c := ChooseMode(mne, op, forced, isForced); c.Chosen? && !c.rangeError && c.mode != Rel
    ensures var code := OpcodeBytes(mne.opcode[Code(ChooseMode(mne, op, forced, isForced).mode)]);
            var bytes := Encode(mne, op, forced, isForced, msbFirst, pc).bytes;
            code <= bytes && Says(bytes[|code|..], op.arg.value, msbFirst)
  {
    hide ChooseMode, Code, OnChain, Says, OperandBytes, OpcodeBytes, Holds, Decode;
    ModeFits(mne, op, forced, isForced, Imp);
    var m := ChooseMode(mne, op, forced, isForced).mode;
    OperandSays(m, op.arg.value, msbFirst);
    var code := OpcodeBytes(mne.opcode[Code(m)]);
    var rest := OperandBytes(OperandSize(m), op.arg.value, msbFirst);
    assert (code + rest)[|code|..] == rest;
  }

  /** An opcode is its byte, or a prefix byte and a byte. */
  lemma OpcodeKept(opcode: nat)
    requires opcode <= 0xFFFF
    ensures var code := OpcodeBytes(opcode);
            || (code == [opcode] && opcode <= 0xFF)
            || (|code| == 2 && code[0] != 0 && opcode == 256 * code[0] as int + code[1] as int)
  {
  }

  /** Modes have places of their own in the tables. */
  lemma CodesDiffer(m: Mode, m': Mode)
    requires Code(m) == Code(m')
    ensures m == m'
  {
  }
}
