/** Choosing an addressing mode and encoding an instruction (v_mnemonic in src/ops.c, with the
    tables of src/globals.c and the opcode layout of addhashtable in src/main.c). */
module Encoding {
  import opened Operators
  import opened AddressModes
  import opened ExprMachine
  import opened Bytes

  /** A mode's place in the enumeration of src/asm.h. */
  function Code(m: Mode): (c: nat)
    ensures c < 17
  {
    match m
    case Imp => 0
    case Imm8 => 1
    case Imm16 => 2
    case ByteAdr => 3
    case ByteAdrX => 4
    case ByteAdrY => 5
    case WordAdr => 6
    case WordAdrX => 7
    case WordAdrY => 8
    case Rel => 9
    case IndByteX => 10
    case IndByteY => 11
    case IndWord => 12
    case ZeroX => 13
    case ZeroY => 14
    case BitMod => 15
    case BitBraMod => 16
  }

  const NUMOC := 21

  // ---------------------------------------------------------------------------
  // Opcode tables

  /** How many of the first n modes are allowed. */
  function Rank(ok: seq<bool>, n: nat): (r: nat)
    requires n <= |ok|
    ensures r <= n
  {
    if n == 0 then 0 else Rank(ok, n - 1) + if ok[n - 1] then 1 else 0
  }

  lemma {:induction false} RankMonotone(ok: seq<bool>, a: nat, b: nat)
    requires a <= b <= |ok|
    ensures Rank(ok, a) <= Rank(ok, b)
    ensures a < b && ok[a] ==> Rank(ok, a) < Rank(ok, b)
    decreases b
  {
    if a < b {
      RankMonotone(ok, a, b - 1);
    }
  }

  /** Different allowed modes have different places in the packed table. */
  lemma RankInjective(ok: seq<bool>, a: nat, b: nat)
    requires a < |ok| && b < |ok| && ok[a] && ok[b] && a != b
    ensures Rank(ok, a) != Rank(ok, b)
  {
    if a < b {
      RankMonotone(ok, a, b);
    } else {
      RankMonotone(ok, b, a);
    }
  }

  /** addhashtable: spread the opcodes, listed in the source in the order of the allowed modes,
      over the places of those modes. */
  method SpreadOpcodes(opcode: array<nat>, ok: seq<bool>)
    requires opcode.Length == |ok| == NUMOC
    modifies opcode
    ensures forall i :: 0 <= i < NUMOC ==> opcode[i] == if ok[i] then old(opcode[Rank(ok, i)]) else 0
  {
    var packed := opcode[..];
    var i, j := 0, 0;
    while i < NUMOC
      invariant i <= NUMOC && j == Rank(ok, i)
      invariant forall k :: 0 <= k < i ==> opcode[k] == if ok[k] then packed[Rank(ok, k)] else 0
    {
      opcode[i] := 0;
      if ok[i] {
        RankMonotone(ok, i, NUMOC);
        opcode[i] := packed[j];
        j := j + 1;
      }
      i := i + 1;
    }
  }

  /** An instruction: which modes it allows and the opcode of each. */
  datatype Mnemonic = Mnemonic(ok: seq<bool>, opcode: seq<nat>)

  predicate WellFormed(mne: Mnemonic) {
    |mne.ok| == NUMOC && |mne.opcode| == NUMOC
  }

  predicate Allowed(mne: Mnemonic, m: Mode)
    requires WellFormed(mne)
  {
    mne.ok[Code(m)]
  }

  // ---------------------------------------------------------------------------
  // Choosing a mode

  /** How far a mode is from the end of its widening chain. */
  function Steps(m: Mode): nat {
    match m
    case Imm8 => 1
    case ByteAdr => 2
    case ByteAdrX => 1
    case ByteAdrY => 1
    case WordAdr => 1
    case ZeroX => 2
    case ZeroY => 2
    case _ => 0
  }

  lemma StepsDown(m: Mode)
    ensures ConvertAddressMode(m) != Imp ==> Steps(ConvertAddressMode(m)) < Steps(m)
  {
  }

  /** m' comes after m, or is m, on the widening chain. */
  predicate OnChain(m: Mode, m': Mode)
    decreases Steps(m)
  {
    m == m' || (ConvertAddressMode(m) != Imp && OnChain(ConvertAddressMode(m), m'))
  }

  /** How many operand bytes a value asks for. */
  function OpSize(a: Arg): nat {
    if a.unknown || a.value < -0x80 || a.value >= 0x100 then 2
    else if a.value != 0 then 1
    else 0
  }

  /** The first loop: go on to the next mode of the chain until one is allowed. */
  function FirstAllowed(mne: Mnemonic, m: Mode): (r: Mode)
    requires WellFormed(mne)
    decreases Steps(m)
  {
    if !Allowed(mne, m) && ConvertAddressMode(m) != Imp then FirstAllowed(mne, ConvertAddressMode(m)) else m
  }

  /** The second loop: widen until the operand fits, as long as the next mode is allowed. */
  function Widen(mne: Mnemonic, m: Mode, size: nat): (r: Mode)
    requires WellFormed(mne)
    decreases Steps(m)
  {
    if size > OperandSize(m) && ConvertAddressMode(m) != Imp && Allowed(mne, ConvertAddressMode(m))
    then Widen(mne, ConvertAddressMode(m), size)
    else m
  }

  datatype Choice = Invalid | Chosen(mode: Mode, rangeError: bool)

  /** The mode v_mnemonic settles on for an operand, and whether it then complains that the value
      does not fit. A forced mode (Mnext) replaces the first allowed one. */
  function ChooseMode(mne: Mnemonic, op: Operand, forced: Mode, isForced: bool): Choice
    requires WellFormed(mne)
  {
    var m0 := FirstAllowed(mne, op.mode);
    if !Allowed(mne, m0) then Invalid
    else if isForced && !Allowed(mne, forced) then Invalid
    else
      var m := Widen(mne, if isForced then forced else m0, OpSize(op.arg));
      Chosen(m, OpSize(op.arg) > OperandSize(m) && !op.arg.unknown)
  }

  method FindAllowed(mne: Mnemonic, start: Mode) returns (addrmode: Mode)
    requires WellFormed(mne)
    ensures addrmode == FirstAllowed(mne, start)
  {
    hide ConvertAddressMode, Code, Steps;
    addrmode := start;
    while !Allowed(mne, addrmode) && ConvertAddressMode(addrmode) != Imp
      invariant FirstAllowed(mne, addrmode) == FirstAllowed(mne, start)
      decreases Steps(addrmode)
    {
      StepsDown(addrmode);
      addrmode := ConvertAddressMode(addrmode);
    }
  }

  method WidenMode(mne: Mnemonic, start: Mode, opsize: nat) returns (addrmode: Mode)
    requires WellFormed(mne)
    ensures addrmode == Widen(mne, start, opsize)
  {
    hide ConvertAddressMode, OperandSize, Code, Steps;
    addrmode := start;
    while opsize > OperandSize(addrmode)
      invariant Widen(mne, addrmode, opsize) == Widen(mne, start, opsize)
      decreases Steps(addrmode)
    {
      if ConvertAddressMode(addrmode) == Imp || !Allowed(mne, ConvertAddressMode(addrmode)) {
        break;
      }
      StepsDown(addrmode);
      addrmode := ConvertAddressMode(addrmode);
    }
  }

  method SelectMode(mne: Mnemonic, op: Operand, forced: Mode, isForced: bool) returns (c: Choice)
    requires WellFormed(mne)
    ensures c == ChooseMode(mne, op, forced, isForced)
  {
    hide FirstAllowed, Widen, ConvertAddressMode, OperandSize, Code;
    var addrmode := FindAllowed(mne, op.mode);
    if !Allowed(mne, addrmode) {
      return Invalid;
    }
    if isForced {
      addrmode := forced;
      if !Allowed(mne, addrmode) {
        return Invalid;
      }
    }
    addrmode := WidenMode(mne, addrmode, OpSize(op.arg));
    c := Chosen(addrmode, OpSize(op.arg) > OperandSize(addrmode) && !op.arg.unknown);
  }

  /** The first loop finds the first allowed mode of the chain, if the chain has one. */
  lemma {:induction false} FirstAllowedIsFirst(mne: Mnemonic, m: Mode, m': Mode)
    requires WellFormed(mne)
    requires OnChain(m, m') && Allowed(mne, m')
    ensures var r := FirstAllowed(mne, m);
            Allowed(mne, r) && OnChain(m, r) && OnChain(r, m')
    decreases Steps(m)
  {
    if !Allowed(mne, m) {
      FirstAllowedIsFirst(mne, ConvertAddressMode(m), m');
    }
  }

  /** The second loop stops at the first mode that is wide enough, or at the last one that can be
      reached through allowed modes; every mode it passes is too narrow. */
  lemma {:induction false} WidenIsFirstFit(mne: Mnemonic, m: Mode, size: nat, m': Mode)
    requires WellFormed(mne) && Allowed(mne, m)
    ensures var r := Widen(mne, m, size);
            && Allowed(mne, r) && OnChain(m, r)
            && (OperandSize(r) >= size || ConvertAddressMode(r) == Imp || !Allowed(mne, ConvertAddressMode(r)))
            && (OnChain(m, m') && OnChain(m', r) && m' != r ==> OperandSize(m') < size)
    decreases Steps(m)
  {
    hide ConvertAddressMode, OperandSize, Code, Steps, OnChain, Widen;
    StepsDown(m);
    WidenStep(mne, m, size);
    ChainStep(m, m');
    ChainStep(m, Widen(mne, m, size));
    if size > OperandSize(m) && ConvertAddressMode(m) != Imp && Allowed(mne, ConvertAddressMode(m)) {
      WidenIsFirstFit(mne, ConvertAddressMode(m), size, m');
    } else {
      ChainIsOrdered(m', m, m);
    }
  }

  lemma ChainStep(m: Mode, m': Mode)
    ensures OnChain(m, m') <==> m == m' || (ConvertAddressMode(m) != Imp && OnChain(ConvertAddressMode(m), m'))
  {
  }

  lemma WidenStep(mne: Mnemonic, m: Mode, size: nat)
    requires WellFormed(mne)
    ensures Widen(mne, m, size)
         == if size > OperandSize(m) && ConvertAddressMode(m) != Imp && Allowed(mne, ConvertAddressMode(m))
            then Widen(mne, ConvertAddressMode(m), size) else m
  {
    hide OperandSize, Code;
  }

  lemma {:induction false} ChainIsOrdered(a: Mode, b: Mode, c: Mode)
    requires OnChain(b, c)
    ensures OnChain(a, b) && OnChain(b, a) ==> a == b
    decreases Steps(b)
  {
    ChainDescends(a, b);
    ChainDescends(b, a);
  }

  lemma {:induction false} ChainDescends(a: Mode, b: Mode)
    ensures OnChain(a, b) ==> a == b || Steps(b) < Steps(a)
    decreases Steps(a)
  {
    if a != b && ConvertAddressMode(a) != Imp {
      ChainDescends(ConvertAddressMode(a), b);
    }
  }

  // ---------------------------------------------------------------------------
  // Encoding

  /** An opcode above 255 is a prefix byte and an opcode byte. */
  function OpcodeBytes(opcode: nat): seq<byte> {
    if opcode > 0xFF then [Hi(opcode), Lo(opcode)] else [opcode]
  }

  function OperandBytes(size: nat, v: int, msbFirst: bool): (r: seq<byte>)
    requires size <= 2
    ensures |r| == size
  {
    if size == 0 then []
    else if size == 1 then [Lo(v)]
    else if msbFirst then [Hi(v), Lo(v)]
    else [Lo(v), Hi(v)]
  }

  /** How many bytes an instruction takes in a mode. A branch has one byte of displacement. */
  function Length(mne: Mnemonic, m: Mode): nat
    requires WellFormed(mne)
  {
    |OpcodeBytes(mne.opcode[Code(m)])| + if m == Rel then 1 else OperandSize(m)
  }

  datatype Encoded = NoCode | Coded(bytes: seq<byte>, errors: nat)

  /** The displacement of a branch: from the end of the instruction to the target. */
  function Displacement(target: int, pc: int, length: nat): int {
    target - pc - length
  }

  function CountErrors(a: bool, b: bool): nat {
    (if a then 1 else 0) + if b then 1 else 0
  }

  /** The bytes v_mnemonic generates for an instruction with one operand at a program counter.
      Bytes that it leaves as they were, those of an unknown branch target, are zero here. */
  function Encode(mne: Mnemonic, op: Operand, forced: Mode, isForced: bool, msbFirst: bool, pc: Arg): (r: Encoded)
    requires WellFormed(mne)
    ensures r.Coded? ==> ChooseMode(mne, op, forced, isForced).Chosen?
                         && |r.bytes| == Length(mne, ChooseMode(mne, op, forced, isForced).mode)
  {
    match ChooseMode(mne, op, forced, isForced)
    case Invalid => NoCode
    case Chosen(m, rangeError) =>
      var code := OpcodeBytes(mne.opcode[Code(m)]);
      if m == Rel then
        if op.arg.unknown || pc.unknown then Coded(code + [0], CountErrors(rangeError, false))
        else
          var dest := Displacement(op.arg.value, pc.value, |code| + 1);
          Coded(code + [Lo(dest)], CountErrors(rangeError, dest >= 128 || dest < -128))
      else
        Coded(code + OperandBytes(OperandSize(m), op.arg.value, msbFirst), CountErrors(rangeError, false))
  }

  /** Read operand bytes back in either byte order. */
  function Decode(bytes: seq<byte>, msbFirst: bool): int
    requires |bytes| <= 2
  {
    if |bytes| == 0 then 0
    else if |bytes| == 1 then bytes[0]
    else
      var (first: int, second: int) := (bytes[0], bytes[1]);
      if msbFirst then first * 256 + second else first + second * 256
  }

  function Width(size: nat): nat {
    if size == 0 then 1 else 256 * Width(size - 1)
  }

  lemma LowWord(v: int)
    ensures (v / 256) % 256 * 256 + v % 256 == v % 65536
  {
    assert v == (v / 65536) * 65536 + v % 65536;
    assert v / 256 == (v / 65536) * 256 + (v % 65536) / 256;
    assert 0 <= (v % 65536) / 256 < 256;
    assert (v / 256) % 256 == (v % 65536) / 256;
    assert v % 256 == (v % 65536) % 256;
  }

  /** The operand bytes carry the value, modulo what fits, in either byte order. */
  lemma OperandDecodes(size: nat, v: int, msbFirst: bool)
    requires size <= 2
    ensures Decode(OperandBytes(size, v, msbFirst), msbFirst) == v % Width(size)
  {
    LowWord(v);
    assert Width(1) == 256 && Width(2) == 65536;
  }

  /** The instruction can be read back: its opcode is the table's, and for every mode but branches
      the bytes after it are the operand's. */
  lemma InstructionDecodes(mne: Mnemonic, op: Operand, forced: Mode, isForced: bool, msbFirst: bool, pc: Arg)
    requires WellFormed(mne) && ChooseMode(mne, op, forced, isForced).Chosen?
    ensures var m := ChooseMode(mne, op, forced, isForced).mode;
            var code := OpcodeBytes(mne.opcode[Code(m)]);
            var bytes := Encode(mne, op, forced, isForced, msbFirst, pc).bytes;
            && Allowed(mne, m)
            && code <= bytes
            && (m != Rel ==> Decode(bytes[|code|..], msbFirst) == op.arg.value % Width(OperandSize(m)))
  {
    var m := ChooseMode(mne, op, forced, isForced).mode;
    WidenIsFirstFit(mne, if isForced then forced else FirstAllowed(mne, op.mode), OpSize(op.arg), m);
    var code := OpcodeBytes(mne.opcode[Code(m)]);
    if m != Rel {
      OperandDecodes(OperandSize(m), op.arg.value, msbFirst);
      assert (code + OperandBytes(OperandSize(m), op.arg.value, msbFirst))[|code|..]
          == OperandBytes(OperandSize(m), op.arg.value, msbFirst);
    }
  }

  /** The signed value of a byte. */
  function SignExtend(b: byte): int {
    if b < 128 then b else b - 256
  }

  /** A branch lands on its target if and only if it is not reported as out of range. */
  lemma BranchLands(mne: Mnemonic, op: Operand, forced: Mode, isForced: bool, msbFirst: bool, pc: Arg)
    requires WellFormed(mne)
    requires ChooseMode(mne, op, forced, isForced).Chosen? && ChooseMode(mne, op, forced, isForced).mode == Rel
    requires !op.arg.unknown && !pc.unknown
    ensures var r := Encode(mne, op, forced, isForced, msbFirst, pc);
            r.errors == 0 <==> pc.value + |r.bytes| + SignExtend(r.bytes[|r.bytes| - 1]) == op.arg.value
  {
    var code := OpcodeBytes(mne.opcode[Code(Rel)]);
    var dest := Displacement(op.arg.value, pc.value, |code| + 1);
    assert dest == 256 * (dest / 256) + dest % 256;
  }

  // ---------------------------------------------------------------------------
  // Room for operands that are not known yet

  function OpcodeWidth(mne: Mnemonic, m: Mode): nat
    requires WellFormed(mne)
  {
    |OpcodeBytes(mne.opcode[Code(m)])|
  }

  /** Wider modes do not have shorter opcodes. */
  ghost predicate OpcodesGrow(mne: Mnemonic)
    requires WellFormed(mne)
  {
    forall m: Mode :: Allowed(mne, m) && ConvertAddressMode(m) != Imp && Allowed(mne, ConvertAddressMode(m))
      ==> OpcodeWidth(mne, m) <= OpcodeWidth(mne, ConvertAddressMode(m))
  }

  lemma {:induction false} WidenGrows(mne: Mnemonic, m: Mode, small: nat, large: nat)
    requires WellFormed(mne) && OpcodesGrow(mne) && Allowed(mne, m) && small <= large <= 2
    ensures Length(mne, Widen(mne, m, small)) <= Length(mne, Widen(mne, m, large))
    decreases Steps(m)
  {
    if large > OperandSize(m) && ConvertAddressMode(m) != Imp && Allowed(mne, ConvertAddressMode(m)) {
      var next := ConvertAddressMode(m);
      WidenGrows(mne, next, small, large);
      if small <= OperandSize(m) {
        WidenGrows(mne, next, 0, large);
        assert Widen(mne, next, 0) == next;
        assert OpcodeWidth(mne, m) <= OpcodeWidth(mne, next);
      }
    }
  }

  /** An operand that is not known yet reserves at least the room any value of it will take. */
  lemma UnknownReservesEnough(mne: Mnemonic, mode: Mode, forced: Mode, isForced: bool, v: int, stale: int)
    requires WellFormed(mne) && OpcodesGrow(mne)
    ensures var unknown := ChooseMode(mne, Operand(mode, Arg(stale, true)), forced, isForced);
            var known := ChooseMode(mne, Operand(mode, Arg(v, false)), forced, isForced);
            && unknown.Chosen? == known.Chosen?
            && (known.Chosen? ==> Length(mne, known.mode) <= Length(mne, unknown.mode))
  {
    var m0 := FirstAllowed(mne, mode);
    if Allowed(mne, m0) && (isForced ==> Allowed(mne, forced)) {
      WidenGrows(mne, if isForced then forced else m0, OpSize(Arg(v, false)), 2);
    }
  }
}
