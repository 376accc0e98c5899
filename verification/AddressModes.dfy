/** Addressing modes and their tables (src/asm.h, src/globals.c). */
module AddressModes {

  datatype Mode =
    | Imp
    | Imm8 | Imm16
    | ByteAdr | ByteAdrX | ByteAdrY
    | WordAdr | WordAdrX | WordAdrY
    | Rel
    | IndByteX | IndByteY | IndWord
    | ZeroX | ZeroY
    | BitMod | BitBraMod

  /** The Cvt table: the next wider mode, or Imp (0) when there is none. */
  function ConvertAddressMode(m: Mode): Mode {
    match m
    case Imm8 => Imm16
    case ByteAdr => WordAdr
    case ByteAdrX => WordAdrX
    case ByteAdrY => WordAdrY
    case WordAdr => Rel
    case ZeroX => ByteAdrX
    case ZeroY => ByteAdrY
    case _ => Imp
  }

  /** The Opsize table: how many operand bytes a mode has. */
  function OperandSize(m: Mode): nat {
    match m
    case Imp => 0
    case Imm8 => 1
    case Imm16 => 2
    case ByteAdr => 1
    case ByteAdrX => 1
    case ByteAdrY => 1
    case WordAdr => 2
    case WordAdrX => 2
    case WordAdrY => 2
    case Rel => 2
    case IndByteX => 1
    case IndByteY => 1
    case IndWord => 2
    case ZeroX => 0
    case ZeroY => 0
    case BitMod => 1
    case BitBraMod => 1
  }
}
