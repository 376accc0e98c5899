/** The operators of the expression evaluator (src/exp.c): what each one computes on plain
    integers, and how the evaluator's operator routines propagate the "value unknown" flag. */
module Operators {

  /** A stack cell of the evaluator: a value and its SYM_UNKNOWN flag. */
  datatype Arg = Arg(value: int, unknown: bool)

  datatype UnaryOp = Invert | Negate | Not | TakeMsb | TakeLsb

  datatype BinaryOp =
    | Mult | Div | Mod
    | Add | Sub
    | ShiftRight | ShiftLeft
    | Greater | GreaterEq | Smaller | SmallerEq
    | EqEq | NotEq
    | And | Xor | Or
    | AndAnd | OrOr
    | Question

  /** A routine an operator stack cell can point to. */
  datatype Operator = Unary(u: UnaryOp) | Binary(b: BinaryOp)

  const UNARY_PRIORITY := 128

  function Priority(op: BinaryOp): (p: nat)
    ensures 10 <= p <= 20
  {
    match op
    case Mult => 20
    case Div => 20
    case Mod => 20
    case Add => 19
    case Sub => 19
    case ShiftRight => 18
    case ShiftLeft => 18
    case Greater => 17
    case GreaterEq => 17
    case Smaller => 17
    case SmallerEq => 17
    case EqEq => 16
    case NotEq => 16
    case And => 15
    case Xor => 14
    case Or => 13
    case AndAnd => 12
    case OrOr => 11
    case Question => 10
  }

  // ---------------------------------------------------------------------------
  // Values

  function Truth(b: bool): int {
    if b then 1 else 0
  }

  function Abs(x: int): nat {
    if x < 0 then -x else x
  }

  /** C's division, which truncates toward zero. */
  function TruncDiv(a: int, b: int): int
    requires b != 0
  {
    if (a < 0) == (b < 0) then Abs(a) / Abs(b) else -(Abs(a) / Abs(b))
  }

  /** C's remainder, which takes the sign of the dividend. */
  function TruncMod(a: int, b: int): int
    requires b != 0
  {
    if a < 0 then -(Abs(a) % Abs(b)) else Abs(a) % Abs(b)
  }

  /** The defining law of C's division: the quotient and remainder reassemble the dividend, and
      the remainder is smaller than the divisor and never of the opposite sign to the dividend. */
  lemma TruncatedDivision(a: int, b: int)
    requires b != 0
    ensures a == TruncDiv(a, b) * b + TruncMod(a, b)
    ensures Abs(TruncMod(a, b)) < Abs(b)
    ensures TruncMod(a, b) == 0 || (TruncMod(a, b) < 0) == (a < 0)
  {
    var q, r := Abs(a) / Abs(b), Abs(a) % Abs(b);
    assert Abs(a) == q * Abs(b) + r;
    assert (-q) * b == -(q * b) && q * (-b) == -(q * b);
  }

  function Pow2(n: nat): (p: nat)
    ensures p >= 1
  {
    if n == 0 then 1 else 2 * Pow2(n - 1)
  }

  /** Which bitwise operation: the truth table of one bit position. */
  function BitResult(op: BinaryOp, x: bool, y: bool): bool
    requires op.And? || op.Or? || op.Xor?
  {
    match op
    case And => x && y
    case Or => x || y
    case Xor => x != y
  }

  function Magnitude(x: int): nat {
    if x < 0 then -x - 1 else x
  }

  /** Bitwise operations on two's complement integers of unlimited width. */
  function Bitwise(op: BinaryOp, x: int, y: int): int
    requires op.And? || op.Or? || op.Xor?
    decreases Magnitude(x) + Magnitude(y)
  {
    if Magnitude(x) == 0 && Magnitude(y) == 0 then
      -Truth(BitResult(op, x == -1, y == -1))
    else
      2 * Bitwise(op, x / 2, y / 2) + Truth(BitResult(op, x % 2 == 1, y % 2 == 1))
  }

  /** Bit i of a two's complement integer. */
  predicate Bit(x: int, i: nat)
    decreases i
  {
    if i == 0 then x % 2 == 1 else Bit(x / 2, i - 1)
  }

  lemma {:induction false} SignBits(x: int, i: nat)
    requires Magnitude(x) == 0
    ensures Bit(x, i) == (x == -1)
  {
    if i > 0 {
      assert x / 2 == x;
      SignBits(x, i - 1);
    }
  }

  lemma Halve(h: int, b: int)
    requires 0 <= b <= 1
    ensures (2 * h + b) / 2 == h && (2 * h + b) % 2 == b
  {
  }

  /** & | ^ act on every bit position independently, sign bits included. */
  lemma {:induction false} BitwiseBits(op: BinaryOp, x: int, y: int, i: nat)
    requires op.And? || op.Or? || op.Xor?
    ensures Bit(Bitwise(op, x, y), i) == BitResult(op, Bit(x, i), Bit(y, i))
    decreases i
  {
    var b := Truth(BitResult(op, x % 2 == 1, y % 2 == 1));
    if Magnitude(x) == 0 && Magnitude(y) == 0 {
      SignBits(x, i);
      SignBits(y, i);
      SignBits(Bitwise(op, x, y), i);
    } else if i > 0 {
      BitwiseBits(op, x / 2, y / 2, i - 1);
      Halve(Bitwise(op, x / 2, y / 2), b);
    } else {
      Halve(Bitwise(op, x / 2, y / 2), b);
    }
  }

  /** What a prefix operator computes. */
  function UnaryValue(op: UnaryOp, v: int): int {
    match op
    case Invert => -v - 1
    case Negate => -v
    case Not => Truth(v == 0)
    case TakeMsb => (v / 256) % 256
    case TakeLsb => v % 256
  }

  /** What a binary operator computes on two known values. Division by zero yields 0 (after a
      fatal error report) and remainder by zero the dividend, as the routines do. */
  function BinaryValue(op: BinaryOp, v1: int, v2: int): int {
    match op
    case Mult => v1 * v2
    case Div => if v2 == 0 then 0 else TruncDiv(v1, v2)
    case Mod => if v2 == 0 then v1 else TruncMod(v1, v2)
    case Add => v1 + v2
    case Sub => v1 - v2
    case ShiftRight => if v2 < 0 then 0 else v1 / Pow2(v2)
    case ShiftLeft => if v2 < 0 then 0 else v1 * Pow2(v2)
    case Greater => Truth(v1 > v2)
    case GreaterEq => Truth(v1 >= v2)
    case Smaller => Truth(v1 < v2)
    case SmallerEq => Truth(v1 <= v2)
    case EqEq => Truth(v1 == v2)
    case NotEq => Truth(v1 != v2)
    case And => Bitwise(And, v1, v2)
    case Xor => Bitwise(Xor, v1, v2)
    case Or => Bitwise(Or, v1, v2)
    case AndAnd => Truth(v1 != 0 && v2 != 0)
    case OrOr => Truth(v1 != 0 || v2 != 0)
    case Question => if v1 != 0 then v2 else 0
  }

  // ---------------------------------------------------------------------------
  // Flags

  const ZERO := Arg(0, false)

  /** The op_* routines: the argument they hand to stackarg. Like the C signature, a unary
      routine takes a second argument and ignores it. */
  function Apply(op: Operator, a: Arg, b: Arg): Arg {
    match op
    case Unary(u) => Arg(UnaryValue(u, a.value), a.unknown)
    case Binary(Div) => ApplyChecked(Div, a, b)
    case Binary(Mod) => ApplyChecked(Mod, a, b)
    case Binary(ShiftRight) => ApplyChecked(ShiftRight, a, b)
    case Binary(ShiftLeft) => ApplyChecked(ShiftLeft, a, b)
    case Binary(Question) =>
      if a.unknown then Arg(0, true)
      else if a.value != 0 then b
      else ZERO
    case Binary(AndAnd) =>
      if (!a.unknown && a.value == 0) || (!b.unknown && b.value == 0) then ZERO
      else Arg(1, a.unknown || b.unknown)
    case Binary(OrOr) =>
      if (!a.unknown && a.value != 0) || (!b.unknown && b.value != 0) then Arg(1, false)
      else Arg(0, a.unknown || b.unknown)
    case Binary(o) => Arg(BinaryValue(o, a.value, b.value), a.unknown || b.unknown)
  }

  /** The routines that compute nothing unless both operands are known. */
  function ApplyChecked(op: BinaryOp, a: Arg, b: Arg): Arg {
    if a.unknown || b.unknown then Arg(0, true) else Arg(BinaryValue(op, a.value, b.value), false)
  }

  /** a is unknown, or already is what b is: b carries at least the information a does. */
  predicate Refines(a: Arg, b: Arg) {
    a.unknown || a == b
  }

  /** One operator: learning more about the operands never changes a result that was known. */
  lemma ApplyMonotone(op: Operator, a: Arg, a': Arg, b: Arg, b': Arg)
    requires Refines(a, a') && Refines(b, b')
    ensures Refines(Apply(op, a, b), Apply(op, a', b'))
  {
  }

  /** One operator: on known operands the flags are clear and the value is the operator's. */
  lemma ApplyKnown(op: BinaryOp, a: Arg, b: Arg)
    requires !a.unknown && !b.unknown
    ensures Apply(Binary(op), a, b) == Arg(BinaryValue(op, a.value, b.value), false)
  {
  }
}
