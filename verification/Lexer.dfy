/** How eval (src/exp.c) reads the text of an expression: the literals and names it recognises,
    and the action it takes on each character, which depends on whether the last thing it saw
    was an operator (Lastwasop) and on the addressing mode found so far. */
module Lexer {
  import opened Operators
  import opened AddressModes

  /** A place where a value comes from. */
  datatype Leaf =
    | Decimal(digits: string)
    | Octal(digits: string)
    | Hex(digits: string)
    | Bits(digits: string)
    | Character(c: char)
    | Name(name: string)
    | Dot   // the program counter, written .
    | Star  // the program counter, written *

  datatype Action =
    | Skip
    | Push(leaf: Leaf)
    | Prefix(u: UnaryOp)
    | Infix(b: BinaryOp)
    | Open
    | Close
    | Immediate
    | ParenOpen
    | ParenClose(y: bool)
    | Index(mode: Mode)
    | Next
    | Bad

  /** What eval does next and how many characters that takes. */
  datatype Step = Step(action: Action, length: nat)

  predicate IsDecimal(c: char) { '0' <= c <= '9' }
  predicate IsOctal(c: char) { '0' <= c <= '7' }
  predicate IsBinary(c: char) { c == '0' || c == '1' }
  predicate IsHex(c: char) { IsDecimal(c) || 'a' <= c <= 'f' || 'A' <= c <= 'F' }
  predicate IsAlnum(c: char) { IsDecimal(c) || 'a' <= c <= 'z' || 'A' <= c <= 'Z' }
  predicate IsName(c: char) { c == '_' || c == '.' || IsAlnum(c) }

  /** The radix of a literal, and the characters that are its digits. */
  datatype Radix = Radix2 | Radix8 | Radix10 | Radix16 {
    predicate IsDigit(c: char) {
      match this
      case Radix2 => IsBinary(c)
      case Radix8 => IsOctal(c)
      case Radix10 => IsDecimal(c)
      case Radix16 => IsHex(c)
    }

    function Base(): nat {
      match this
      case Radix2 => 2
      case Radix8 => 8
      case Radix10 => 10
      case Radix16 => 16
    }
  }

  function DigitValue(c: char): int {
    if IsDecimal(c) then c as int - '0' as int
    else (c as int) % 32 + 9
  }

  /** The value of a digit string: positional notation. */
  function NumberValue(ds: string, r: Radix): int {
    if ds == [] then 0
    else NumberValue(ds[..|ds| - 1], r) * r.Base() + DigitValue(ds[|ds| - 1])
  }

  /** How many leading characters are digits. */
  function DigitSpan(s: string, r: Radix): (n: nat)
    ensures n <= |s|
    ensures forall i :: 0 <= i < n ==> r.IsDigit(s[i])
    ensures n < |s| ==> !r.IsDigit(s[n])
  {
    if s == [] || !r.IsDigit(s[0]) then 0 else 1 + DigitSpan(s[1..], r)
  }

  /** How many leading characters belong to a name, without a trailing dollar. */
  function NameSpan(s: string): (n: nat)
    ensures n <= |s|
    ensures forall i :: 0 <= i < n ==> IsName(s[i])
    ensures n < |s| ==> !IsName(s[n])
  {
    if s == [] || !IsName(s[0]) then 0 else 1 + NameSpan(s[1..])
  }

  /** The symbol pushsymbol looks up. */
  function NameLeaf(name: string): Leaf {
    if name == "." then Dot else Name(name)
  }

  /** pushsymbol: a name is a run of name characters with at most one dollar after it. */
  function ReadName(s: string): (r: Step)
    requires s != []
    ensures 1 <= r.length <= |s|
  {
    var n := NameSpan(s);
    if n == 0 then Step(Bad, 1)
    else if n < |s| && s[n] == '$' then Step(Push(Name(s[..n + 1])), n + 1)
    else Step(Push(NameLeaf(s[..n])), n)
  }

  /** The default branch: a name made of digits and a dollar, a literal, or a symbol. */
  function ReadDefault(s: string): (r: Step)
    requires s != []
    ensures 1 <= r.length <= |s|
  {
    var d := DigitSpan(s, Radix10);
    if d < |s| && s[d] == '$' then ReadName(s)
    else if s[0] == '0' then Step(Push(Octal(s[..DigitSpan(s, Radix8)])), DigitSpan(s, Radix8))
    else if '0' < s[0] <= '9' then Step(Push(Decimal(s[..d])), d)
    else ReadName(s)
  }

  predicate At(s: string, i: nat, c: char) {
    i < |s| && s[i] == c
  }

  /** ,x or ,y that is not the start of a longer word. */
  predicate IsIndex(s: string, lower: char, upper: char) {
    (At(s, 1, lower) || At(s, 1, upper)) && !(2 < |s| && IsAlnum(s[2]))
  }

  /** One turn of eval's switch. */
  function Lex(s: string, lastWasOp: bool, wantMode: bool, mode: Mode): (r: Step)
    requires s != []
    ensures 1 <= r.length <= |s|
  {
    match s[0]
    case ' ' => Step(Skip, 1)
    case '\n' => Step(Skip, 1)
    case '~' => if lastWasOp then Step(Prefix(Invert), 1) else Step(Bad, 1)
    case '*' => if lastWasOp then Step(Push(Star), 1) else Step(Infix(Mult), 1)
    case '/' => Step(Infix(Div), 1)
    case '%' =>
      if lastWasOp then
        var n := DigitSpan(s[1..], Radix2);
        Step(Push(Bits(s[1..][..n])), 1 + n)
      else Step(Infix(Mod), 1)
    case '?' => Step(Infix(Question), 1)
    case '+' => Step(Infix(Add), 1)
    case '-' => if lastWasOp then Step(Prefix(Negate), 1) else Step(Infix(Sub), 1)
    case '>' =>
      if lastWasOp then Step(Prefix(TakeMsb), 1)
      else if At(s, 1, '>') then Step(Infix(ShiftRight), 2)
      else if At(s, 1, '=') then Step(Infix(GreaterEq), 2)
      else Step(Infix(Greater), 1)
    case '<' =>
      if lastWasOp then Step(Prefix(TakeLsb), 1)
      else if At(s, 1, '<') then Step(Infix(ShiftLeft), 2)
      else if At(s, 1, '=') then Step(Infix(SmallerEq), 2)
      else Step(Infix(Smaller), 1)
    case '=' => Step(Infix(EqEq), if At(s, 1, '=') then 2 else 1)
    case '!' =>
      if lastWasOp then Step(Prefix(Not), 1)
      else Step(Infix(NotEq), if |s| > 1 then 2 else 1)
    case '&' => if At(s, 1, '&') then Step(Infix(AndAnd), 2) else Step(Infix(And), 1)
    case '^' => Step(Infix(Xor), 1)
    case '|' => if At(s, 1, '|') then Step(Infix(OrOr), 2) else Step(Infix(Or), 1)
    case '(' => if wantMode then Step(ParenOpen, 1) else Step(Open, 1)
    case '[' => Step(Open, 1)
    case ')' =>
      if wantMode then
        if mode == IndWord && At(s, 1, ',') && (At(s, 2, 'y') || At(s, 2, 'Y'))
        then Step(ParenClose(true), 3)
        else Step(ParenClose(false), 1)
      else LexClose(s)
    case ']' => LexClose(s)
    case '#' => Step(Immediate, 1)
    case ',' =>
      if mode == IndWord && IsIndex(s, 'x', 'X') then Step(Index(IndByteX), 2)
      else if IsIndex(s, 'x', 'X') then Step(Index(ZeroX), 2)
      else if IsIndex(s, 'y', 'Y') then Step(Index(ZeroY), 2)
      else Step(Next, 1)
    case '$' =>
      var n := DigitSpan(s[1..], Radix16);
      Step(Push(Hex(s[1..][..n])), 1 + n)
    case '\'' => if |s| > 1 then Step(Push(Character(s[1])), 2) else Step(Push(Character(' ')), 1)
    case _ => ReadDefault(s)
  }

  /** A closing bracket swallows the d of a string conversion. */
  function LexClose(s: string): (r: Step)
    requires s != []
    ensures 1 <= r.length <= |s|
  {
    Step(Close, if At(s, 1, 'd') then 2 else 1)
  }
}
