/** What eval (src/exp.c) makes of texts as they are typed: every operator by its characters, literals by
    their digits, operands by their syntax, precedence between neighbours. */
module ExprSpelling {
  import opened Operators
  import OperatorLaws
  import opened AddressModes
  import opened Lexer
  import opened ExprMachine
  import opened ExprTree
  import opened ExprText
  import opened ExprTheorems

  // ---------------------------------------------------------------------------
  // Literals

  /** Digits have their values in all radices, and letters of either case go on from ten. */
  lemma DigitValues(i: nat)
    requires i < 16
    ensures var (lower, upper) := ("0123456789abcdef", "0123456789ABCDEF");
            && DigitValue(lower[i]) == DigitValue(upper[i]) == i
            && Radix16.IsDigit(lower[i]) && Radix16.IsDigit(upper[i])
            && (Radix10.IsDigit(lower[i]) <==> i < 10)
            && (Radix8.IsDigit(lower[i]) <==> i < 8)
            && (Radix2.IsDigit(lower[i]) <==> i < 2)
  {
  }

  /** One digit more shifts the others by one place. */
  lemma Positional(ds: string, c: char)
    ensures NumberValue("", Radix2) == NumberValue("", Radix8) == 0
    ensures NumberValue("", Radix10) == NumberValue("", Radix16) == 0
    ensures NumberValue(ds + [c], Radix2) == 2 * NumberValue(ds, Radix2) + DigitValue(c)
    ensures NumberValue(ds + [c], Radix8) == 8 * NumberValue(ds, Radix8) + DigitValue(c)
    ensures NumberValue(ds + [c], Radix10) == 10 * NumberValue(ds, Radix10) + DigitValue(c)
    ensures NumberValue(ds + [c], Radix16) == 16 * NumberValue(ds, Radix16) + DigitValue(c)
  {
    assert (ds + [c])[..|ds|] == ds;
  }

  /** The text is one expression, in no particular addressing mode, with this value. */
  ghost predicate Yields(text: string, a: Arg, env: Env, depth: nat) {
    forall want :: EvalText(text, want, env, depth) == ([Operand(ByteAdr, a)], 0)
  }

  lemma YieldsMeaning(e: Expr, env: Env, depth: nat)
    requires Readable(e, env, depth)
    ensures Yields(Text(e), Meaning(e, Values(env, depth)), env, depth)
  {
    hide EvalText, Readable, Meaning, Text;
    forall want ensures EvalText(Text(e), want, env, depth)
                     == ([Operand(ByteAdr, Meaning(e, Values(env, depth)))], 0)
    {
      EvalComputesMeaning(e, want, env, depth);
    }
  }

  /** Literals: % binary, a leading 0 octal, $ hexadecimal, ' a character, and else decimal. */
  lemma LiteralsAreSpelled(ds: string, c: char, env: Env, depth: nat)
    ensures AllDigits(ds, Radix2) ==> Yields("%" + ds, Arg(NumberValue(ds, Radix2), false), env, depth)
    ensures AllDigits(ds, Radix8) ==> Yields("0" + ds, Arg(NumberValue("0" + ds, Radix8), false), env, depth)
    ensures AllDigits(ds, Radix10) && ds != "" && ds[0] != '0' ==>
              Yields(ds, Arg(NumberValue(ds, Radix10), false), env, depth)
    ensures AllDigits(ds, Radix16) ==> Yields("$" + ds, Arg(NumberValue(ds, Radix16), false), env, depth)
    ensures Yields(['\'', c], Arg(c as int, false), env, depth)
    ensures Yields(".", env.pc, env, depth) && Yields("*", env.pc, env, depth)
  {
    hide Yields, NumberValue;
    if AllDigits(ds, Radix2) {
      YieldsMeaning(Atom(Bits(ds)), env, depth);
    }
    if AllDigits(ds, Radix8) {
      YieldsMeaning(Atom(Octal("0" + ds)), env, depth);
    }
    if AllDigits(ds, Radix10) && ds != "" && ds[0] != '0' {
      YieldsMeaning(Atom(Decimal(ds)), env, depth);
    }
    if AllDigits(ds, Radix16) {
      YieldsMeaning(Atom(Hex(ds)), env, depth);
    }
    YieldsMeaning(Atom(Character(c)), env, depth);
    YieldsMeaning(Atom(Dot), env, depth);
    YieldsMeaning(Atom(Star), env, depth);
  }

  // ---------------------------------------------------------------------------
  // Operators

  /** A leaf as it can be written, that is looked up without an error. */
  predicate Operable(leaf: Leaf, env: Env, depth: nat) {
    LeafShaped(leaf) && Resolve(env, leaf, depth).errors == 0
  }

  lemma LeafBegins(leaf: Leaf)
    requires LeafShaped(leaf)
    ensures LeafText(leaf) != "" && LeafText(leaf)[0] !in {'>', '<', '=', '&', '|'}
  {
  }

  /** A part of an expression that gives no trouble by itself. */
  predicate Part(e: Expr, env: Env, depth: nat) {
    Grammatical(e) && Shaped(e) && ErrorFree(e, env, depth)
  }

  lemma LeafPart(x: Leaf, env: Env, depth: nat)
    requires Operable(x, env, depth)
    ensures Part(Atom(x), env, depth)
    ensures Text(Atom(x)) == LeafText(x) && Level(Atom(x)) == UNARY_PRIORITY
    ensures forall u ::
              Part(PrefixOp(u, Atom(x)), env, depth) && Text(PrefixOp(u, Atom(x))) == [UnaryText(u)] + LeafText(x)
  {
    hide Resolve, LeafShaped, LeafText, UnaryText;
  }

  lemma JoinParts(b: Operators.BinaryOp, l: Expr, r: Expr, env: Env, depth: nat)
    requires Part(l, env, depth) && Part(r, env, depth) && Level(l) >= Priority(b) && Level(r) > Priority(b)
    requires Text(r) != "" && Text(r)[0] !in {'>', '<', '=', '&', '|'}
    ensures Part(BinaryOp(b, 0, l, r), env, depth)
    ensures Text(BinaryOp(b, 0, l, r)) == Text(l) + BinaryText(b) + Text(r)
  {
    hide BinaryText, Priority, Level;
    assert Spaces(0) + Text(r) == Text(r);
  }

  lemma PrefixYields(u: UnaryOp, x: Leaf, env: Env, depth: nat)
    requires Operable(x, env, depth)
    ensures Yields([UnaryText(u)] + LeafText(x), Apply(Unary(u), Values(env, depth)(x), ZERO), env, depth)
  {
    hide Yields, Operable, LeafText, Part, Text;
    LeafPart(x, env, depth);
    PartYields(PrefixOp(u, Atom(x)), env, depth);
  }

  lemma BinaryYields(b: Operators.BinaryOp, x: Leaf, y: Leaf, env: Env, depth: nat)
    requires Operable(x, env, depth) && Operable(y, env, depth)
    ensures Yields(LeafText(x) + BinaryText(b) + LeafText(y),
                   Apply(Binary(b), Values(env, depth)(x), Values(env, depth)(y)), env, depth)
  {
    hide Yields, LeafText, BinaryText, Part, Text, Shaped, LeafShaped;
    LeafBegins(y);
    LeafPart(x, env, depth);
    LeafPart(y, env, depth);
    JoinParts(b, Atom(x), Atom(y), env, depth);
    PartYields(BinaryOp(b, 0, Atom(x), Atom(y)), env, depth);
  }

  lemma PartYields(e: Expr, env: Env, depth: nat)
    requires Part(e, env, depth) && ReadsRight(e, true)
    ensures Yields(Text(e), Meaning(e, Values(env, depth)), env, depth)
  {
    hide Yields, Text, Grammatical, Shaped, ErrorFree, ReadsRight, Meaning;
    YieldsMeaning(e, env, depth);
  }

  /** Prefix operators, as typed. */
  lemma PrefixesAreSpelled(x: Leaf, v: int, env: Env, depth: nat)
    requires Operable(x, env, depth) && Values(env, depth)(x) == Arg(v, false)
    ensures Yields("-" + LeafText(x), Arg(-v, false), env, depth)
    ensures Yields("~" + LeafText(x), Arg(-v - 1, false), env, depth)
    ensures Yields("!" + LeafText(x), Arg(if v == 0 then 1 else 0, false), env, depth)
    ensures Yields(">" + LeafText(x), Arg(v / 256 % 256, false), env, depth)
    ensures Yields("<" + LeafText(x), Arg(v % 256, false), env, depth)
  {
    hide Yields, Resolve, LeafShaped, LeafText;
    PrefixYields(Negate, x, env, depth);
    PrefixYields(Invert, x, env, depth);
    PrefixYields(Not, x, env, depth);
    PrefixYields(TakeMsb, x, env, depth);
    PrefixYields(TakeLsb, x, env, depth);
  }

  /** Arithmetic between two known operands, as typed. */
  lemma ArithmeticIsSpelled(x: Leaf, y: Leaf, v: int, w: int, env: Env, depth: nat)
    requires Operable(x, env, depth) && Values(env, depth)(x) == Arg(v, false)
    requires Operable(y, env, depth) && Values(env, depth)(y) == Arg(w, false)
    ensures Yields(LeafText(x) + "*" + LeafText(y), Arg(v * w, false), env, depth)
    ensures w != 0 ==> Yields(LeafText(x) + "/" + LeafText(y), Arg(TruncDiv(v, w), false), env, depth)
    ensures w != 0 ==> Yields(LeafText(x) + "%" + LeafText(y), Arg(TruncMod(v, w), false), env, depth)
    ensures Yields(LeafText(x) + "+" + LeafText(y), Arg(v + w, false), env, depth)
    ensures Yields(LeafText(x) + "-" + LeafText(y), Arg(v - w, false), env, depth)
    ensures w >= 0 ==> Yields(LeafText(x) + ">>" + LeafText(y), Arg(v / Pow2(w), false), env, depth)
    ensures w >= 0 ==> Yields(LeafText(x) + "<<" + LeafText(y), Arg(v * Pow2(w), false), env, depth)
    ensures Yields(LeafText(x) + "&" + LeafText(y), Arg(Bitwise(And, v, w), false), env, depth)
    ensures Yields(LeafText(x) + "^" + LeafText(y), Arg(Bitwise(Xor, v, w), false), env, depth)
    ensures Yields(LeafText(x) + "|" + LeafText(y), Arg(Bitwise(Or, v, w), false), env, depth)
  {
    hide Yields, Resolve, LeafShaped, LeafText, TruncDiv, TruncMod, Bitwise, Pow2;
    BinaryYields(Mult, x, y, env, depth);
    BinaryYields(Div, x, y, env, depth);
    BinaryYields(Mod, x, y, env, depth);
    BinaryYields(Add, x, y, env, depth);
    BinaryYields(Sub, x, y, env, depth);
    BinaryYields(ShiftRight, x, y, env, depth);
    BinaryYields(ShiftLeft, x, y, env, depth);
    BinaryYields(And, x, y, env, depth);
    BinaryYields(Xor, x, y, env, depth);
    BinaryYields(Or, x, y, env, depth);
  }

  /** Comparisons and logic between two known operands, as typed. */
  lemma LogicIsSpelled(x: Leaf, y: Leaf, v: int, w: int, env: Env, depth: nat)
    requires Operable(x, env, depth) && Values(env, depth)(x) == Arg(v, false)
    requires Operable(y, env, depth) && Values(env, depth)(y) == Arg(w, false)
    ensures Yields(LeafText(x) + ">" + LeafText(y), Arg(if v > w then 1 else 0, false), env, depth)
    ensures Yields(LeafText(x) + ">=" + LeafText(y), Arg(if v >= w then 1 else 0, false), env, depth)
    ensures Yields(LeafText(x) + "<" + LeafText(y), Arg(if v < w then 1 else 0, false), env, depth)
    ensures Yields(LeafText(x) + "<=" + LeafText(y), Arg(if v <= w then 1 else 0, false), env, depth)
    ensures Yields(LeafText(x) + "==" + LeafText(y), Arg(if v == w then 1 else 0, false), env, depth)
    ensures Yields(LeafText(x) + "!=" + LeafText(y), Arg(if v != w then 1 else 0, false), env, depth)
    ensures Yields(LeafText(x) + "&&" + LeafText(y), Arg(if v != 0 && w != 0 then 1 else 0, false), env, depth)
    ensures Yields(LeafText(x) + "||" + LeafText(y), Arg(if v != 0 || w != 0 then 1 else 0, false), env, depth)
    ensures Yields(LeafText(x) + "?" + LeafText(y), Arg(if v != 0 then w else 0, false), env, depth)
  {
    hide Yields, Resolve, LeafShaped, LeafText;
    BinaryYields(Greater, x, y, env, depth);
    BinaryYields(GreaterEq, x, y, env, depth);
    BinaryYields(Smaller, x, y, env, depth);
    BinaryYields(SmallerEq, x, y, env, depth);
    BinaryYields(EqEq, x, y, env, depth);
    BinaryYields(NotEq, x, y, env, depth);
    BinaryYields(AndAnd, x, y, env, depth);
    BinaryYields(OrOr, x, y, env, depth);
    BinaryYields(Question, x, y, env, depth);
  }

  lemma ThreeRead(b1: Operators.BinaryOp, b2: Operators.BinaryOp, x: Leaf, y: Leaf, z: Leaf, v: Valuation)
    ensures var (r, l) := (BinaryOp(b2, 0, Atom(y), Atom(z)), BinaryOp(b1, 0, Atom(x), Atom(y)));
            && ReadsRight(BinaryOp(b1, 0, Atom(x), r), true)
            && Meaning(BinaryOp(b1, 0, Atom(x), r), v) == Apply(Binary(b1), v(x), Apply(Binary(b2), v(y), v(z)))
            && (!Sensitive(z) ==> ReadsRight(BinaryOp(b2, 0, l, Atom(z)), true))
            && Meaning(BinaryOp(b2, 0, l, Atom(z)), v) == Apply(Binary(b2), Apply(Binary(b1), v(x), v(y)), v(z))
  {
    hide Apply;
    var (r, l) := (BinaryOp(b2, 0, Atom(y), Atom(z)), BinaryOp(b1, 0, Atom(x), Atom(y)));
    assert !Pends(Atom(x), false) && !Pends(Atom(y), false) && Pends(l, false);
    assert ReadsRight(Atom(x), true) && ReadsRight(Atom(y), true) && ReadsRight(Atom(z), true);
    assert ReadsRight(r, true) && ReadsRight(l, true);
    assert !Sensitive(z) ==> ReadsRight(Atom(z), false);
    assert Meaning(r, v) == Apply(Binary(b2), v(y), v(z)) && Meaning(l, v) == Apply(Binary(b1), v(x), v(y));
  }

  /** Of two operators in a row the one in the tighter group goes first, and of two in the same group the
      left one, unless the third operand is one that eval then misreads. */
  lemma TighterFirst(b1: Operators.BinaryOp, b2: Operators.BinaryOp, x: Leaf, y: Leaf, z: Leaf, i: nat, j: nat,
      env: Env, depth: nat)
    requires Operable(x, env, depth) && Operable(y, env, depth) && Operable(z, env, depth)
    requires i < j || !Sensitive(z)
    requires i < |OperatorLaws.TIGHTNESS| && b1 in OperatorLaws.TIGHTNESS[i]
    requires j < |OperatorLaws.TIGHTNESS| && b2 in OperatorLaws.TIGHTNESS[j]
    ensures var (u, v, w) := (Values(env, depth)(x), Values(env, depth)(y), Values(env, depth)(z));
            Yields(LeafText(x) + BinaryText(b1) + LeafText(y) + BinaryText(b2) + LeafText(z),
                   if i < j then Apply(Binary(b1), u, Apply(Binary(b2), v, w))
                   else Apply(Binary(b2), Apply(Binary(b1), u, v), w), env, depth)
  {
    hide Yields, LeafText, BinaryText, Apply, OperatorLaws.TIGHTNESS, Priority, Part, Text, LeafShaped, Shaped, Resolve,
      ReadsRight, Meaning;
    OperatorLaws.PriorityOrders(b1, b2);
    LeafBegins(y);
    LeafBegins(z);
    LeafPart(x, env, depth);
    LeafPart(y, env, depth);
    LeafPart(z, env, depth);
    if i < j {
      var r := BinaryOp(b2, 0, Atom(y), Atom(z));
      JoinParts(b2, Atom(y), Atom(z), env, depth);
      assert Text(r)[0] == LeafText(y)[0];
      JoinParts(b1, Atom(x), r, env, depth);
      ThreeRead(b1, b2, x, y, z, Values(env, depth));
      PartYields(BinaryOp(b1, 0, Atom(x), r), env, depth);
      assert LeafText(x) + BinaryText(b1) + Text(r)
          == LeafText(x) + BinaryText(b1) + LeafText(y) + BinaryText(b2) + LeafText(z);
    } else {
      var l := BinaryOp(b1, 0, Atom(x), Atom(y));
      JoinParts(b1, Atom(x), Atom(y), env, depth);
      JoinParts(b2, l, Atom(z), env, depth);
      ThreeRead(b1, b2, x, y, z, Values(env, depth));
      PartYields(BinaryOp(b2, 0, l, Atom(z)), env, depth);
    }
  }

  // ---------------------------------------------------------------------------
  // Operands

  /** After a comma an x or y, in either case, is an index register unless a word goes on with it. */
  lemma IndexIsSpelled(t: string)
    ensures LooksIndexed(t) <==> t != "" && t[0] in {'x', 'X', 'y', 'Y'} && (|t| == 1 || !IsAlnum(t[1]))
  {
  }

  /** The text is one operand in this addressing mode. */
  ghost predicate Addresses(text: string, mode: Mode, a: Arg, env: Env, depth: nat) {
    EvalText(text, true, env, depth) == ([Operand(mode, a)], 0)
  }

  lemma FormAddresses(f: Form, e: Expr, env: Env, depth: nat)
    requires Readable(e, env, depth)
    ensures Addresses(f.Head() + (Text(e) + f.Tail()), f.Mode(), Meaning(e, Values(env, depth)), env, depth)
  {
    hide EvalText, Readable, Meaning, Text;
    EvalComputesOperand(f, e, env, depth);
  }

  /** The addressing modes, as typed. */
  lemma ModesAreSpelled(e: Expr, env: Env, depth: nat)
    requires Readable(e, env, depth)
    ensures var (t, a) := (Text(e), Meaning(e, Values(env, depth)));
            && Addresses(t, ByteAdr, a, env, depth)
            && Addresses("#" + t, Imm8, a, env, depth)
            && Addresses(t + ",x", ZeroX, a, env, depth) && Addresses(t + ",y", ZeroY, a, env, depth)
            && Addresses("(" + t + ")", IndWord, a, env, depth)
            && Addresses("(" + t + ",x)", IndByteX, a, env, depth)
            && Addresses("(" + t + "),y", IndByteY, a, env, depth)
  {
    hide Addresses, Readable, Meaning, Text;
    var t := Text(e);
    FormAddresses(Direct, e, env, depth);
    FormAddresses(Hash, e, env, depth);
    FormAddresses(IndexedX, e, env, depth);
    FormAddresses(IndexedY, e, env, depth);
    FormAddresses(Indirect, e, env, depth);
    FormAddresses(IndirectX, e, env, depth);
    FormAddresses(IndirectY, e, env, depth);
    assert "" + (t + "") == t && "#" + (t + "") == "#" + t;
    assert "" + (t + ",x") == t + ",x" && "" + (t + ",y") == t + ",y";
    assert "(" + (t + ")") == "(" + t + ")" && "(" + (t + ",x)") == "(" + t + ",x)";
    assert "(" + (t + "),y") == "(" + t + "),y";
  }

  /** Registers may be capitals. */
  lemma RegistersAlike(t: string, lastWasOp: bool, want: bool, mode: Mode)
    ensures Lex(",X" + t, lastWasOp, want, mode) == Lex(",x" + t, lastWasOp, want, mode)
    ensures Lex(",Y" + t, lastWasOp, want, mode) == Lex(",y" + t, lastWasOp, want, mode)
  {
    CapitalsIndex(",X" + t, ",x" + t);
    CapitalsIndex(",Y" + t, ",y" + t);
    hide IsIndex, ReadDefault, DigitSpan, LexClose;
  }

  lemma CapitalsIndex(s: string, s': string)
    requires |s| == |s'| > 1 && s[2..] == s'[2..] && s[0] == s'[0]
    requires (s[1] == 'X' && s'[1] == 'x') || (s[1] == 'Y' && s'[1] == 'y')
    ensures IsIndex(s, 'x', 'X') == IsIndex(s', 'x', 'X') && IsIndex(s, 'y', 'Y') == IsIndex(s', 'y', 'Y')
  {
    assert |s| > 2 ==> s[2..][0] == s'[2..][0];
  }

  lemma ParenAlike(t: string, lastWasOp: bool, mode: Mode)
    ensures Lex("),Y" + t, lastWasOp, true, mode) == Lex("),y" + t, lastWasOp, true, mode)
  {
    hide ReadDefault, DigitSpan, LexClose, IsIndex;
  }

  /** A single = compares, and ! with any character behind it is != after an operand. */
  lemma ComparesAlike(t: string, c: char, lastWasOp: bool, want: bool, mode: Mode)
    ensures Lex("=" + t, lastWasOp, want, mode).action == Infix(EqEq)
    ensures Lex("=" + t, lastWasOp, want, mode).length == (if t != "" && t[0] == '=' then 2 else 1)
    ensures Lex(['!', c] + t, false, want, mode) == Lex("!=" + t, false, want, mode)
  {
    hide ReadDefault, DigitSpan, LexClose, IsIndex;
  }

  /** Where no addressing mode is wanted round brackets are as good as square ones. */
  lemma BracketsAlike(t: string, lastWasOp: bool, mode: Mode)
    ensures Lex("(" + t, lastWasOp, false, mode) == Lex("[" + t, lastWasOp, false, mode)
    ensures Lex(")" + t, lastWasOp, false, mode) == Lex("]" + t, lastWasOp, false, mode)
  {
    hide ReadDefault, DigitSpan, IsIndex;
    assert |t| > 0 ==> (")" + t)[1] == ("]" + t)[1] == t[0];
  }
}
