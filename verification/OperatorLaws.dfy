/** What the operators of src/exp.c mean, each by the law of arithmetic that determines it. */
module OperatorLaws {
  import opened Operators

  /** The prefix operators: - and ~ by what cancels them, ! by its truth table, < and > by the word they
      split. */
  lemma PrefixLaws(v: int, i: nat)
    ensures UnaryValue(Negate, v) + v == 0
    ensures Bit(UnaryValue(Invert, v), i) <==> !Bit(v, i)
    ensures UnaryValue(Not, v) == 1 <==> v == 0
    ensures UnaryValue(Not, v) == 0 <==> v != 0
    ensures 0 <= UnaryValue(TakeMsb, v) < 256 && 0 <= UnaryValue(TakeLsb, v) < 256
    ensures v % 65536 == 256 * UnaryValue(TakeMsb, v) + UnaryValue(TakeLsb, v)
  {
    InvertBits(v, i);
    assert v / 256 == v / 65536 * 256 + v / 256 % 256;
  }

  lemma {:induction false} InvertBits(v: int, i: nat)
    ensures Bit(-v - 1, i) <==> !Bit(v, i)
    decreases i
  {
    assert (-v - 1) / 2 == -(v / 2) - 1;
    if i > 0 {
      InvertBits(v / 2, i - 1);
    }
  }

  /** + and * count up from zero, and - undoes +. */
  lemma SumLaws(a: int, b: int)
    ensures BinaryValue(Add, a, 0) == a && BinaryValue(Add, a, b + 1) == BinaryValue(Add, a, b) + 1
    ensures BinaryValue(Mult, a, 0) == 0 && BinaryValue(Mult, a, b + 1) == BinaryValue(Add, BinaryValue(Mult, a, b), a)
    ensures BinaryValue(Sub, BinaryValue(Add, a, b), b) == a && BinaryValue(Add, BinaryValue(Sub, a, b), b) == a
  {
  }

  /** / and % put the dividend together again, and the remainder is smaller than the divisor and of the
      dividend's sign. No other pair of numbers is like that. */
  lemma QuotientLaws(a: int, b: int, q: int, r: int)
    ensures b == 0 ==> BinaryValue(Div, a, b) == 0 && BinaryValue(Mod, a, b) == a
    ensures b != 0 ==>
              (a == q * b + r && Abs(r) < Abs(b) && (r == 0 || (r < 0) == (a < 0))
               <==> q == BinaryValue(Div, a, b) && r == BinaryValue(Mod, a, b))
  {
    if b != 0 {
      TruncatedDivision(a, b);
      if a == q * b + r && Abs(r) < Abs(b) && (r == 0 || (r < 0) == (a < 0)) {
        OneQuotient(b, q, r, TruncDiv(a, b), TruncMod(a, b));
      }
    }
  }

  lemma OneQuotient(b: int, q1: int, r1: int, q2: int, r2: int)
    requires q1 * b + r1 == q2 * b + r2 && Abs(r1) < Abs(b) && Abs(r2) < Abs(b)
    requires r1 == 0 || r2 == 0 || (r1 < 0) == (r2 < 0)
    ensures q1 == q2 && r1 == r2
  {
    assert (q1 - q2) * b == r2 - r1;
    if q1 > q2 {
      Grows(q1 - q2, b);
    } else if q1 < q2 {
      assert (q2 - q1) * b == -((q1 - q2) * b);
      Grows(q2 - q1, b);
    }
  }

  lemma Grows(k: int, b: int)
    requires k > 0
    ensures Abs(k * b) >= Abs(b)
  {
    assert k * b == (k - 1) * b + b;
    if b > 0 {
      assert (k - 1) * b >= 0;
    } else {
      assert (k - 1) * b <= 0;
    }
  }

  /** Shifts move over powers of two, >> towards minus infinity. Negative distances give 0. */
  lemma ShiftLaws(v: int, n: int)
    ensures n < 0 ==> BinaryValue(ShiftRight, v, n) == BinaryValue(ShiftLeft, v, n) == 0
    ensures n >= 0 ==> BinaryValue(ShiftLeft, v, n) == v * Pow2(n)
    ensures n >= 0 ==> 0 <= v - BinaryValue(ShiftRight, v, n) * Pow2(n) < Pow2(n)
  {
  }

  /** A shift moves the bits: to the left past zeros, to the right off the end. */
  lemma {:induction false} ShiftBits(v: int, n: nat, i: nat)
    ensures Bit(BinaryValue(ShiftRight, v, n), i) <==> Bit(v, i + n)
    ensures Bit(BinaryValue(ShiftLeft, v, n), i) <==> i >= n && Bit(v, i - n)
    decreases n
  {
    if n == 0 {
      assert v / 1 == v && v * 1 == v;
    } else {
      ShiftBits(v / 2, n - 1, i);
      HalfOfPower(v, n);
      assert v * Pow2(n) == 2 * (v * Pow2(n - 1));
      if i > 0 {
        ShiftBits(v, n - 1, i - 1);
        assert 2 * (v * Pow2(n - 1)) / 2 == v * Pow2(n - 1);
      }
    }
  }

  lemma HalfOfPower(v: int, n: nat)
    requires n > 0
    ensures v / Pow2(n) == v / 2 / Pow2(n - 1)
  {
    var p := Pow2(n - 1);
    var (q, r) := (v / 2 / p, v / 2 % p);
    assert v == 2 * (v / 2) + v % 2 && v / 2 == q * p + r;
    assert v == q * (2 * p) + (2 * r + v % 2) && 0 <= 2 * r + v % 2 < 2 * p by {
      assert 2 * (q * p) == q * (2 * p);
    }
    OneQuotient(2 * p, v / (2 * p), v % (2 * p), q, 2 * r + v % 2);
  }

  /** Comparisons are 1 if they hold and 0 if not. */
  lemma ComparisonLaws(a: int, b: int)
    ensures BinaryValue(Greater, a, b) == 1 <==> a > b
    ensures BinaryValue(GreaterEq, a, b) == 1 <==> a >= b
    ensures BinaryValue(Smaller, a, b) == 1 <==> a < b
    ensures BinaryValue(SmallerEq, a, b) == 1 <==> a <= b
    ensures BinaryValue(EqEq, a, b) == 1 <==> a == b
    ensures BinaryValue(NotEq, a, b) == 1 <==> a != b
    ensures forall op: BinaryOp :: Priority(op) in {16, 17} ==> BinaryValue(op, a, b) in {0, 1}
  {
  }

  /** && and || are 1 if both, or one, of the operands is not zero, and else 0; a ? b is b, or 0 if a is. */
  lemma LogicLaws(a: int, b: int)
    ensures BinaryValue(AndAnd, a, b) == 1 <==> a != 0 && b != 0
    ensures BinaryValue(AndAnd, a, b) == 0 <==> a == 0 || b == 0
    ensures BinaryValue(OrOr, a, b) == 1 <==> a != 0 || b != 0
    ensures BinaryValue(OrOr, a, b) == 0 <==> a == 0 && b == 0
    ensures a != 0 ==> BinaryValue(Question, a, b) == b
    ensures BinaryValue(Question, 0, b) == 0
  {
  }

  /** & | ^ bit by bit. */
  lemma BitLaws(a: int, b: int, i: nat)
    ensures Bit(BinaryValue(And, a, b), i) <==> Bit(a, i) && Bit(b, i)
    ensures Bit(BinaryValue(Or, a, b), i) <==> Bit(a, i) || Bit(b, i)
    ensures Bit(BinaryValue(Xor, a, b), i) <==> (Bit(a, i) <==> !Bit(b, i))
  {
    BitwiseBits(And, a, b, i);
    BitwiseBits(Or, a, b, i);
    BitwiseBits(Xor, a, b, i);
  }

  /** A number is its bits, so that the laws about bits leave no choice. */
  lemma {:induction false} BitsDetermine(a: int, b: int)
    requires forall i: nat :: Bit(a, i) <==> Bit(b, i)
    ensures a == b
    decreases Magnitude(a) + Magnitude(b)
  {
    assert Bit(a, 0) <==> Bit(b, 0);
    if Magnitude(a) == 0 && Magnitude(b) == 0 {
      assert a % 2 == b % 2;
    } else {
      forall i: nat ensures Bit(a / 2, i) <==> Bit(b / 2, i) {
        assert Bit(a, i + 1) <==> Bit(b, i + 1);
      }
      BitsDetermine(a / 2, b / 2);
    }
  }

  // ---------------------------------------------------------------------------
  // What is not known

  /** A known value that an operand, known or not, may turn out to have. */
  predicate MayBe(a: Arg, v: int) {
    a.unknown || a.value == v
  }

  /** && and || are known just if what is unknown makes no difference, and then have the value it takes. */
  lemma ShortCutsExactly(op: BinaryOp, a: Arg, b: Arg)
    requires op.AndAnd? || op.OrOr?
    ensures var r := Apply(Binary(op), a, b);
            !r.unknown <==> forall v, w :: MayBe(a, v) && MayBe(b, w) ==> BinaryValue(op, v, w) == r.value
  {
    var r := Apply(Binary(op), a, b);
    if r.unknown {
      var (x, y) := (if a.unknown then 0 else a.value, if b.unknown then 0 else b.value);
      var (x', y') := (if a.unknown then 1 else a.value, if b.unknown then 1 else b.value);
      assert MayBe(a, x) && MayBe(b, y) && MayBe(a, x') && MayBe(b, y');
      assert BinaryValue(op, x, y) != BinaryValue(op, x', y');
    }
  }

  /** ? needs to know its left operand, and its right one just where that is not zero; every other
      operator needs to know both. */
  lemma KnowledgeNeeded(op: BinaryOp, a: Arg, b: Arg)
    requires !op.AndAnd? && !op.OrOr?
    ensures Apply(Binary(op), a, b).unknown
       <==> a.unknown || (b.unknown && (op.Question? ==> a.value != 0))
  {
  }

  /** The value an operator hands on with an unknown flag: that of its operands' values for most, 0 for
      divisions, shifts, || and ?, and 1 for &&. It counts where unknown values are used, as in labels and
      REPEAT. */
  lemma DoubtfulValues(op: BinaryOp, a: Arg, b: Arg)
    requires Apply(Binary(op), a, b).unknown
    ensures var v := Apply(Binary(op), a, b).value;
            if op in {Div, Mod, ShiftRight, ShiftLeft, OrOr} then v == 0
            else if op.AndAnd? then v == 1
            else if op.Question? then v == if a.unknown then 0 else b.value
            else v == BinaryValue(op, a.value, b.value)
  {
  }

  // ---------------------------------------------------------------------------
  // Precedence

  /** The operators from the loosest to the tightest. */
  const TIGHTNESS: seq<set<BinaryOp>> :=
    [{Question}, {OrOr}, {AndAnd}, {Or}, {Xor}, {And}, {EqEq, NotEq}, {Greater, GreaterEq, Smaller, SmallerEq},
     {ShiftLeft, ShiftRight}, {Add, Sub}, {Mult, Div, Mod}]

  /** One operator binds tighter than another just if it is in a later group, every operator is in one, and
      prefix operators bind tightest. */
  lemma PriorityOrders(a: BinaryOp, b: BinaryOp)
    ensures Priority(a) < UNARY_PRIORITY
    ensures exists i, j :: 0 <= i < |TIGHTNESS| && 0 <= j < |TIGHTNESS| && a in TIGHTNESS[i] && b in TIGHTNESS[j]
    ensures forall i, j :: 0 <= i < |TIGHTNESS| && 0 <= j < |TIGHTNESS| && a in TIGHTNESS[i] && b in TIGHTNESS[j] ==>
                             (Priority(a) < Priority(b) <==> i < j)
  {
    assert a in TIGHTNESS[Priority(a) - 10] && b in TIGHTNESS[Priority(b) - 10] by {
      Grouped(a);
      Grouped(b);
    }
    forall i, j | 0 <= i < |TIGHTNESS| && 0 <= j < |TIGHTNESS| && a in TIGHTNESS[i] && b in TIGHTNESS[j]
      ensures Priority(a) < Priority(b) <==> i < j
    {
      InGroup(a, i);
      InGroup(b, j);
    }
  }

  lemma Grouped(op: BinaryOp)
    ensures op in TIGHTNESS[Priority(op) - 10]
  {
  }

  lemma InGroup(op: BinaryOp, i: nat)
    requires i < |TIGHTNESS| && op in TIGHTNESS[i]
    ensures Priority(op) == 10 + i
  {
  }
}
