/** The text of an expression and what eval (src/exp.c) makes of it: which texts it reads as the
    expression they were written from, and the value it then returns. */
module ExprText {
  import opened Operators
  import opened AddressModes
  import opened Lexer
  import opened ExprMachine
  import opened ExprTree

  // ---------------------------------------------------------------------------
  // Text

  function LeafText(leaf: Leaf): string {
    match leaf
    case Decimal(ds) => ds
    case Octal(ds) => ds
    case Hex(ds) => "$" + ds
    case Bits(ds) => "%" + ds
    case Character(c) => ['\'', c]
    case Name(n) => n
    case Dot => "."
    case Star => "*"
  }

  function UnaryText(u: UnaryOp): char {
    match u
    case Invert => '~'
    case Negate => '-'
    case Not => '!'
    case TakeMsb => '>'
    case TakeLsb => '<'
  }

  function BinaryText(b: Operators.BinaryOp): string {
    match b
    case Mult => "*"
    case Div => "/"
    case Mod => "%"
    case Add => "+"
    case Sub => "-"
    case ShiftRight => ">>"
    case ShiftLeft => "<<"
    case Greater => ">"
    case GreaterEq => ">="
    case Smaller => "<"
    case SmallerEq => "<="
    case EqEq => "=="
    case NotEq => "!="
    case And => "&"
    case Xor => "^"
    case Or => "|"
    case AndAnd => "&&"
    case OrOr => "||"
    case Question => "?"
  }

  function Spaces(n: nat): (s: string)
    ensures |s| == n
  {
    if n == 0 then [] else [' '] + Spaces(n - 1)
  }

  function Text(e: Expr): string {
    match e
    case Atom(leaf) => LeafText(leaf)
    case PrefixOp(u, e1) => [UnaryText(u)] + Text(e1)
    case Bracket(e1) => "[" + Text(e1) + "]"
    case BinaryOp(b, gap, l, r) => Text(l) + (BinaryText(b) + (Spaces(gap) + Text(r)))
  }

  // ---------------------------------------------------------------------------
  // Well-written expressions

  predicate AllDigits(ds: string, r: Radix) {
    forall i :: 0 <= i < |ds| ==> r.IsDigit(ds[i])
  }

  predicate AllName(s: string) {
    forall i :: 0 <= i < |s| ==> IsName(s[i])
  }

  /** A name is a letter, underscore or dot followed by name characters, perhaps with a dollar at
      its end; or digits and a dollar. The special symbols . .. and ... are not names. */
  predicate NameShaped(n: string) {
    && n != [] && n != "." && n != ".." && n != "..."
    && var core := if n[|n| - 1] == '$' then n[..|n| - 1] else n;
       && core != [] && AllName(core)
       && (IsDecimal(core[0]) ==> AllDigits(core, Radix10) && core != n)
  }

  predicate LeafShaped(leaf: Leaf) {
    match leaf
    case Decimal(ds) => ds != [] && AllDigits(ds, Radix10) && ds[0] != '0'
    case Octal(ds) => ds != [] && AllDigits(ds, Radix8) && ds[0] == '0'
    case Hex(ds) => AllDigits(ds, Radix16)
    case Bits(ds) => AllDigits(ds, Radix2)
    case Character(_) => true
    case Name(n) => NameShaped(n)
    case Dot => true
    case Star => true
  }

  /** An operator and the text right after it would be read as a longer operator. */
  predicate Glues(b: Operators.BinaryOp, t: string) {
    t != [] &&
    match b
    case Greater => t[0] == '>' || t[0] == '='
    case Smaller => t[0] == '<' || t[0] == '='
    case And => t[0] == '&'
    case Or => t[0] == '|'
    case _ => false
  }

  predicate Shaped(e: Expr) {
    match e
    case Atom(leaf) => LeafShaped(leaf)
    case PrefixOp(_, e1) => Shaped(e1)
    case Bracket(e1) => Shaped(e1)
    case BinaryOp(b, gap, l, r) => Shaped(l) && Shaped(r) && !Glues(b, Spaces(gap) + Text(r))
  }

  /** The text after an expression does not continue a literal or a name. */
  predicate Boundary(rest: string) {
    rest == [] || !(IsName(rest[0]) || rest[0] == '$')
  }

  /** Leaves whose first character means something else after an operand. */
  predicate Sensitive(leaf: Leaf) {
    leaf.Star? || leaf.Bits?
  }

  /** Does eval, with Lastwasop as given when the text begins, take every * % - < > ! ~ of the
      text for what it was written as? A binary operator with something to reduce clears
      Lastwasop again, so a prefix operator, a * that stands for the program counter or a binary
      literal must not follow it, brackets notwithstanding. */
  predicate ReadsRight(e: Expr, lastWasOp: bool) {
    match e
    case Atom(leaf) => Sensitive(leaf) ==> lastWasOp
    case PrefixOp(_, e1) => lastWasOp && ReadsRight(e1, true)
    case Bracket(e1) => ReadsRight(e1, lastWasOp)
    case BinaryOp(_, _, l, r) => ReadsRight(l, lastWasOp) && ReadsRight(r, !Pends(l, false))
  }

  // ---------------------------------------------------------------------------
  // Reading leaves and operators

  lemma {:induction false} DigitSpanOf(ds: string, rest: string, r: Radix)
    requires AllDigits(ds, r) && (rest == [] || !r.IsDigit(rest[0]))
    ensures DigitSpan(ds + rest, r) == |ds|
  {
    if ds == [] {
      assert ds + rest == rest;
    } else {
      assert (ds + rest)[1..] == ds[1..] + rest;
      DigitSpanOf(ds[1..], rest, r);
    }
  }

  lemma {:induction false} NameSpanOf(n: string, rest: string)
    requires AllName(n) && (rest == [] || !IsName(rest[0]))
    ensures NameSpan(n + rest) == |n|
  {
    if n == [] {
      assert n + rest == rest;
    } else {
      assert (n + rest)[1..] == n[1..] + rest;
      NameSpanOf(n[1..], rest);
    }
  }

  lemma ReadsNumber(leaf: Leaf, rest: string)
    requires leaf.Decimal? || leaf.Octal?
    requires LeafShaped(leaf) && Boundary(rest)
    ensures ReadDefault(leaf.digits + rest) == Step(Push(leaf), |leaf.digits|)
  {
    var s := leaf.digits + rest;
    DigitSpanOf(leaf.digits, rest, Radix10);
    assert s[..|leaf.digits|] == leaf.digits;
    if leaf.Octal? {
      DigitSpanOf(leaf.digits, rest, Radix8);
    }
  }

  lemma ReadsName(n: string, rest: string)
    requires NameShaped(n) && Boundary(rest)
    ensures ReadDefault(n + rest) == Step(Push(Name(n)), |n|)
  {
    var s := n + rest;
    assert s[..|n|] == n;
    if n[|n| - 1] == '$' {
      var core := n[..|n| - 1];
      assert s == core + (['$'] + rest);
      NameSpanOf(core, ['$'] + rest);
      assert ReadName(s) == Step(Push(Name(n)), |n|);
      if IsDecimal(core[0]) {
        DigitSpanOf(core, ['$'] + rest, Radix10);
      } else {
        assert DigitSpan(s, Radix10) == 0;
      }
    } else {
      NameSpanOf(n, rest);
      assert DigitSpan(s, Radix10) == 0;
    }
  }

  lemma LexDefault(s: string, lastWasOp: bool, want: bool, mode: Mode)
    requires s != [] && IsName(s[0])
    ensures Lex(s, lastWasOp, want, mode) == ReadDefault(s)
  {
  }

  lemma LexHex(ds: string, rest: string, lastWasOp: bool, want: bool, mode: Mode)
    requires AllDigits(ds, Radix16) && Boundary(rest)
    ensures Lex("$" + ds + rest, lastWasOp, want, mode) == Step(Push(Hex(ds)), 1 + |ds|)
  {
    var s := "$" + ds + rest;
    assert s[1..] == ds + rest && s[1..][..|ds|] == ds;
    DigitSpanOf(ds, rest, Radix16);
  }

  lemma LexBits(ds: string, rest: string, lastWasOp: bool, want: bool, mode: Mode)
    requires AllDigits(ds, Radix2) && Boundary(rest)
    ensures Lex("%" + ds + rest, lastWasOp, want, mode)
         == if lastWasOp then Step(Push(Bits(ds)), 1 + |ds|) else Step(Infix(Mod), 1)
  {
    var s := "%" + ds + rest;
    assert s[1..] == ds + rest && s[1..][..|ds|] == ds;
    DigitSpanOf(ds, rest, Radix2);
  }

  lemma ReadsDot(rest: string)
    requires Boundary(rest)
    ensures ReadDefault("." + rest) == Step(Push(Dot), 1)
  {
    var s := "." + rest;
    NameSpanOf(".", rest);
    assert s[..1] == ".";
    assert DigitSpan(s, Radix10) == 0;
  }

  lemma LexLeaf(leaf: Leaf, rest: string, lastWasOp: bool, want: bool, mode: Mode)
    requires LeafShaped(leaf) && Boundary(rest)
    ensures var l := Lex(LeafText(leaf) + rest, lastWasOp, want, mode);
            if Sensitive(leaf) && !lastWasOp then l.action.Infix?
            else l == Step(Push(leaf), |LeafText(leaf)|)
  {
    if leaf.Decimal? || leaf.Octal? {
      ReadsNumber(leaf, rest);
      LexDefault(LeafText(leaf) + rest, lastWasOp, want, mode);
    } else if leaf.Name? {
      ReadsName(leaf.name, rest);
      LexDefault(LeafText(leaf) + rest, lastWasOp, want, mode);
    } else if leaf.Dot? {
      ReadsDot(rest);
      LexDefault("." + rest, lastWasOp, want, mode);
    } else if leaf.Hex? {
      LexHex(leaf.digits, rest, lastWasOp, want, mode);
    } else if leaf.Bits? {
      LexBits(leaf.digits, rest, lastWasOp, want, mode);
    }
  }

  lemma LexPrefix(u: UnaryOp, rest: string, lastWasOp: bool, want: bool, mode: Mode)
    ensures var l := Lex([UnaryText(u)] + rest, lastWasOp, want, mode);
            if lastWasOp then l == Step(Prefix(u), 1) else l.action != Prefix(u) && !l.action.Skip?
  {
  }

  lemma LexInfix(b: Operators.BinaryOp, rest: string, want: bool, mode: Mode)
    requires rest != [] && !Glues(b, rest)
    ensures Lex(BinaryText(b) + rest, false, want, mode) == Step(Infix(b), |BinaryText(b)|)
  {
    var s := BinaryText(b) + rest;
    assert s[|BinaryText(b)|..] == rest;
    assert s[|BinaryText(b)|] == rest[0];
  }

  // ---------------------------------------------------------------------------
  // Whole texts

  /** What the leaves are worth in an environment. */
  function Values(env: Env, depth: nat): Valuation {
    (leaf: Leaf) => Resolve(env, leaf, depth).arg
  }

  /** No leaf reports an error while it is looked up. */
  predicate ErrorFree(e: Expr, env: Env, depth: nat) {
    match e
    case Atom(leaf) => Resolve(env, leaf, depth).errors == 0
    case PrefixOp(_, e1) => ErrorFree(e1, env, depth)
    case Bracket(e1) => ErrorFree(e1, env, depth)
    case BinaryOp(_, _, l, r) => ErrorFree(l, env, depth) && ErrorFree(r, env, depth)
  }

  /** The actions eval takes on a text, blanks aside. */
  function Trace(s: string, sc: Scan, env: Env, depth: nat): seq<Action>
    decreases |s|
  {
    if s == [] then []
    else
      var l := LexIn(s, sc);
      var rest := Trace(s[l.length..], Perform(sc, l.action, env, depth), env, depth);
      if l.action.Skip? then rest else [l.action] + rest
  }

  lemma TextNonEmpty(e: Expr)
    requires Shaped(e)
    ensures Text(e) != []
  {
  }

  lemma RunStep(t: string, rest: string, sc: Scan, env: Env, depth: nat)
    requires t != [] && LexIn(t + rest, sc).length == |t|
    ensures var l := LexIn(t + rest, sc);
            var sc' := Perform(sc, l.action, env, depth);
            && RunText(t + rest, sc, env, depth) == RunText(rest, sc', env, depth)
            && Trace(t + rest, sc, env, depth)
               == (if l.action.Skip? then [] else [l.action]) + Trace(rest, sc', env, depth)
  {
    assert (t + rest)[|t|..] == rest;
  }

  lemma {:induction false} SkipSpaces(n: nat, rest: string, sc: Scan, env: Env, depth: nat)
    ensures RunText(Spaces(n) + rest, sc, env, depth) == RunText(rest, sc, env, depth)
    ensures Trace(Spaces(n) + rest, sc, env, depth) == Trace(rest, sc, env, depth)
  {
    if n == 0 {
      assert Spaces(n) + rest == rest;
    } else {
      assert Spaces(n) + rest == [' '] + (Spaces(n - 1) + rest);
      RunStep([' '], Spaces(n - 1) + rest, sc, env, depth);
      SkipSpaces(n - 1, rest, sc, env, depth);
    }
  }

  /** The machine eval has in hand after a text it read rightly. */
  function Ran(e: Expr, sc: Scan, env: Env, depth: nat): Scan {
    sc.(m := After(e, sc.m, Values(env, depth)))
  }

  /** eval does on this text what the expression says and then goes on with the rest. */
  ghost predicate Reads(e: Expr, rest: string, sc: Scan, env: Env, depth: nat) {
    && RunText(Text(e) + rest, sc, env, depth) == RunText(rest, Ran(e, sc, env, depth), env, depth)
    && Trace(Text(e) + rest, sc, env, depth) == Actions(e) + Trace(rest, Ran(e, sc, env, depth), env, depth)
  }

  // ---------------------------------------------------------------------------
  // The reading theorem

  lemma ReadsLeaf(leaf: Leaf, rest: string, sc: Scan, env: Env, depth: nat)
    requires LeafShaped(leaf) && Boundary(rest) && Resolve(env, leaf, depth).errors == 0
    ensures var e := Atom(leaf);
            if ReadsRight(e, sc.m.lastWasOp) then Reads(e, rest, sc, env, depth)
            else !(Actions(e) <= Trace(Text(e) + rest, sc, env, depth))
  {
    hide Lex, Resolve, ReadDefault, StackArg, LeafShaped, Boundary;
    LexLeaf(leaf, rest, sc.m.lastWasOp, sc.want, sc.mode);
    if ReadsRight(Atom(leaf), sc.m.lastWasOp) {
      RunStep(LeafText(leaf), rest, sc, env, depth);
      assert sc.m.(errors := sc.m.errors + 0) == sc.m;
    } else {
      assert Actions(Atom(leaf))[0] == Push(leaf);
    }
  }

  lemma {:induction false} ReadsPrefix(u: UnaryOp, e1: Expr, rest: string, sc: Scan, env: Env, depth: nat)
    requires Reads(e1, rest, sc.(m := DoPrefix(sc.m, u)), env, depth) && sc.m.lastWasOp
    ensures Reads(PrefixOp(u, e1), rest, sc, env, depth)
  {
    hide Lex, Resolve, EvalText, Reduce, StackArg, Meaning;
    var t := [UnaryText(u)];
    assert Text(PrefixOp(u, e1)) + rest == t + (Text(e1) + rest);
    LexPrefix(u, Text(e1) + rest, sc.m.lastWasOp, sc.want, sc.mode);
    RunStep(t, Text(e1) + rest, sc, env, depth);
  }

  lemma LexOpen(inner: string, sc: Scan)
    ensures LexIn("[" + inner, sc) == Step(Open, 1)
  {
  }

  lemma LexClosing(rest: string, sc: Scan)
    requires Boundary(rest)
    ensures LexIn("]" + rest, sc) == Step(Close, 1)
  {
  }

  lemma RunOpen(inner: string, sc: Scan, env: Env, depth: nat)
    ensures var sc' := sc.(m := DoOpen(sc.m));
            && RunText("[" + inner, sc, env, depth) == RunText(inner, sc', env, depth)
            && Trace("[" + inner, sc, env, depth) == [Open] + Trace(inner, sc', env, depth)
  {
    hide Lex;
    LexOpen(inner, sc);
    RunStep("[", inner, sc, env, depth);
  }

  lemma RunClose(rest: string, sc: Scan, env: Env, depth: nat)
    requires Boundary(rest)
    ensures var sc' := sc.(m := DoClose(sc.m));
            && RunText("]" + rest, sc, env, depth) == RunText(rest, sc', env, depth)
            && Trace("]" + rest, sc, env, depth) == [Close] + Trace(rest, sc', env, depth)
  {
    hide Lex;
    LexClosing(rest, sc);
    RunStep("]", rest, sc, env, depth);
  }

  lemma {:induction false} ReadsBracket(e1: Expr, rest: string, sc: Scan, env: Env, depth: nat)
    requires Boundary(rest)
    requires Reads(e1, "]" + rest, sc.(m := DoOpen(sc.m)), env, depth)
    ensures Reads(Bracket(e1), rest, sc, env, depth)
  {
    hide Lex, RunText, Trace, Perform, Resolve, Reduce;
    var sc1 := sc.(m := DoOpen(sc.m));
    assert Text(Bracket(e1)) + rest == "[" + (Text(e1) + ("]" + rest));
    RunOpen(Text(e1) + ("]" + rest), sc, env, depth);
    RunClose(rest, Ran(e1, sc1, env, depth), env, depth);
  }

  lemma OperatorBoundary(b: Operators.BinaryOp, s: string)
    ensures Boundary(BinaryText(b) + s)
  {
  }

  lemma {:induction false} ReadsInfix(b: Operators.BinaryOp, gap: nat, l: Expr, t: string, sc: Scan, env: Env,
      depth: nat)
    requires t != [] && !Glues(b, Spaces(gap) + t)
    requires !Ran(l, sc, env, depth).m.lastWasOp
    requires Reads(l, BinaryText(b) + (Spaces(gap) + t), sc, env, depth)
    ensures var sc' := sc.(m := DoInfix(After(l, sc.m, Values(env, depth)), b));
            var s := Text(l) + (BinaryText(b) + (Spaces(gap) + t));
            && RunText(s, sc, env, depth) == RunText(t, sc', env, depth)
            && Trace(s, sc, env, depth) == Actions(l) + ([Infix(b)] + Trace(t, sc', env, depth))
  {
    hide Lex;
    var sc1 := Ran(l, sc, env, depth);
    LexInfix(b, Spaces(gap) + t, sc1.want, sc1.mode);
    RunStep(BinaryText(b), Spaces(gap) + t, sc1, env, depth);
    SkipSpaces(gap, t, sc.(m := DoInfix(sc1.m, b)), env, depth);
  }

  lemma PrefixOfSum<T>(a: seq<T>, b: seq<T>, c: seq<T>)
    ensures a + b <= a + c <==> b <= c
  {
    if a + b <= a + c {
      assert (a + c)[|a|..|a + b|] == (a + b)[|a|..] == b;
      assert (a + c)[|a|..] == c;
    }
  }

  /** eval reads the text of an expression as that expression exactly when ReadsRight holds. */
  lemma {:induction false} ReadsExactly(e: Expr, rest: string, sc: Scan, base: nat, p: nat, env: Env, depth: nat)
    requires Grammatical(e) && Shaped(e) && Boundary(rest) && ErrorFree(e, env, depth)
    requires Waiting(sc.m.ops, base, p) && 1 <= p <= Level(e)
    requires e.BinaryOp? ==> |sc.m.ops| == base
    ensures if ReadsRight(e, sc.m.lastWasOp) then Reads(e, rest, sc, env, depth)
            else !(Actions(e) <= Trace(Text(e) + rest, sc, env, depth))
    decreases e, 1
  {
    var m := sc.m;
    match e
    case Atom(leaf) => ReadsLeaf(leaf, rest, sc, env, depth);
    case PrefixOp(u, e1) => ReadsExactlyPrefix(u, e1, rest, sc, base, p, env, depth);
    case Bracket(e1) => ReadsExactlyBracket(e1, rest, sc, env, depth);
    case BinaryOp(b, gap, l, r) =>
      assert m.ops[..base] == m.ops;
      ReadsExactlyBinary(b, gap, l, r, rest, sc, p, env, depth);
  }

  lemma {:induction false} ReadsExactlyPrefix(u: UnaryOp, e1: Expr, rest: string, sc: Scan, base: nat, p: nat,
      env: Env, depth: nat)
    requires var e := PrefixOp(u, e1); Grammatical(e) && Shaped(e) && ErrorFree(e, env, depth)
    requires Boundary(rest) && Waiting(sc.m.ops, base, p) && 1 <= p <= UNARY_PRIORITY
    ensures var e := PrefixOp(u, e1);
            if ReadsRight(e, sc.m.lastWasOp) then Reads(e, rest, sc, env, depth)
            else !(Actions(e) <= Trace(Text(e) + rest, sc, env, depth))
    decreases PrefixOp(u, e1), 0
  {
    hide Lex;
    var e := PrefixOp(u, e1);
    var t := [UnaryText(u)];
    assert Text(e) + rest == t + (Text(e1) + rest);
    LexPrefix(u, Text(e1) + rest, sc.m.lastWasOp, sc.want, sc.mode);
    if sc.m.lastWasOp {
      var m1 := DoPrefix(sc.m, u);
      assert m1.ops[..base] == sc.m.ops[..base] && m1.ops[base..] == sc.m.ops[base..] + [Top(m1.ops)];
      ReadsExactly(e1, rest, sc.(m := m1), base, p, env, depth);
      RunStep(t, Text(e1) + rest, sc, env, depth);
      PrefixOfSum([Prefix(u)], Actions(e1), Trace(Text(e1) + rest, sc.(m := m1), env, depth));
      if ReadsRight(e1, true) {
        ReadsPrefix(u, e1, rest, sc, env, depth);
      }
    } else {
      assert Actions(e)[0] == Prefix(u);
    }
  }

  lemma {:induction false} ReadsExactlyBracket(e1: Expr, rest: string, sc: Scan, env: Env, depth: nat)
    requires Grammatical(e1) && Shaped(e1) && ErrorFree(e1, env, depth) && Boundary(rest)
    ensures var e := Bracket(e1);
            if ReadsRight(e, sc.m.lastWasOp) then Reads(e, rest, sc, env, depth)
            else !(Actions(e) <= Trace(Text(e) + rest, sc, env, depth))
    decreases Bracket(e1), 0
  {
    var e := Bracket(e1);
    var sc1 := sc.(m := DoOpen(sc.m));
    var inner := Text(e1) + ("]" + rest);
    hide Lex, RunText, Trace, Perform, Resolve, Reduce;
    assert sc1.m.ops[..|sc1.m.ops|] == sc1.m.ops;
    ReadsExactly(e1, "]" + rest, sc1, |sc1.m.ops|, 1, env, depth);
    if ReadsRight(e1, sc.m.lastWasOp) {
      ReadsBracket(e1, rest, sc, env, depth);
    } else {
      assert Text(e) + rest == "[" + inner;
      RunOpen(inner, sc, env, depth);
      PrefixOfSum([Open], Actions(e1), Trace(inner, sc1, env, depth));
      assert Actions(e) == [Open] + Actions(e1) + [Close];
    }
  }

  lemma {:induction false} ReadsExactlyBinary(b: Operators.BinaryOp, gap: nat, l: Expr, r: Expr, rest: string,
      sc: Scan, p: nat, env: Env, depth: nat)
    requires var e := BinaryOp(b, gap, l, r); Grammatical(e) && Shaped(e) && ErrorFree(e, env, depth)
    requires Boundary(rest) && Blocked(sc.m.ops, p) && 1 <= p <= Priority(b)
    ensures var e := BinaryOp(b, gap, l, r);
            if ReadsRight(e, sc.m.lastWasOp) then Reads(e, rest, sc, env, depth)
            else !(Actions(e) <= Trace(Text(e) + rest, sc, env, depth))
    decreases BinaryOp(b, gap, l, r), 0
  {
    hide Lex, RunText, Trace, Perform, Resolve, Reduce, Glues, BinaryText, StackArg, Spaces, EvalText, Meaning,
      LeafText, UnaryText, LeafShaped, Boundary, Reads;
    var e := BinaryOp(b, gap, l, r);
    var opText := BinaryText(b) + (Spaces(gap) + (Text(r) + rest));
    assert Text(e) + rest == Text(l) + opText;
    assert sc.m.ops[..|sc.m.ops|] == sc.m.ops;
    OperatorBoundary(b, Spaces(gap) + (Text(r) + rest));
    ReadsExactly(l, opText, sc, |sc.m.ops|, Priority(b), env, depth);
    if ReadsRight(l, sc.m.lastWasOp) {
      var sc2 := InfixRuns(b, gap, l, r, rest, sc, env, depth);
      ReadsExactly(r, rest, sc2, |sc2.m.ops|, Priority(b) + 1, env, depth);
      BinaryFollows(b, gap, l, r, rest, sc, sc2, env, depth);
    } else {
      assert Actions(e)[..|Actions(l)|] == Actions(l);
    }
  }

  /** The left operand and the operator. */
  lemma {:induction false} InfixRuns(b: Operators.BinaryOp, gap: nat, l: Expr, r: Expr, rest: string, sc: Scan,
      env: Env, depth: nat) returns (sc2: Scan)
    requires Grammatical(l) && Level(l) >= Priority(b) && Blocked(sc.m.ops, Priority(b))
    requires Shaped(BinaryOp(b, gap, l, r))
    requires Reads(l, BinaryText(b) + (Spaces(gap) + (Text(r) + rest)), sc, env, depth)
    ensures sc2 == sc.(m := DoInfix(After(l, sc.m, Values(env, depth)), b))
    ensures sc2.m.lastWasOp == !Pends(l, false) && Waiting(sc2.m.ops, |sc2.m.ops|, Priority(b) + 1)
    ensures var s := Text(l) + (BinaryText(b) + (Spaces(gap) + (Text(r) + rest)));
            && RunText(s, sc, env, depth) == RunText(Text(r) + rest, sc2, env, depth)
            && Trace(s, sc, env, depth) == Actions(l) + ([Infix(b)] + Trace(Text(r) + rest, sc2, env, depth))
  {
    hide Lex, RunText, Trace, Perform, Resolve, Reduce, BinaryText, StackArg, EvalText, Meaning;
    var v := Values(env, depth);
    assert sc.m.ops[..|sc.m.ops|] == sc.m.ops;
    MachineComputesMeaning(l, sc.m, |sc.m.ops|, Priority(b), v);
    var m2 := InfixComputes(b, l, sc.m, v);
    sc2 := sc.(m := m2);
    TextNonEmpty(r);
    GlueAhead(b, gap, Text(r), rest);
    ReadsInfix(b, gap, l, Text(r) + rest, sc, env, depth);
  }

  /** Putting the three parts of a binary operation together. */
  lemma BinaryFollows(b: Operators.BinaryOp, gap: nat, l: Expr, r: Expr, rest: string, sc: Scan, sc2: Scan, env: Env,
      depth: nat)
    requires sc2 == sc.(m := DoInfix(After(l, sc.m, Values(env, depth)), b))
    requires ReadsRight(l, sc.m.lastWasOp) && sc2.m.lastWasOp == !Pends(l, false)
    requires var s := Text(BinaryOp(b, gap, l, r)) + rest;
             && RunText(s, sc, env, depth) == RunText(Text(r) + rest, sc2, env, depth)
             && Trace(s, sc, env, depth) == Actions(l) + ([Infix(b)] + Trace(Text(r) + rest, sc2, env, depth))
    requires if ReadsRight(r, sc2.m.lastWasOp) then Reads(r, rest, sc2, env, depth)
             else !(Actions(r) <= Trace(Text(r) + rest, sc2, env, depth))
    ensures var e := BinaryOp(b, gap, l, r);
            if ReadsRight(e, sc.m.lastWasOp) then Reads(e, rest, sc, env, depth)
            else !(Actions(e) <= Trace(Text(e) + rest, sc, env, depth))
  {
    hide Lex, RunText, Trace, Perform, Resolve, Reduce, Glues, BinaryText, Pends, StackArg, Text, DoInfix, Spaces,
      EvalText, Meaning, Level, Values;
    var e := BinaryOp(b, gap, l, r);
    var trace := Trace(Text(r) + rest, sc2, env, depth);
    if ReadsRight(e, sc.m.lastWasOp) {
      SumOfParts(Actions(l), Infix(b), Actions(r), Trace(rest, Ran(r, sc2, env, depth), env, depth));
    } else {
      PrefixOfParts(Actions(l), Infix(b), Actions(r), trace);
    }
  }

  lemma SumOfParts<T>(a: seq<T>, x: T, b: seq<T>, c: seq<T>)
    ensures a + [x] + b + c == a + ([x] + (b + c))
  {
  }

  lemma PrefixOfParts<T>(a: seq<T>, x: T, b: seq<T>, c: seq<T>)
    ensures a + [x] + b <= a + ([x] + c) <==> b <= c
  {
    assert a + [x] + b == a + ([x] + b);
    PrefixOfSum(a, [x] + b, [x] + c);
    PrefixOfSum([x], b, c);
  }

  lemma GlueAhead(b: Operators.BinaryOp, gap: nat, t: string, rest: string)
    requires t != [] && !Glues(b, Spaces(gap) + t)
    ensures !Glues(b, Spaces(gap) + (t + rest))
  {
    assert Spaces(gap) + (t + rest) == (Spaces(gap) + t) + rest;
  }
}
