/** Local names and the symbols they stand for (find_symbol and create_symbol of src/symbols.c). */
module Mangling {
  import opened Lexer
  import opened Symbols

  /** The part of a name that counts. */
  function Clip(name: string): (r: string)
    requires name != []
    ensures r != [] && r[0] == name[0]
  {
    if |name| > MAX_SYM_LEN then name[..MAX_SYM_LEN] else name
  }

  predicate IsDot(name: string)
    requires name != []
  {
    name[0] == '.'
  }

  predicate IsDollar(name: string)
    requires name != []
  {
    !IsDot(name) && Clip(name)[|Clip(name)| - 1] == '$'
  }

  predicate IsGlobal(name: string)
    requires name != []
  {
    !IsDot(name) && !IsDollar(name)
  }

  lemma {:induction false} DecimalDigits(n: nat)
    ensures forall i :: 0 <= i < |DecimalText(n)| ==> IsDecimal(DecimalText(n)[i])
  {
    if n >= 10 {
      DecimalDigits(n / 10);
    }
  }

  /** Reading a number's text as a decimal literal gives the number back. */
  lemma {:induction false} DecimalReads(n: nat)
    ensures NumberValue(DecimalText(n), Radix10) == n
  {
    var t := DecimalText(n);
    if n >= 10 {
      DecimalReads(n / 10);
      assert t[..|t| - 1] == DecimalText(n / 10);
    } else {
      assert t[..|t| - 1] == [];
    }
  }

  lemma LeadingPart(a: string, s: string)
    requires forall i :: 0 <= i < |a| ==> IsDecimal(a[i])
    requires s != [] && !IsDecimal(s[0])
    ensures DigitSpan(a + s, Radix10) == |a|
  {
    var n := DigitSpan(a + s, Radix10);
    assert (a + s)[|a|] == s[0];
    assert n >= |a|;
  }

  /** A number followed by something that is no digit can be read back. */
  lemma NumberedParts(m: nat, s: string, n: nat, t: string)
    requires s != [] && t != [] && !IsDecimal(s[0]) && !IsDecimal(t[0])
    requires DecimalText(m) + s == DecimalText(n) + t
    ensures m == n && s == t
  {
    var (a, b) := (DecimalText(m), DecimalText(n));
    DecimalDigits(m);
    DecimalDigits(n);
    LeadingPart(a, s);
    LeadingPart(b, t);
    assert a == (a + s)[..|a|] == (b + t)[..|b|] == b;
    assert s == (a + s)[|a|..] == (b + t)[|b|..] == t;
    DecimalReads(m);
    DecimalReads(n);
  }

  /** A name that is printed like a number without leading zeros, a dot, and perhaps more. */
  predicate LooksLocal(name: string) {
    var d := DigitSpan(name, Radix10);
    0 < d < |name| && name[d] == '.' && (d == 1 || name[0] != '0')
  }

  /** Two names are the same symbol just if they are the same name and, where the name is local, in
      the same scope. Only a global name that looks local must not meet one that begins with a dot. */
  lemma MangleInjective(n1: string, s1: Scope, n2: string, s2: Scope)
    requires n1 != [] && n2 != []
    requires IsGlobal(n1) && IsDot(n2) ==> !LooksLocal(Clip(n1))
    requires IsGlobal(n2) && IsDot(n1) ==> !LooksLocal(Clip(n2))
    ensures Mangle(n1, s1) == Mangle(n2, s2)
       <==> Clip(n1) == Clip(n2) && (IsDot(n1) ==> s1.local == s2.local) && (IsDollar(n1) ==> s1.dollar == s2.dollar)
  {
    MangleForm(n1, s1);
    MangleForm(n2, s2);
    if Mangle(n1, s1) == Mangle(n2, s2) {
      var (p1, p2) := (Number(n1, s1), Number(n2, s2));
      if p1.Some? && p2.Some? {
        NumberedParts(p1.value, Tail(n1), p2.value, Tail(n2));
        if IsDollar(n1) {
          assert Clip(n1) == Tail(n1)[1..] && Tail(n2)[1..] == Clip(n2);
        }
      } else if p1.Some? {
        GlobalIsNotLocal(n2, n1, s1);
      } else if p2.Some? {
        GlobalIsNotLocal(n1, n2, s2);
      }
    }
  }

  /** A global name is the symbol of a local one only if the local one begins with a dot and the global
      one looks like it. */
  lemma GlobalIsNotLocal(g: string, n: string, s: Scope)
    requires g != [] && n != [] && IsGlobal(g) && !IsGlobal(n) && Mangle(n, s) == Clip(g)
    ensures IsDot(n) && LooksLocal(Clip(g))
  {
    MangleForm(n, s);
    var (text, tail) := (DecimalText(Number(n, s).value), Tail(n));
    assert Clip(g)[|Clip(g)| - 1] == tail[|tail| - 1];
    DecimalDigits(Number(n, s).value);
    LeadingPart(text, tail);
    DecimalBegins(Number(n, s).value);
  }

  /** No leading zeros are printed. */
  lemma {:induction false} DecimalBegins(n: nat)
    ensures |DecimalText(n)| > 1 ==> DecimalText(n)[0] != '0'
  {
    if n >= 10 {
      DecimalBegins(n / 10);
      if n < 100 {
        assert DecimalText(n / 10)[0] == '0' + (n / 10) as char;
      }
    }
  }

  /** Digits without leading zeros are the text of their value. */
  lemma {:induction false} DecimalPrints(ds: string)
    requires ds != [] && forall i :: 0 <= i < |ds| ==> IsDecimal(ds[i])
    requires |ds| == 1 || ds[0] != '0'
    ensures NumberValue(ds, Radix10) >= 0 && DecimalText(NumberValue(ds, Radix10)) == ds
    ensures ds[0] != '0' ==> NumberValue(ds, Radix10) > 0
  {
    var (front, last) := (ds[..|ds| - 1], ds[|ds| - 1]);
    if |ds| == 1 {
      assert front == [];
    } else {
      DecimalPrints(front);
      var v := NumberValue(front, Radix10);
      assert NumberValue(ds, Radix10) == 10 * v + DigitValue(last);
      assert front + [last] == ds;
    }
  }

  /** A global name is the symbol of some local label just if it looks like one. */
  lemma DigitsClashExactly(g: string, s: Scope)
    requires g != [] && IsGlobal(g)
    ensures (exists n, t :: n != [] && !IsGlobal(n) && Mangle(n, t) == Mangle(g, s)) <==> LooksLocal(Clip(g))
    ensures (exists n, t :: n != [] && IsDot(n) && Mangle(n, t) == Mangle(g, s)) <==> LooksLocal(Clip(g))
  {
    MangleForm(g, s);
    forall n, t | n != [] && !IsGlobal(n) && Mangle(n, t) == Mangle(g, s) ensures IsDot(n) && LooksLocal(Clip(g)) {
      GlobalIsNotLocal(g, n, t);
    }
    if LooksLocal(Clip(g)) {
      var name := Clip(g);
      var d := DigitSpan(name, Radix10);
      DecimalPrints(name[..d]);
      var (n, t) := (name[d..], Scope(NumberValue(name[..d], Radix10), 0));
      assert name[..d] + name[d..] == name;
      assert n != [] && IsDot(n) && Mangle(n, t) == Mangle(g, s);
    }
  }

  /** The number in front of a mangled name, and what follows it. */
  function Number(name: string, scope: Scope): Option<nat>
    requires name != []
  {
    if IsDot(name) then Some(scope.local) else if IsDollar(name) then Some(scope.dollar) else None
  }

  function Tail(name: string): (r: string)
    requires name != []
    ensures r != [] && (!IsGlobal(name) ==> !IsDecimal(r[0]))
  {
    if IsDollar(name) then "$" + Clip(name) else Clip(name)
  }

  lemma MangleForm(name: string, scope: Scope)
    requires name != []
    ensures Mangle(name, scope)
         == if Number(name, scope).Some? then DecimalText(Number(name, scope).value) + Tail(name) else Tail(name)
  {
    if IsDollar(name) {
      assert DecimalText(scope.dollar) + "$" + Clip(name) == DecimalText(scope.dollar) + ("$" + Clip(name));
    }
  }

  /** A global name that begins with a digit can be the name of a local label. */
  lemma DigitsClash()
    ensures IsGlobal("1.x") && IsDot(".x") && Mangle("1.x", Scope(0, 0)) == Mangle(".x", Scope(1, 0))
  {
    assert DecimalText(1) == "1";
  }
}
