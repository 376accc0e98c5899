/** The symbol table as a map from mangled names (src/symbols.c, src/asm.h). */
module Symbols {

  datatype Option<+T> = None | Some(value: T)

  /** value, SYM_UNKNOWN, SYM_REF, and for an EQM symbol (SYM_MACRO) its replacement text. */
  datatype Symbol = Symbol(value: int, unknown: bool, ref: bool, eqm: Option<string>)

  type Table = map<string, Symbol>

  /** What create_symbol puts in the table. */
  const CREATED := Symbol(0, true, false, None)

  /** The current values of Localindex and Localdollarindex. */
  datatype Scope = Scope(local: nat, dollar: nat)

  const MAX_SYM_LEN := 1024

  /** %lu */
  function DecimalText(n: nat): (s: string)
    ensures s != []
  {
    var digit := ['0' + (n % 10) as char];
    if n < 10 then digit else DecimalText(n / 10) + digit
  }

  /** The key under which find_symbol and create_symbol file a name. */
  function Mangle(name: string, scope: Scope): string
    requires name != []
  {
    var n := if |name| > MAX_SYM_LEN then name[..MAX_SYM_LEN] else name;
    if n[0] == '.' then DecimalText(scope.local) + n
    else if n[|n| - 1] == '$' then DecimalText(scope.dollar) + "$" + n
    else n
  }

  /** find_symbol with an absent symbol read as a freshly created one. */
  function Find(t: Table, key: string): Symbol {
    if key in t then t[key] else CREATED
  }

  /** pushsymbol's effect on the table: each name is created if absent, then marked referenced. */
  function Touch(t: Table, keys: set<string>): Table {
    map k | k in t.Keys + keys :: if k in keys then Find(t, k).(ref := true) else t[k]
  }

  lemma TouchTwice(t: Table, a: set<string>, b: set<string>)
    ensures Touch(Touch(t, a), b) == Touch(t, a + b)
  {
  }

  lemma TouchNothing(t: Table)
    ensures Touch(t, {}) == t
  {
  }
}
