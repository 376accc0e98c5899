/** What single directives do, by their effect on memory, labels and the program counter (v_ds, v_org and
    v_equ of src/ops.c, programlabel of src/symbols.c). */
module LineLaws {
  import opened Bytes
  import opened Symbols
  import opened Operators
  import opened Lexer
  import opened ExprTree
  import opened ExprText
  import opened ExprTheorems
  import opened ExprFits
  import opened EvalSafety
  import opened Encoding
  import opened OutputImage
  import opened Pass
  import opened PassTheorems
  import opened DataOutput
  import opened InstructionOutput

  // ---------------------------------------------------------------------------
  // DS

  function FillOf(args: seq<Arg>): int {
    if |args| > 1 then args[1].value else 0
  }

  /** DS reserves as many entries as its first operand says and fills each with the second one, or zero: every
      entry reads back as that, modulo its width, and no other address changes. A negative count does nothing. */
  lemma SpaceFills(st: State, line: Line, args: seq<Arg>, cpu: Processor, k: nat, a: int)
    requires LineOk(line) && line.op.Ds? && |args| == |Exprs(line.op)| && Writes(st)
    requires forall i :: 0 <= i < |args| ==> !args[i].unknown
    ensures var (r, size) := (Act(st, line, args, cpu), line.op.size);
            var n := if args[0].value < 0 then 0 else args[0].value;
            && Writes(r) && r.org == st.org + n * size
            && (k < n ==> ReadEntry(Memory(r.out, st.org + k * size, size), cpu.msbFirst) == FillOf(args) % Width(size))
            && (st.org <= a < r.org ==> ByteAt(Pieces(r.out), a).Some?)
            && (!(st.org <= a < r.org) ==> ByteAt(Pieces(r.out), a) == ByteAt(Pieces(st.out), a))
  {
    hide ByteAt, Memory, ReadEntry, Fill, EntryBytes;
    var size := line.op.size;
    var n := if args[0].value < 0 then 0 else args[0].value;
    SpaceIs(st, line, args, cpu);
    FillWrites(st, FillOf(args), n, size, cpu.msbFirst, a);
    if k < n {
      EntryFilled(st, FillOf(args), n, size, cpu.msbFirst, k);
      EntryReads(FillOf(args), size, cpu.msbFirst);
    }
  }

  lemma SpaceIs(st: State, line: Line, args: seq<Arg>, cpu: Processor)
    requires LineOk(line) && line.op.Ds? && |args| == |Exprs(line.op)|
    requires forall i :: 0 <= i < |args| ==> !args[i].unknown
    ensures SizeOk(line.op.size) && args != []
    ensures Act(st, line, args, cpu)
         == Fill(st, FillOf(args), if args[0].value < 0 then 0 else args[0].value, line.op.size, cpu.msbFirst)
  {
    hide GenFill;
  }

  lemma EntryFilled(st: State, fill: int, n: nat, size: nat, msbFirst: bool, k: nat)
    requires SizeOk(size) && Writes(st) && k < n
    ensures Memory(Fill(st, fill, n, size, msbFirst).out, st.org + k * size, size) == EntryBytes(fill, size, msbFirst)
  {
    hide ByteAt, Fill, EntryBytes, Memory;
    var r := Fill(st, fill, n, size, msbFirst);
    var (entry, from) := (EntryBytes(fill, size, msbFirst), st.org + k * size);
    EntryLength(fill, size, msbFirst);
    forall a | from <= a < from + |entry| ensures ByteAt(Pieces(r.out), a) == Some(entry[a - from]) {
      FillWrites(st, fill, n, size, msbFirst, a);
      WithinEntry(a - st.org, k, n, size);
    }
    MemoryIs(r.out, from, entry);
  }

  lemma EntryLength(v: int, size: nat, msbFirst: bool)
    requires SizeOk(size)
    ensures |EntryBytes(v, size, msbFirst)| == size
  {
  }

  lemma WithinEntry(i: int, k: nat, n: nat, size: nat)
    requires SizeOk(size) && k < n && k * size <= i < k * size + size
    ensures 0 <= i < n * size && i % size == i - k * size
  {
    assert (k + 1) * size == k * size + size;
    assert (n - k - 1) * size >= 0 && n * size == (k + 1) * size + (n - k - 1) * size;
  }

  /** ALIGN to zero ends the program, and so does ALIGN to a negative number except at address 0, where it
      does nothing. */
  lemma AlignDies(st: State, line: Line, args: seq<Arg>, cpu: Processor)
    requires LineOk(line) && line.op.Align? && |args| == |Exprs(line.op)| && !st.fault
    requires !st.orgUnknown && forall i :: 0 <= i < |args| ==> !args[i].unknown
    ensures var (r, n) := (Act(st, line, args, cpu), args[0].value);
            && (r.fault <==> n == 0 || (n < 0 && st.org != 0))
            && (n < 0 && st.org == 0 ==> r == st)
  {
    hide Fill;
    var n := args[0].value;
    if n > 0 {
      FillGrows(st, if |args| > 1 then Lo(args[1].value) else 0, n - st.org % n, 1, cpu.msbFirst);
    }
  }

  // ---------------------------------------------------------------------------
  // ORG and the program counter

  /** Data after an ORG is where its operand says, whatever the origin was, and a gap in front of it has the
      filler the ORG gives, or the one in force. */
  lemma OrgPlaces(st: State, org: Line, args: seq<Arg>, dc: Line, data: seq<Arg>, cpu: Processor, a: int)
    requires LineOk(org) && org.op.Org? && |args| == |Exprs(org.op)| && !args[0].unknown && st.redo == 0
    requires LineOk(dc) && dc.op.Dc? && |data| == |Exprs(dc.op)| && CountUnknown(data) == 0
    ensures var (from, size) := (args[0].value, dc.op.size);
            var moved := Act(st, org, args, cpu);
            var r := Act(moved, dc, data, cpu);
            && moved.syms == st.syms && moved.out == st.out
            && Writes(r) && r.org == from + size * |data|
            && r.out != [] && r.out[|r.out| - 1].fill == (if |args| > 1 then Lo(args[1].value) else st.orgFill)
            && ByteAt(Pieces(r.out), a)
            == if from <= a < r.org then Some(EntryByte(data, size, cpu.msbFirst, a - from))
               else ByteAt(Pieces(st.out), a)
  {
    hide ByteAt, EntryBytes, CountUnknown, EntryByte, DataBytes;
    DataWrites(Act(st, org, args, cpu), data, dc.op.size, cpu, a);
  }

  /** In an operand the program counter is the origin, and known as far as that is. */
  lemma CounterIsOrigin(st: State)
    ensures ValuesOf(st)(Dot) == ValuesOf(st)(Star) == Arg(st.org, st.orgUnknown)
  {
  }

  // ---------------------------------------------------------------------------
  // Lookups

  /** How many leaves of an expression are not known. */
  function Doubts(e: Expr, v: Valuation): nat {
    match e
    case Atom(leaf) => CountIf(v(leaf).unknown)
    case PrefixOp(_, e1) => Doubts(e1, v)
    case Bracket(e1) => Doubts(e1, v)
    case BinaryOp(_, _, l, r) => Doubts(l, v) + Doubts(r, v)
  }

  /** Evaluating an expression marks exactly the symbols it names, and counts each lookup of an unknown value. */
  lemma {:induction false} LookupsCount(e: Expr, st: State)
    requires Shaped(e) && NoEqm(st.syms)
    ensures var t := ExprEffect(e, EnvOf(st), 0);
            && t.unknowns == Doubts(e, ValuesOf(st))
            && t.keys == set leaf | leaf in Leaves(e) && leaf.Name? && leaf.name != [] :: Key(leaf.name)
  {
    hide NoEqm, LeafShaped, Mangle;
    match e
    case Atom(leaf) => LeafCounts(leaf, st);
    case PrefixOp(_, e1) => LookupsCount(e1, st);
    case Bracket(e1) => LookupsCount(e1, st);
    case BinaryOp(_, _, l, r) =>
      LookupsCount(l, st);
      LookupsCount(r, st);
  }

  lemma LeafCounts(leaf: Leaf, st: State)
    requires LeafShaped(leaf) && NoEqm(st.syms)
    ensures LeafEffect(leaf, EnvOf(st), 0).unknowns == CountIf(ValuesOf(st)(leaf).unknown)
    ensures LeafEffect(leaf, EnvOf(st), 0).keys == (if leaf.Name? then {Key(leaf.name)} else {})
    ensures leaf.Name? ==> leaf.name != []
  {
    hide Mangle, NumberValue;
  }

  // ---------------------------------------------------------------------------
  // Labels

  /** A label is the address of what its line puts into memory; that of ORG or ALIGN is the address they go
      to. It is known as far as the origin is. */
  lemma LabelMarks(st: State, line: Line, cpu: Processor)
    requires LineOk(line) && line.name != [] && !line.op.Equ? && !st.fault && !Execute(st, line, cpu).fault
    ensures var r := Execute(st, line, cpu);
            var at := if line.op.Org? || line.op.Align? then Arg(r.org, r.orgUnknown) else Arg(st.org, st.orgUnknown);
            Find(r.syms, Key(line.name)).value == at.value && Find(r.syms, Key(line.name)).unknown == at.unknown
  {
    hide Act, Mangle, ListEffect, LineOk;
    var s1 := Before(st, line);
    var s2 := Act(Evaluated(s1, line.op), line, Args(s1, line.op), cpu);
    ActGrows(Evaluated(s1, line.op), line, Args(s1, line.op), cpu);
  }

  /** EQU gives a symbol its operand's value and nobody else. */
  lemma EquDefines(st: State, line: Line, cpu: Processor, k: string)
    requires LineOk(line) && line.op.Equ?
    ensures var (r, a) := (Execute(st, line, cpu), Args(st, line.op)[0]);
            && Find(r.syms, Key(line.name)).value == a.value && Find(r.syms, Key(line.name)).unknown == a.unknown
            && (k != Key(line.name) ==>
                  Find(r.syms, k).value == Find(st.syms, k).value
                    && Find(r.syms, k).unknown == Find(st.syms, k).unknown)
  {
    assert line.name != [];
    hide Mangle, ListEffect, LineOk;
  }
}
