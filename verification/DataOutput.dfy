/** What DC and DS put into memory (v_dc, v_ds and genfill of src/ops.c). */
module DataOutput {
  import opened Bytes
  import opened Symbols
  import opened Operators
  import opened Encoding
  import opened OutputImage
  import opened Pass
  import PassTheorems

  /** The number some bytes stand for. */
  function ReadEntry(bytes: seq<byte>, msbFirst: bool): nat {
    if bytes == [] then 0
    else if msbFirst then 256 * ReadEntry(bytes[..|bytes| - 1], msbFirst) + bytes[|bytes| - 1] as nat
    else bytes[0] as nat + 256 * ReadEntry(bytes[1..], msbFirst)
  }

  /** An entry of data holds its value, modulo its width, in the processor's byte order. */
  lemma EntryReads(v: int, size: nat, msbFirst: bool)
    requires SizeOk(size)
    ensures ReadEntry(EntryBytes(v, size, msbFirst), msbFirst) == v % Width(size)
  {
    assert Width(1) == 256 && Width(2) == 65536 && Width(4) == 4294967296;
    var w := v / 65536;
    if size == 1 {
      ReadOne(Lo(v), msbFirst);
    } else if size == 2 {
      LowWord(v);
      ReadTwo(Lo(v), Hi(v), msbFirst);
    } else {
      LowWord(v);
      LowWord(w);
      Halves(v);
      ReadFour(Lo(v), Hi(v), Lo(w), Hi(w), msbFirst);
    }
  }

  lemma ReadOne(a: byte, msbFirst: bool)
    ensures ReadEntry([a], msbFirst) == a
  {
    assert [a][..0] == [] && [a][1..] == [];
  }

  lemma ReadTwo(a: byte, b: byte, msbFirst: bool)
    ensures ReadEntry(if msbFirst then [b, a] else [a, b], msbFirst) == a as nat + 256 * b as nat
  {
    assert [b, a][..1] == [b] && [a, b][1..] == [b];
    ReadOne(b, msbFirst);
  }

  lemma ReadFour(a: byte, b: byte, c: byte, d: byte, msbFirst: bool)
    ensures ReadEntry(if msbFirst then [d, c, b, a] else [a, b, c, d], msbFirst)
         == a as nat + 256 * b as nat + 65536 * (c as nat + 256 * d as nat)
  {
    assert [d, c, b, a][..3] == [d, c, b] && [d, c, b][..2] == [d, c];
    assert [a, b, c, d][1..] == [b, c, d] && [b, c, d][1..] == [c, d];
    ReadTwo(c, d, msbFirst);
  }

  lemma Halves(v: int)
    ensures v % 4294967296 == v % 65536 + 65536 * ((v / 65536) % 65536)
  {
  }

  // ---------------------------------------------------------------------------
  // Fill

  /** Is this state's output written? */
  predicate Writes(st: State) {
    st.redo == 0 && !(st.fisclear && st.orgUnknown)
  }

  lemma GenerateWrites(st: State, bytes: seq<byte>, a: int)
    requires Writes(st)
    ensures var r := Generate(st, bytes);
            && Writes(r) && r.org == st.org + |bytes|
            && ByteAt(Pieces(r.out), a)
            == if st.org <= a < r.org then Some(bytes[a - st.org]) else ByteAt(Pieces(st.out), a)
  {
    var r := Generate(st, bytes);
    assert Front(Pieces(r.out)) == Pieces(st.out);
  }

  /** The loop that writes a buffer again and again makes one run of bytes of it. */
  lemma {:induction false} GenFillWrites(st: State, gen: seq<byte>, bytes: nat, a: int)
    requires |gen| == GEN_SIZE && Writes(st)
    ensures var r := GenFill(st, gen, bytes);
            && Writes(r) && r.org == st.org + bytes
            && ByteAt(Pieces(r.out), a)
            == if st.org <= a < r.org then Some(gen[(a - st.org) % GEN_SIZE]) else ByteAt(Pieces(st.out), a)
    decreases bytes
  {
    if bytes > GEN_SIZE {
      GenerateWrites(st, gen, a);
      GenFillWrites(Generate(st, gen), gen, bytes - GEN_SIZE, a);
      assert (a - st.org - GEN_SIZE) % GEN_SIZE == (a - st.org) % GEN_SIZE;
    } else {
      GenerateWrites(st, gen[..bytes], a);
    }
  }

  /** DS puts its entry into memory as often as it says, one behind the other, and nothing else. */
  lemma FillWrites(st: State, fill: int, entries: nat, size: nat, msbFirst: bool, a: int)
    requires SizeOk(size) && Writes(st)
    ensures var r := Fill(st, fill, entries, size, msbFirst);
            && Writes(r) && r.org == st.org + entries * size
            && ByteAt(Pieces(r.out), a)
            == if st.org <= a < r.org then Some(EntryBytes(fill, size, msbFirst)[(a - st.org) % size])
              else ByteAt(Pieces(st.out), a)
  {
    hide GenFill, EntryBytes, ByteAt;
    if entries != 0 {
      var gen := Pattern(fill, size, msbFirst);
      GenFillWrites(st, gen, entries * size, a);
      SameResidue(a - st.org, size);
      PatternRepeats(fill, size, msbFirst, (a - st.org) % GEN_SIZE);
    }
  }

  lemma PatternRepeats(fill: int, size: nat, msbFirst: bool, i: nat)
    requires SizeOk(size) && i < GEN_SIZE
    ensures Pattern(fill, size, msbFirst)[i] == EntryBytes(fill, size, msbFirst)[i % size]
  {
    hide EntryBytes;
  }

  lemma SameResidue(x: int, size: nat)
    requires SizeOk(size)
    ensures x % GEN_SIZE % size == x % size
  {
  }

  /** DC puts its entries into memory, one behind the other, and nothing else. */
  lemma DataWrites(st: State, args: seq<Arg>, size: nat, cpu: Processor, a: int)
    requires SizeOk(size) && Writes(st) && CountUnknown(args) == 0
    ensures var r := Data(st, args, size, cpu);
            && Writes(r) && r.org == st.org + size * |args|
            && ByteAt(Pieces(r.out), a)
            == if st.org <= a < r.org then Some(EntryByte(args, size, cpu.msbFirst, a - st.org))
              else ByteAt(Pieces(st.out), a)
  {
    hide EntryBytes, ByteAt, DataBytes, CountUnknown;
    GenerateWrites(st, DataBytes(args, size, cpu.msbFirst), a);
    DataLength(args, size, cpu.msbFirst);
    if st.org <= a < st.org + size * |args| {
      DataAt(args, size, cpu.msbFirst, a - st.org);
    }
  }

  /** Byte i of the entries: byte i % size of entry i / size. */
  function EntryByte(args: seq<Arg>, size: nat, msbFirst: bool, i: int): byte
    requires SizeOk(size)
  {
    if 0 <= i / size < |args| then EntryBytes(args[i / size].value, size, msbFirst)[i % size] else 0
  }

  lemma {:induction false} DataLength(args: seq<Arg>, size: nat, msbFirst: bool)
    requires SizeOk(size)
    ensures |DataBytes(args, size, msbFirst)| == size * |args|
  {
    hide EntryBytes;
    if args != [] {
      DataLength(args[1..], size, msbFirst);
    }
  }

  lemma {:induction false} DataAt(args: seq<Arg>, size: nat, msbFirst: bool, i: nat)
    requires SizeOk(size) && i < size * |args|
    ensures |DataBytes(args, size, msbFirst)| == size * |args|
    ensures i / size < |args| && DataBytes(args, size, msbFirst)[i] == EntryByte(args, size, msbFirst, i)
    decreases |args|
  {
    hide EntryBytes;
    DataLength(args, size, msbFirst);
    assert i / size < |args|;
    if i >= size {
      DataAt(args[1..], size, msbFirst, i - size);
      assert (i - size) / size == i / size - 1 && (i - size) % size == i % size;
      assert args[1..][i / size - 1] == args[i / size];
    }
  }

  /** ALIGN goes to the next multiple, over fewer bytes than it, each of them the low byte of its second
      operand, or zero; on a multiple it stays where it is. */
  lemma AlignReaches(st: State, args: seq<Arg>, cpu: Processor, a: int)
    requires 1 <= |args| <= 2 && !args[0].unknown && !st.orgUnknown && args[0].value > 0 && Writes(st) && !st.fault
    requires |args| > 1 ==> !args[1].unknown
    ensures var r := AlignTo(st, args, cpu);
            var n := args[0].value;
            && !r.fault && r.redo == 0 && Writes(r)
            && r.org == (if st.org % n == 0 then n * (st.org / n) else n * (st.org / n + 1))
            && st.org <= r.org < st.org + n
            && ByteAt(Pieces(r.out), a)
            == if st.org <= a < r.org then Some(Filler(args)) else ByteAt(Pieces(st.out), a)
  {
    hide Fill, ByteAt, EntryBytes;
    var (n, fill) := (args[0].value, Filler(args));
    var k := n - st.org % n;
    FillWrites(st, fill, k, 1, cpu.msbFirst, a);
    FillerByte(fill, cpu.msbFirst);
    PassTheorems.FillGrows(st, fill, k, 1, cpu.msbFirst);
    assert n * (st.org / n + 1) == n * (st.org / n) + n;
  }

  /** What ALIGN fills with. */
  function Filler(args: seq<Arg>): byte {
    if |args| > 1 then Lo(args[1].value) else 0
  }

  lemma FillerByte(fill: byte, msbFirst: bool)
    ensures EntryBytes(fill, 1, msbFirst) == [fill]
  {
  }
}
