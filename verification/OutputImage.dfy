/** The three output formats and the memory they stand for (generate and closegenerate of
    src/ops.c). */
module OutputImage {
  import opened Bytes
  import opened Symbols

  // ---------------------------------------------------------------------------
  // Memory

  /** Bytes to be put somewhere: a call of generate without its filler, or a hunk of a format 2 file. */
  datatype Hunk = Hunk(org: int, data: seq<byte>) {
    function End(): int { org + |data| }
  }

  function Last<T>(s: seq<T>): T
    requires s != []
  {
    s[|s| - 1]
  }

  function Front<T>(s: seq<T>): seq<T>
    requires s != []
  {
    s[..|s| - 1]
  }

  /** What is at an address after putting these hunks in order: the byte that was put there last. */
  function ByteAt(hunks: seq<Hunk>, a: int): Option<byte> {
    if hunks == [] then None
    else
      var h := Last(hunks);
      if h.org <= a < h.End() then Some(h.data[a - h.org]) else ByteAt(Front(hunks), a)
  }

  function Piece(c: Chunk): Hunk {
    Hunk(c.addr, c.bytes)
  }

  function Pieces(trace: seq<Chunk>): (r: seq<Hunk>)
    ensures |r| == |trace| && forall i :: 0 <= i < |r| ==> r[i] == Piece(trace[i])
  {
    seq(|trace|, i requires 0 <= i < |trace| => Piece(trace[i]))
  }

  /** The address after the last output. */
  function EndOf(trace: seq<Chunk>): int
    requires trace != []
  {
    Piece(Last(trace)).End()
  }

  // ---------------------------------------------------------------------------
  // Format 2

  /** A new hunk is begun where output does not go on at the address where it stopped. */
  function HunksOf(trace: seq<Chunk>): seq<Hunk> {
    if trace == [] then [] else AddPiece(HunksOf(Front(trace)), Piece(Last(trace)))
  }

  function AddPiece(hunks: seq<Hunk>, p: Hunk): (r: seq<Hunk>)
    ensures r != [] && Last(r).End() == p.End()
  {
    if hunks != [] && Last(hunks).End() == p.org then
      Front(hunks) + [Hunk(Last(hunks).org, Last(hunks).data + p.data)]
    else hunks + [p]
  }

  function Word(v: int): seq<byte> {
    [Lo(v), Hi(v)]
  }

  function HunkText(h: Hunk): seq<byte> {
    Word(h.org) + Word(|h.data|) + h.data
  }

  function HunksText(hunks: seq<Hunk>): seq<byte> {
    if hunks == [] then [] else HunksText(Front(hunks)) + HunkText(Last(hunks))
  }

  function ReadWord(s: seq<byte>): nat
    requires |s| >= 2
  {
    (s[0] as int) + 256 * (s[1] as int)
  }

  /** Reading a format 2 file: hunks of origin, length and data, and nothing else. */
  function ParseHunks(s: seq<byte>): Option<seq<Hunk>> {
    if s == [] then Some([])
    else if |s| < 4 then None
    else
      var n := ReadWord(s[2..]);
      if |s| < 4 + n then None
      else
        match ParseHunks(s[4 + n..])
        case None => None
        case Some(rest) => Some([Hunk(ReadWord(s), s[4..4 + n])] + rest)
  }

  /** Hunks that fit the words of the file. */
  predicate HunkFits(h: Hunk) {
    0 <= h.org < 0x10000 && |h.data| < 0x10000
  }

  ghost predicate HunksFit(hunks: seq<Hunk>) {
    forall i :: 0 <= i < |hunks| ==> HunkFits(hunks[i])
  }

  lemma WordReads(v: int)
    requires 0 <= v < 0x10000
    ensures ReadWord(Word(v)) == v
  {
  }

  lemma ParseFirst(h: Hunk, rest: seq<byte>)
    requires HunkFits(h)
    ensures ParseHunks(HunkText(h) + rest)
         == match ParseHunks(rest) case None => None case Some(hs) => Some([h] + hs)
  {
    var s := HunkText(h) + rest;
    WordReads(h.org);
    WordReads(|h.data|);
    assert ReadWord(s) == h.org && ReadWord(s[2..]) == |h.data|;
    assert s[4..4 + |h.data|] == h.data && s[4 + |h.data|..] == rest;
  }

  lemma {:induction false} ParseMany(hunks: seq<Hunk>, rest: seq<byte>)
    requires HunksFit(hunks)
    ensures ParseHunks(HunksText(hunks) + rest)
         == match ParseHunks(rest) case None => None case Some(hs) => Some(hunks + hs)
  {
    hide ParseHunks, HunkText, HunkFits;
    if hunks == [] {
      assert HunksText(hunks) + rest == rest;
      if ParseHunks(rest).Some? {
        assert hunks + ParseHunks(rest).value == ParseHunks(rest).value;
      }
    } else {
      var h := Last(hunks);
      Assoc(HunksText(Front(hunks)), HunkText(h), rest);
      ParseFirst(h, rest);
      ParseMany(Front(hunks), HunkText(h) + rest);
      if ParseHunks(rest).Some? {
        Assoc(Front(hunks), [h], ParseHunks(rest).value);
        assert Front(hunks) + [h] == hunks;
      }
    }
  }

  lemma {:induction false} ParsedFit(s: seq<byte>)
    requires ParseHunks(s).Some?
    ensures HunksFit(ParseHunks(s).value)
  {
    if s != [] {
      ParsedFit(s[4 + ReadWord(s[2..])..]);
    }
  }

  /** A format 2 file can be read back just if its origins and lengths fit their words. */
  lemma HunksReadBack(hunks: seq<Hunk>)
    ensures ParseHunks(HunksText(hunks)) == Some(hunks) <==> HunksFit(hunks)
  {
    if HunksFit(hunks) {
      ParseMany(hunks, []);
      assert HunksText(hunks) + [] == HunksText(hunks);
      assert hunks + [] == hunks;
    }
    if ParseHunks(HunksText(hunks)) == Some(hunks) {
      ParsedFit(HunksText(hunks));
    }
  }

  /** Joining output that goes on where it stopped changes no memory. */
  lemma AddPieceBytes(hunks: seq<Hunk>, p: Hunk, a: int)
    ensures ByteAt(AddPiece(hunks, p), a) == ByteAt(hunks + [p], a)
  {
    assert Front(hunks + [p]) == hunks;
    if hunks != [] && Last(hunks).End() == p.org {
      var joined := Hunk(Last(hunks).org, Last(hunks).data + p.data);
      assert Front(Front(hunks) + [joined]) == Front(hunks);
    }
  }

  /** The hunks of a format 2 file put the same bytes at the same addresses as the output did, even
      where it went back. */
  lemma {:induction false} HunksKeepMemory(trace: seq<Chunk>, a: int)
    ensures ByteAt(HunksOf(trace), a) == ByteAt(Pieces(trace), a)
  {
    if trace != [] {
      var p := Piece(Last(trace));
      HunksKeepMemory(Front(trace), a);
      assert Front(Pieces(trace)) == Pieces(Front(trace));
      AddPieceBytes(HunksOf(Front(trace)), p, a);
      assert Front(HunksOf(Front(trace)) + [p]) == HunksOf(Front(trace));
    }
  }

  /** No hunk goes on where the one before it ends, unless that was where output started anew. */
  lemma {:induction false} HunksAreMaximal(trace: seq<Chunk>, i: int)
    requires 0 < i < |HunksOf(trace)|
    ensures HunksOf(trace)[i - 1].End() != HunksOf(trace)[i].org
  {
    var hs := HunksOf(Front(trace));
    if i < |hs| {
      HunksAreMaximal(Front(trace), i);
    }
  }

  // ---------------------------------------------------------------------------
  // Formats 1 and 3

  /** Origins never go back. */
  ghost predicate Ascending(trace: seq<Chunk>)
  {
    forall i :: 0 < i < |trace| ==> Piece(trace[i - 1]).End() <= trace[i].addr
  }

  function Repeat(b: byte, n: nat): (r: seq<byte>)
    ensures |r| == n && forall i :: 0 <= i < n ==> r[i] == b
  {
    seq(n, _ => b)
  }

  /** The body of a format 1 or 3 file: gaps are filled when output goes on behind them. */
  function Body(trace: seq<Chunk>): seq<byte> {
    if trace == [] then []
    else if |trace| == 1 then trace[0].bytes
    else
      var c := Last(trace);
      var gap := c.addr - EndOf(Front(trace));
      Body(Front(trace)) + Repeat(c.fill, if gap < 0 then 0 else gap) + c.bytes
  }

  /** The filler in force when an address was passed over. */
  function GapFill(trace: seq<Chunk>, a: int): byte
    requires trace != []
  {
    if |trace| == 1 || EndOf(Front(trace)) <= a then Last(trace).fill else GapFill(Front(trace), a)
  }

  /** What is at an address of the finished image. */
  function ImageByte(trace: seq<Chunk>, a: int): byte
    requires trace != []
  {
    match ByteAt(Pieces(trace), a)
    case Some(b) => b
    case None => GapFill(trace, a)
  }

  lemma AscendingFront(trace: seq<Chunk>)
    requires |trace| > 1 && Ascending(trace)
    ensures Ascending(Front(trace)) && EndOf(Front(trace)) <= Last(trace).addr
    ensures Front(Pieces(trace)) == Pieces(Front(trace)) && Last(Pieces(trace)) == Piece(Last(trace))
  {
    var n := |trace|;
    assert Piece(trace[n - 2]).End() <= trace[n - 1].addr;
  }

  lemma {:induction false} BodyLength(trace: seq<Chunk>)
    requires trace != [] && Ascending(trace)
    ensures |Body(trace)| == EndOf(trace) - trace[0].addr
  {
    if |trace| > 1 {
      AscendingFront(trace);
      BodyLength(Front(trace));
    }
  }

  lemma {:induction false} NothingBeyond(trace: seq<Chunk>, a: int)
    requires Ascending(trace) && (trace != [] ==> EndOf(trace) <= a)
    ensures ByteAt(Pieces(trace), a) == None
  {
    if trace != [] {
      assert Front(Pieces(trace)) == Pieces(Front(trace));
      if |trace| > 1 {
        AscendingFront(trace);
      }
      NothingBeyond(Front(trace), a);
    }
  }

  /** The body is one contiguous image from the first origin to the end of the output: at each
      address the byte that was put there, or else the filler that was in force when that gap was
      crossed. */
  lemma {:induction false} BodyIsImage(trace: seq<Chunk>, a: int)
    requires trace != [] && Ascending(trace) && trace[0].addr <= a < EndOf(trace)
    ensures |Body(trace)| == EndOf(trace) - trace[0].addr
    ensures Body(trace)[a - trace[0].addr] == ImageByte(trace, a)
  {
    BodyLength(trace);
    var c := Last(trace);
    if |trace| == 1 {
      assert Last(Pieces(trace)) == Piece(c);
    } else {
      var front := Front(trace);
      AscendingFront(trace);
      BodyLength(front);
      if a < EndOf(front) {
        BodyIsImage(front, a);
        assert Body(trace)[..|Body(front)|] == Body(front);
      } else if a < c.addr {
        NothingBeyond(front, a);
      }
    }
  }
}
