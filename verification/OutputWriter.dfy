/** Writing the output file as the source is assembled (generate and closegenerate of src/ops.c). */
module OutputWriter {
  import opened Bytes
  import opened Files
  import opened OutputImage

  datatype Format = FormatDefault | FormatRas | FormatRaw

  /** What has been written of a format 2 file while its last hunk is still growing: that hunk's
      length is not known yet and stands as zero. */
  function OpenText(hunks: seq<Hunk>): seq<byte>
    requires hunks != []
  {
    HunksText(Front(hunks)) + Word(Last(hunks).org) + [0, 0] + Last(hunks).data
  }

  /** The file after this output, before and after closegenerate. */
  function Written(format: Format, trace: seq<Chunk>): seq<byte> {
    if trace == [] then []
    else
      match format
      case FormatDefault => Word(trace[0].addr) + Body(trace)
      case FormatRas => if HunksOf(trace) == [] then [] else OpenText(HunksOf(trace))
      case FormatRaw => Body(trace)
  }

  /** What a file begins with. In format 2 there is room for the first hunk's length. */
  function Header(format: Format, addr: int): seq<byte> {
    match format
    case FormatDefault => Word(addr)
    case FormatRas => Word(addr) + [0, 0]
    case FormatRaw => []
  }

  function Finished(format: Format, trace: seq<Chunk>): seq<byte> {
    if format.FormatRas? then HunksText(HunksOf(trace)) else Written(format, trace)
  }

  lemma HunksSome(trace: seq<Chunk>)
    requires trace != []
    ensures HunksOf(trace) != [] && Last(HunksOf(trace)).End() == EndOf(trace)
  {
  }

  lemma OpenGrows(hunks: seq<Hunk>, data: seq<byte>)
    requires hunks != []
    ensures OpenText(Front(hunks) + [Hunk(Last(hunks).org, Last(hunks).data + data)]) == OpenText(hunks) + data
  {
    hide HunksText, Word;
    assert Front(Front(hunks) + [Hunk(Last(hunks).org, Last(hunks).data + data)]) == Front(hunks);
    var head := HunksText(Front(hunks)) + Word(Last(hunks).org) + [0, 0];
    assert head + (Last(hunks).data + data) == head + Last(hunks).data + data;
  }

  /** One more piece that goes on where output stopped. */
  lemma OpenMore(trace: seq<Chunk>, c: Chunk)
    requires trace != [] && EndOf(trace) == c.addr
    ensures Written(FormatRas, trace + [c]) == Written(FormatRas, trace) + c.bytes
    ensures Front(HunksOf(trace + [c])) == Front(HunksOf(trace))
    ensures Last(HunksOf(trace + [c])) == Hunk(Last(HunksOf(trace)).org, Last(HunksOf(trace)).data + c.bytes)
  {
    HunksSome(trace);
    assert Front(trace + [c]) == trace;
    assert HunksOf(trace + [c]) == AddPiece(HunksOf(trace), Piece(c));
    OpenGrows(HunksOf(trace), c.bytes);
  }

  /** One more piece elsewhere: the hunk so far is closed and a new one is begun. */
  lemma OpenNew(trace: seq<Chunk>, c: Chunk)
    requires trace != [] && EndOf(trace) != c.addr
    ensures Written(FormatRas, trace + [c]) == HunksText(HunksOf(trace)) + Word(c.addr) + [0, 0] + c.bytes
    ensures Front(HunksOf(trace + [c])) == HunksOf(trace) && Last(HunksOf(trace + [c])) == Piece(c)
  {
    HunksSome(trace);
    assert Front(trace + [c]) == trace;
    assert HunksOf(trace + [c]) == HunksOf(trace) + [Piece(c)];
  }

  /** Writing the length of the open hunk where it belongs closes it. */
  lemma Patch(hunks: seq<Hunk>)
    requires hunks != []
    ensures Overwrite(OpenText(hunks), |HunksText(Front(hunks))| + 2, Word(|Last(hunks).data|)) == HunksText(hunks)
  {
    hide Overwrite;
    var front := HunksText(Front(hunks)) + Word(Last(hunks).org);
    assert OpenText(hunks) == front + [0, 0] + Last(hunks).data;
    assert HunksText(hunks) == front + Word(|Last(hunks).data|) + Last(hunks).data;
    OverwriteMiddle(front, [0, 0], Word(|Last(hunks).data|), Last(hunks).data);
  }

  lemma BodyMore(trace: seq<Chunk>, c: Chunk)
    requires trace != [] && EndOf(trace) <= c.addr
    ensures Body(trace + [c]) == Body(trace) + Repeat(c.fill, c.addr - EndOf(trace)) + c.bytes
  {
    assert Front(trace + [c]) == trace;
  }

  lemma WrittenMore(format: Format, trace: seq<Chunk>, c: Chunk)
    requires trace != [] && EndOf(trace) <= c.addr && !format.FormatRas?
    ensures Written(format, trace + [c]) == Written(format, trace) + Repeat(c.fill, c.addr - EndOf(trace)) + c.bytes
  {
    hide Body;
    BodyMore(trace, c);
    assert (trace + [c])[0] == trace[0];
  }

  class Output {
    const format: Format
    const file: BinaryFile             // FI_temp
    var org: int                       // the address after the last output
    var segLen: nat
    var seekBack: nat
    var fisClear: bool
    var orgFill: byte
    var redo: nat
    var csegOrg: int                   // Csegment->org
    var csegUnknown: bool              // SF_UNKNOWN
    var csegBss: bool                  // SF_BSS
    ghost var trace: seq<Chunk>        // what has been written since the pass began

    /** What is in the file, and what the statics mean, while no reason for another pass has come up. */
    ghost predicate Valid()
      reads this, file
    {
      redo == 0 ==>
        && file.bytes == Written(format, trace) && file.pos == |file.bytes|
        && (fisClear <==> trace == [])
        && (trace != [] ==> org == EndOf(trace))
        && (format.FormatRas? ==> HunkOpen())
    }

    /** Where the length of the last hunk belongs, and what it is so far. */
    ghost predicate HunkOpen()
      reads this
    {
      trace != [] ==>
        && HunksOf(trace) != []
        && seekBack == |HunksText(Front(HunksOf(trace)))| + 2
        && segLen == |Last(HunksOf(trace)).data|
    }

    /** The file as it is opened at the start of a pass. */
    constructor (format: Format, orgFill: byte, csegOrg: int)
      ensures Valid() && fresh(file) && this.format == format && trace == [] && redo == 0 && fisClear
      ensures this.orgFill == orgFill && this.csegOrg == csegOrg && csegUnknown && !csegBss
    {
      this.format := format;
      file := new BinaryFile([]);
      org, segLen, seekBack, fisClear := 0, 0, 0, true;
      this.orgFill := orgFill;
      redo := 0;
      this.csegOrg := csegOrg;
      csegUnknown, csegBss := true, false;
      trace := [];
    }

    method PutWord(v: int)
      modifies file
      ensures file.bytes == Overwrite(old(file.bytes), old(file.pos), Word(v)) && file.pos == old(file.pos) + 2
    {
      file.Write([Lo(v)]);
      file.Write([Hi(v)]);
      OverwriteMore(old(file.bytes), old(file.pos), [Lo(v)], [Hi(v)]);
    }

    /** Begins a hunk: its origin, and room for its length. */
    method BeginHunk()
      requires file.pos == |file.bytes|
      modifies this`seekBack, this`segLen, file
      ensures file.bytes == old(file.bytes) + Word(org) + [0, 0] && file.pos == |file.bytes|
      ensures seekBack == |old(file.bytes)| + 2 && segLen == 0
    {
      PutWord(org);
      seekBack := file.pos;
      segLen := 0;
      PutWord(0);
    }

    /** Writes the length of the hunk where room was left for it. */
    method PatchLength()
      requires format.FormatRas? && file.bytes == Written(format, trace) && HunkOpen()
      modifies file
      ensures trace != [] ==> file.bytes == HunksText(HunksOf(trace))
      ensures trace == [] ==> file.bytes == Overwrite([], seekBack, Word(segLen))
    {
      hide Overwrite;
      file.Seek(seekBack);
      PutWord(segLen);
      if trace != [] {
        Patch(HunksOf(trace));
      }
    }

    /** Format 2: output that goes on elsewhere begins a new hunk. */
    method EmitHunk(bytes: seq<byte>)
      requires Valid() && redo == 0 && trace != [] && format.FormatRas?
      modifies this`org, this`seekBack, this`segLen, this`trace, file
      ensures Valid() && trace == old(trace) + [Chunk(csegOrg, bytes, orgFill)]
    {
      hide Overwrite, HunksText, OpenText, HunksOf;
      ghost var c := Chunk(csegOrg, bytes, orgFill);
      assert Written(format, trace) == OpenText(HunksOf(trace)) && Last(trace + [c]) == c;
      if org != csegOrg {
        OpenNew(trace, c);
        org := csegOrg;
        var end := file.pos;
        PatchLength();
        PatchedLength(HunksOf(trace));
        file.Seek(end);
        BeginHunk();
      } else {
        OpenMore(trace, c);
      }
      OverwriteEnd(file.bytes, bytes);
      file.Write(bytes);
      segLen := segLen + |bytes|;
      org := org + |bytes|;
      trace := trace + [c];
      HunksSome(trace);
    }

    /** Formats 1 and 3: a gap is filled; going back is fatal. */
    method EmitRaw(bytes: seq<byte>) returns (ok: bool)
      requires Valid() && redo == 0 && trace != [] && !format.FormatRas?
      modifies this`org, this`trace, file
      ensures ok == (EndOf(old(trace)) <= csegOrg)
      ensures ok ==> Valid() && trace == old(trace) + [Chunk(csegOrg, bytes, orgFill)]
    {
      hide Overwrite, Written;
      if csegOrg < org {
        return false;
      }
      ghost var c := Chunk(csegOrg, bytes, orgFill);
      WrittenMore(format, trace, c);
      FillGap();
      OverwriteEnd(file.bytes, bytes);
      file.Write(bytes);
      org := org + |bytes|;
      assert Last(trace + [c]) == c;
      trace := trace + [c];
      return true;
    }

    /** Fills the file up to the current origin. */
    method FillGap()
      requires org <= csegOrg && file.pos == |file.bytes|
      modifies this`org, file
      ensures org == csegOrg && file.bytes == old(file.bytes) + Repeat(orgFill, org - old(org))
          && file.pos == |file.bytes|
    {
      hide Overwrite;
      assert file.bytes + Repeat(orgFill, 0) == file.bytes;
      while csegOrg != org
        invariant old(org) <= org <= csegOrg
        invariant file.bytes == old(file.bytes) + Repeat(orgFill, org - old(org)) && file.pos == |file.bytes|
        decreases csegOrg - org
      {
        OverwriteEnd(file.bytes, [orgFill]);
        file.Write([orgFill]);
        org := org + 1;
        assert Repeat(orgFill, org - 1 - old(org)) + [orgFill] == Repeat(orgFill, org - old(org));
      }
    }

    /** The first output of a pass: the header of the file. */
    method StartFile()
      requires file.pos == |file.bytes| && file.bytes == []
      modifies this`org, this`seekBack, this`segLen, file
      ensures org == csegOrg && file.pos == |file.bytes|
      ensures file.bytes == Header(format, org)
      ensures format.FormatRas? ==> seekBack == 2 && segLen == 0
    {
      org := csegOrg;
      if format.FormatRas? {
        BeginHunk();
      } else if !format.FormatRaw? {
        PutWord(org);
      }
    }

    method EmitFirst(bytes: seq<byte>)
      requires redo == 0 && trace == [] && !fisClear && file.bytes == [] && file.pos == 0
      modifies this`org, this`seekBack, this`segLen, this`trace, file
      ensures Valid() && trace == [Chunk(csegOrg, bytes, orgFill)]
    {
      hide Overwrite, Body, OpenText, HunksOf, HunksText, Written, Word, EndOf, Header;
      ghost var c := Chunk(csegOrg, bytes, orgFill);
      StartFile();
      FirstPiece(format, c);
      OverwriteEnd(file.bytes, bytes);
      file.Write(bytes);
      if format.FormatRas? {
        segLen := segLen + |bytes|;
      }
      org := org + |bytes|;
      trace := [c];
    }

    /** generate. Nothing is written once another pass is needed, nor in an uninitialised segment. The
        first output at an unknown origin is lost and asks for another pass. Going back is fatal
        (not ok) in formats 1 and 3. Otherwise the file is that of the output so far. */
    method Generate(bytes: seq<byte>) returns (ok: bool)
      requires Valid()
      modifies this`redo, this`fisClear, this`csegOrg, this`org, this`seekBack, this`segLen, this`trace, file
      ensures ok ==> Valid()
      ensures var first := old(redo) == 0 && !csegBss && old(fisClear);
              var reverse := old(redo) == 0 && !csegBss && !old(fisClear) && !format.FormatRas?
                && old(csegOrg) < EndOf(old(trace));
              && (ok <==> !reverse)
              && (ok ==>
                    && redo == (if first && csegUnknown then 1 else old(redo))
                    && (fisClear <==> old(fisClear) && !first)
                    && trace == (if old(redo) != 0 || csegBss || (first && csegUnknown) then old(trace)
                                 else old(trace) + [Chunk(old(csegOrg), bytes, orgFill)])
                    && csegOrg == (if first && csegUnknown then old(csegOrg) else old(csegOrg) + |bytes|))
    {
      hide Overwrite, Body, OpenText, HunksOf, HunksText;
      if redo == 0 {
        if !csegBss {
          if fisClear {
            fisClear := false;
            if csegUnknown {
              redo := redo + 1;
              return true;
            }
            EmitFirst(bytes);
          } else {
            if format.FormatRas? {
              EmitHunk(bytes);
            } else {
              var fits := EmitRaw(bytes);
              if !fits {
                return false;
              }
            }
          }
        }
      }
      csegOrg := csegOrg + |bytes|;
      return true;
    }

    /** closegenerate: the file is finished. If nothing was written, format 2 gets the word that the
        statics say belongs where they say; as they start out, that makes a file of two zeros. */
    method CloseGenerate()
      requires Valid()
      modifies file
      ensures redo == 0 && trace != [] ==> file.bytes == Finished(format, trace)
      ensures redo == 0 && trace == [] ==>
                file.bytes == if format.FormatRas? then Overwrite([], seekBack, Word(segLen)) else []
      ensures redo != 0 ==> file.bytes == old(file.bytes)
    {
      if redo == 0 {
        if format.FormatRas? {
          PatchLength();
          file.SeekEnd();
        }
      }
    }
  }

  lemma PatchedLength(hunks: seq<Hunk>)
    requires hunks != []
    ensures |OpenText(hunks)| == |HunksText(hunks)|
  {
  }

  lemma FirstPiece(format: Format, c: Chunk)
    ensures Written(format, [c]) == Header(format, c.addr) + c.bytes
    ensures HunksOf([c]) == [Piece(c)] && EndOf([c]) == c.addr + |c.bytes|
    ensures HunksText(Front(HunksOf([c]))) == [] && Last(HunksOf([c])) == Piece(c)
  {
    assert Front([c]) == [];
    assert HunksOf([c]) == AddPiece([], Piece(c));
  }

  /** The finished files of all three formats stand for the same memory. A format 2 file whose origins
      and lengths fit can be read back into hunks that put the output's bytes at the output's
      addresses, even where it went back; and if it did not go back, formats 1 and 3 hold the bytes
      from the first address to the last, with the fillers in the gaps. */
  lemma FormatsAgree(trace: seq<Chunk>, a: int)
    requires trace != []
    ensures HunksFit(HunksOf(trace)) ==>
              && ParseHunks(Finished(FormatRas, trace)).Some?
              && ByteAt(ParseHunks(Finished(FormatRas, trace)).value, a) == ByteAt(Pieces(trace), a)
    ensures Finished(FormatDefault, trace) == Word(trace[0].addr) + Finished(FormatRaw, trace)
    ensures Ascending(trace) ==> |Finished(FormatRaw, trace)| == EndOf(trace) - trace[0].addr
    ensures Ascending(trace) && trace[0].addr <= a < EndOf(trace) ==>
              Finished(FormatRaw, trace)[a - trace[0].addr] == ImageByte(trace, a)
  {
    HunksReadBack(HunksOf(trace));
    HunksKeepMemory(trace, a);
    if Ascending(trace) {
      BodyLength(trace);
      if trace[0].addr <= a < EndOf(trace) {
        BodyIsImage(trace, a);
      }
    }
  }

  /** The three formats by example: two bytes at $1234 and one at $1237. */
  lemma FormatsByExample()
    ensures var trace := [Chunk(0x1234, [1, 2], 255), Chunk(0x1237, [3], 255)];
            && Finished(FormatDefault, trace) == [0x34, 0x12, 1, 2, 255, 3]
            && Finished(FormatRas, trace) == [0x34, 0x12, 2, 0, 1, 2, 0x37, 0x12, 1, 0, 3]
            && Finished(FormatRaw, trace) == [1, 2, 255, 3]
  {
    var (c, d) := (Chunk(0x1234, [1, 2], 255), Chunk(0x1237, [3], 255));
    ExampleHunks(c, d);
    ExampleBody(c, d);
    hide HunksOf, Body, HunksText;
    assert [c, d][0] == c;
  }

  lemma ExampleHunks(c: Chunk, d: Chunk)
    requires c == Chunk(0x1234, [1, 2], 255) && d == Chunk(0x1237, [3], 255)
    ensures HunksText(HunksOf([c, d])) == [0x34, 0x12, 2, 0, 1, 2, 0x37, 0x12, 1, 0, 3]
  {
    hide HunkText, AddPiece;
    assert Front([c, d]) == [c] && Front([c]) == [];
    var (h, k) := (Piece(c), Piece(d));
    assert AddPiece([], h) == [h] && AddPiece([h], k) == [h, k] by {
      ExampleApart(h, k);
    }
    assert Last([c]) == c && Last([c, d]) == d;
    assert HunksOf([]) == [] && HunksOf([c]) == [h];
    assert HunksOf([c, d]) == AddPiece(HunksOf([c]), k);
    assert Front([h, k]) == [h] && Front([h]) == [];
    assert HunksText([]) == [] && HunksText([h]) == HunkText(h);
    assert HunksText([h, k]) == HunkText(h) + HunkText(k);
    ExampleText(h, k);
  }

  lemma ExampleApart(h: Hunk, k: Hunk)
    requires h.End() != k.org
    ensures AddPiece([], h) == [h] && AddPiece([h], k) == [h, k]
  {
    assert Last([h]) == h;
  }

  lemma ExampleText(h: Hunk, k: Hunk)
    requires h == Hunk(0x1234, [1, 2]) && k == Hunk(0x1237, [3])
    ensures HunkText(h) + HunkText(k) == [0x34, 0x12, 2, 0, 1, 2, 0x37, 0x12, 1, 0, 3]
  {
  }

  lemma ExampleBody(c: Chunk, d: Chunk)
    requires c == Chunk(0x1234, [1, 2], 255) && d == Chunk(0x1237, [3], 255)
    ensures Body([c, d]) == [1, 2, 255, 3]
  {
    assert Front([c, d]) == [c] && Front([c]) == [];
    assert Body([c]) == [1, 2] && EndOf([c]) == 0x1236;
  }
}
