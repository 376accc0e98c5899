/** ftobin: from an output file to a raw image (convert and getwlh of src/ftobin.c). */
module FtoBin {
  import opened Bytes
  import opened Symbols
  import opened Files
  import opened OutputImage
  import opened HunkImage

  const BUFFER := 256

  /** getwlh: at the end of the file it returns something, and feof says so. */
  method Getwlh(input: BinaryFile) returns (w: nat)
    modifies input
    ensures input.bytes == old(input.bytes) && w < 0x10000
    ensures old(input.pos) + 2 <= |input.bytes| ==>
              w == ReadWord(input.bytes[old(input.pos)..]) && input.pos == old(input.pos) + 2
                && input.eof == old(input.eof)
    ensures old(input.pos) == |input.bytes| ==> input.eof && input.pos == old(input.pos)
  {
    var lsb := input.Getc();
    var msb := input.Getc();
    w := Wrap(Wrap(lsb) + msb * 256);
  }

  lemma WrapAdd(a: int, b: int)
    ensures Wrap(Wrap(a) + b) == Wrap(a + b)
  {
  }

  /** One buffer from file to file: what was to be written of this much data is still to be written
      of the rest. */
  method CopyBuffer(input: BinaryFile, output: BinaryFile, n: nat, ghost length: nat)
    requires input != output && n <= length && input.pos + length <= |input.bytes|
    modifies input, output
    ensures input.bytes == old(input.bytes) && input.pos == old(input.pos) + n && input.eof == old(input.eof)
    ensures output.pos == old(output.pos) + n
    ensures Overwrite(output.bytes, output.pos, input.bytes[input.pos..old(input.pos) + length])
         == Overwrite(old(output.bytes), old(output.pos), input.bytes[old(input.pos)..old(input.pos) + length])
  {
    hide Overwrite;
    ghost var start := input.pos;
    var buf := input.Read(n);
    OverwriteMore(output.bytes, output.pos, buf, input.bytes[input.pos..start + length]);
    assert buf + input.bytes[input.pos..start + length] == input.bytes[start..start + length];
    output.Write(buf);
  }

  /** Copies bytes from file to file, a buffer at a time, and moves the origin on. */
  method CopyData(input: BinaryFile, output: BinaryFile, length: nat, origin: nat) returns (org: nat)
    requires input != output && input.pos + length <= |input.bytes|
    modifies input, output
    ensures input.bytes == old(input.bytes) && input.pos == old(input.pos) + length && input.eof == old(input.eof)
    ensures output.bytes == Overwrite(old(output.bytes), old(output.pos), input.bytes[old(input.pos)..input.pos])
    ensures output.pos == old(output.pos) + length
    ensures org == Wrap(origin + length)
  {
    hide Overwrite, Wrap;
    var len := length;
    org := Wrap(origin);
    ghost var end := input.pos + length;
    while len >= BUFFER
      invariant 0 <= len <= length && input.bytes == old(input.bytes) && input.eof == old(input.eof)
      invariant input.pos + len == end && output.pos == old(output.pos) + (length - len)
      invariant Overwrite(output.bytes, output.pos, input.bytes[input.pos..end])
             == Overwrite(old(output.bytes), old(output.pos), input.bytes[old(input.pos)..end])
      invariant org == Wrap(origin + (length - len))
    {
      CopyBuffer(input, output, BUFFER, len);
      WrapAdd(origin + (length - len), BUFFER);
      len := len - BUFFER;
      org := Wrap(org + BUFFER);
    }
    if len != 0 {
      CopyBuffer(input, output, len, len);
      WrapAdd(origin + (length - len), len);
      org := Wrap(org + len);
    }
    assert input.bytes[input.pos..end] == [];
    OverwriteNothing(output.bytes, output.pos);
  }

  /** Fills what is missing up to an origin, and goes there. */
  method FillTo(output: BinaryFile, target: nat, maxSeek: nat) returns (reach: nat)
    modifies output
    ensures var m := MoveTo(Image(old(output.bytes), old(output.pos), maxSeek), target);
            Image(output.bytes, output.pos, reach) == m
  {
    hide Overwrite;
    reach := maxSeek;
    var len := target - maxSeek;
    ghost var filled: seq<byte> := [];
    OverwriteNothing(output.bytes, output.pos);
    while len > 0
      invariant reach + len == target && maxSeek <= reach && (len < 0 ==> reach == maxSeek)
      invariant filled == OutputImage.Repeat(FILLER, reach - maxSeek)
      invariant output.bytes == Overwrite(old(output.bytes), old(output.pos), filled)
      invariant output.pos == old(output.pos) + |filled|
      decreases len
    {
      var n := if len >= BUFFER then BUFFER else len;
      var buf := OutputImage.Repeat(FILLER, n);
      OverwriteMore(old(output.bytes), old(output.pos), filled, buf);
      output.Write(buf);
      filled := filled + buf;
      reach := reach + n;
      len := len - n;
    }
    output.Seek(target);
  }

  lemma {:induction false} TextOfBoth(a: seq<Hunk>, b: seq<Hunk>)
    ensures HunksText(a + b) == HunksText(a) + HunksText(b)
  {
    if b == [] {
      assert a + b == a;
    } else {
      hide HunkText;
      assert Front(a + b) == a + Front(b) && Last(a + b) == Last(b);
      TextOfBoth(a, Front(b));
      assert HunksText(a) + (HunksText(Front(b)) + HunkText(Last(b)))
          == HunksText(a) + HunksText(Front(b)) + HunkText(Last(b));
    }
  }

  /** Where the next hunk of a file is. */
  lemma NextHunk(hunks: seq<Hunk>, k: nat)
    requires k < |hunks| && HunkFits(hunks[k])
    ensures var (s, p, h) := (HunksText(hunks), |HunksText(hunks[..k])|, hunks[k]);
            && p + 4 + |h.data| <= |s|
            && ReadWord(s[p..]) == h.org && ReadWord(s[p + 2..]) == |h.data|
            && s[p + 4..p + 4 + |h.data|] == h.data
            && |HunksText(hunks[..k + 1])| == p + 4 + |h.data|
  {
    var (s, p, h) := (HunksText(hunks), |HunksText(hunks[..k])|, hunks[k]);
    assert hunks == hunks[..k + 1] + hunks[k + 1..] && Front(hunks[..k + 1]) == hunks[..k];
    TextOfBoth(hunks[..k + 1], hunks[k + 1..]);
    var t := HunksText(hunks[..k]) + HunkText(h);
    assert s == t + HunksText(hunks[k + 1..]);
    assert s[..|t|] == t;
    assert t[p..] == HunkText(h);
    WordReads(h.org);
    WordReads(|h.data|);
    assert s[p] == HunkText(h)[0] && s[p + 1] == HunkText(h)[1] && s[p + 2] == HunkText(h)[2]
        && s[p + 3] == HunkText(h)[3];
    assert s[p + 4..p + 4 + |h.data|] == t[p..][4..];
  }

  /** The image after one hunk more. */
  lemma ConvertNext(hunks: seq<Hunk>, k: nat)
    requires 0 < k < |hunks| && hunks[0].org >= 0 && Convert(hunks[..k]).Some?
    ensures Convert(hunks[..k + 1])
         == if hunks[k].org < hunks[0].org then None
            else Some(PutHunk(MoveTo(Convert(hunks[..k]).value, hunks[k].org - hunks[0].org), hunks[k], hunks[0].org))
  {
    assert Front(hunks[..k + 1]) == hunks[..k];
  }

  /** The length and the data of one hunk. */
  method TakeHunk(input: BinaryFile, output: BinaryFile, base: nat, origin: nat, maxSeek: nat, ghost h: Hunk)
      returns (high: nat)
    requires input != output && origin == h.org && input.pos + 2 + |h.data| <= |input.bytes|
    requires ReadWord(input.bytes[input.pos..]) == |h.data|
    requires input.bytes[input.pos + 2..input.pos + 2 + |h.data|] == h.data
    modifies input, output
    ensures input.bytes == old(input.bytes) && input.pos == old(input.pos) + 2 + |h.data| && input.eof == old(input.eof)
    ensures Image(output.bytes, output.pos, high)
        == PutHunk(Image(old(output.bytes), old(output.pos), maxSeek), h, base)
  {
    hide Overwrite, ReadWord;
    var len := Getwlh(input);
    var org: int := CopyData(input, output, len, origin);
    high := maxSeek;
    if high < org - base {
      high := org - base;
    }
  }

  /** convert for format 2. If a hunk begins below the first one it stops there: the output is the
      image of the hunks before it. */
  method ConvertHunks(input: BinaryFile, output: BinaryFile, ghost hunks: seq<Hunk>) returns (ok: bool, ghost done: nat)
    requires input != output && hunks != [] && HunksFit(hunks)
    requires input.bytes == HunksText(hunks) && input.pos == 0 && !input.eof
    requires output.bytes == [] && output.pos == 0
    modifies input, output
    ensures 0 < done <= |hunks| && (ok <==> done == |hunks|)
    ensures Convert(hunks[..done]).Some? && output.bytes == Convert(hunks[..done]).value.bytes
    ensures !ok ==> hunks[done].org < hunks[0].org
  {
    hide HunksText, Convert, Overwrite, PutHunk, MoveTo, ReadWord;
    assert HunkFits(hunks[0]) && hunks[..0] == [] && HunksText([]) == [] by { NoText(); }
    NextHunk(hunks, 0);
    var org := Getwlh(input);
    var base: int := org;
    var maxSeek := TakeHunk(input, output, base, org, 0, hunks[0]);
    done := 1;
    FirstHunk(hunks);
    assert hunks[..|hunks|] == hunks;
    while true
      invariant 0 < done <= |hunks| && base == hunks[0].org
      invariant input.bytes == HunksText(hunks) && input.pos == |HunksText(hunks[..done])| && !input.eof
      invariant Convert(hunks[..done]) == Some(Image(output.bytes, output.pos, maxSeek))
      decreases |hunks| - done
    {
      if done < |hunks| {
        assert HunkFits(hunks[done]);
        NextHunk(hunks, done);
        ConvertNext(hunks, done);
      }
      org := Getwlh(input);
      if input.eof {
        return true, done;
      }
      if org < base {
        return false, done;
      }
      maxSeek := FillTo(output, org - base, maxSeek);
      maxSeek := TakeHunk(input, output, base, org, maxSeek, hunks[done]);
      done := done + 1;
    }
  }

  lemma NoText()
    ensures HunksText([]) == []
  {
  }

  lemma FirstHunk(hunks: seq<Hunk>)
    requires hunks != [] && hunks[0].org >= 0
    ensures Convert(hunks[..1]) == Some(PutHunk(Image([], 0, 0), hunks[0], hunks[0].org))
  {
  }

  /** convert for formats 1 and 3: what follows the header, if there is one, is the image. */
  method ConvertRaw(input: BinaryFile, output: BinaryFile, hasOrigin: bool)
    requires input != output && input.pos == 0 && output.bytes == [] && output.pos == 0
    requires hasOrigin ==> |input.bytes| >= 2
    modifies input, output
    ensures input.bytes == old(input.bytes)
    ensures output.bytes == input.bytes[if hasOrigin then 2 else 0..]
  {
    var org := 0;
    if hasOrigin {
      org := Getwlh(input);
    }
    var begin := input.pos;
    input.SeekEnd();
    var len := input.pos - begin;
    input.Seek(begin);
    org := CopyData(input, output, len, org);
    OverwriteEnd([], input.bytes[begin..input.pos]);
  }
}
