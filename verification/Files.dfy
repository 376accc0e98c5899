/** Binary files as bytes and a position (stdio). */
module Files {
  import opened Bytes

  function Zeros(n: nat): (r: seq<byte>)
    ensures |r| == n
  {
    seq(n, _ => 0)
  }

  /** The file after writing data at a position. A hole in front of it reads as zeros. */
  function Overwrite(f: seq<byte>, pos: nat, data: seq<byte>): (r: seq<byte>)
    ensures data != [] ==> |r| == if |f| < pos + |data| then pos + |data| else |f|
    ensures forall i :: 0 <= i < |r| ==>
      r[i] == if pos <= i < pos + |data| then data[i - pos] else if i < |f| then f[i] else 0
  {
    if data == [] then f
    else
      var padded := if |f| < pos then f + Zeros(pos - |f|) else f;
      padded[..pos] + data + (if pos + |data| < |padded| then padded[pos + |data|..] else [])
  }

  /** Writing goes on where it stopped. */
  lemma OverwriteMore(f: seq<byte>, pos: nat, a: seq<byte>, b: seq<byte>)
    ensures Overwrite(Overwrite(f, pos, a), pos + |a|, b) == Overwrite(f, pos, a + b)
  {
  }

  lemma OverwriteEnd(f: seq<byte>, data: seq<byte>)
    ensures Overwrite(f, |f|, data) == f + data
  {
  }

  lemma OverwriteNothing(f: seq<byte>, pos: nat)
    ensures Overwrite(f, pos, []) == f
  {
  }

  lemma OverwriteMiddle(a: seq<byte>, b: seq<byte>, b': seq<byte>, c: seq<byte>)
    requires |b| == |b'|
    ensures Overwrite(a + b + c, |a|, b') == a + b' + c
  {
  }

  class BinaryFile {
    var bytes: seq<byte>
    var pos: nat
    var eof: bool

    constructor (bytes: seq<byte>)
      ensures this.bytes == bytes && pos == 0 && !eof
    {
      this.bytes := bytes;
      pos := 0;
      eof := false;
    }

    /** fwrite, and putc for a single byte */
    method Write(data: seq<byte>)
      modifies this
      ensures bytes == Overwrite(old(bytes), old(pos), data) && pos == old(pos) + |data| && eof == old(eof)
    {
      bytes := Overwrite(bytes, pos, data);
      pos := pos + |data|;
    }

    /** fseek from the beginning */
    method Seek(p: nat)
      modifies this
      ensures bytes == old(bytes) && pos == p && !eof
    {
      pos := p;
      eof := false;
    }

    /** fseek to the end */
    method SeekEnd()
      modifies this
      ensures bytes == old(bytes) && pos == |bytes| && !eof
    {
      pos := |bytes|;
      eof := false;
    }

    /** getc: -1 at the end of the file */
    method Getc() returns (c: int)
      modifies this
      ensures bytes == old(bytes)
      ensures if old(pos) < |bytes| then c == bytes[old(pos)] && pos == old(pos) + 1 && eof == old(eof)
              else c == -1 && pos == old(pos) && eof
    {
      if pos < |bytes| {
        c := bytes[pos];
        pos := pos + 1;
      } else {
        c := -1;
        eof := true;
      }
    }

    /** fread of as many bytes as are asked for */
    method Read(n: nat) returns (data: seq<byte>)
      requires pos + n <= |bytes|
      modifies this
      ensures bytes == old(bytes) && pos == old(pos) + n && data == bytes[old(pos)..pos] && eof == old(eof)
    {
      data := bytes[pos..pos + n];
      pos := pos + n;
    }
  }
}
