/** ftohex: from an output file to Intel HEX records (convert, get_word and put_hex of src/ftohex.c). */
module FtoHex {
  import opened Bytes
  import opened Symbols
  import opened Files
  import opened OutputImage
  import opened HunkImage
  import opened IntelHex
  import FtoBin

  const PERLINE := 16

  // ---------------------------------------------------------------------------
  // What is written

  /** Data in records of 16 bytes, the last one perhaps shorter. */
  function Records(data: seq<byte>, org: nat): (rs: seq<Record>)
    requires org < 0x10000
    ensures forall i :: 0 <= i < |rs| ==> RecordOk(rs[i]) && rs[i].kind == DATA
  {
    if data == [] then []
    else
      var n := if |data| > PERLINE then PERLINE else |data|;
      [Record(DATA, org, data[..n])] + Records(data[n..], Wrap(org + n))
  }

  /** All records but the last have 16 bytes, and that has at least one and no more. */
  lemma {:induction false} RecordsFull(data: seq<byte>, org: nat, i: nat)
    requires org < 0x10000 && i < |Records(data, org)|
    ensures var rs := Records(data, org);
            && |rs[i].data| == (if i < |rs| - 1 then 16 else |data| - 16 * i)
            && 1 <= |rs[i].data| <= 16 && rs[i].addr == (org + 16 * i) % 0x10000
    decreases |data|
  {
    var n := if |data| > PERLINE then PERLINE else |data|;
    if i > 0 {
      RecordsFull(data[n..], Wrap(org + n), i - 1);
      assert (Wrap(org + n) + 16 * (i - 1)) % 0x10000 == (org + n + 16 * (i - 1)) % 0x10000;
    } else {
      assert |data| <= PERLINE ==> data[n..] == [];
    }
  }

  const END_RECORD: string := ":00000001FF" + NEWLINE
  const CTRL_Z: string := [26 as char]

  function HexFile(data: seq<byte>, org: nat): string
    requires org < 0x10000
  {
    RecordsText(Records(data, org)) + END_RECORD + CTRL_Z
  }

  function AsHunks(rs: seq<Record>): (hs: seq<Hunk>)
    ensures |hs| == |rs| && forall i :: 0 <= i < |rs| ==> hs[i] == Hunk(rs[i].addr, rs[i].data)
  {
    seq(|rs|, i requires 0 <= i < |rs| => Hunk(rs[i].addr, rs[i].data))
  }

  lemma EndSum()
    ensures CheckSum([0, 0, 0, 1]) == 255
  {
    var bs: seq<byte> := [0, 0, 0, 1];
    assert bs[1..] == [0, 0, 1] && bs[1..][1..] == [0, 1] && bs[1..][1..][1..] == [1] && bs[1..][1..][1..][1..] == [];
    assert Sum([1]) == 1;
    assert Sum([0, 1]) == 1;
    assert Sum([0, 0, 1]) == 1;
  }

  /** The last line is the end of file record. */
  lemma EndText()
    ensures RecordText(Record(END, 0, [])) == END_RECORD
  {
    EndSum();
    FourBytes(0, 0, 0, 1);
    HexMore([0, 0, 0, 1], 255);
    assert Fields(Record(END, 0, [])) == [0, 0, 0, 1];
    assert HexByte(0) == "00" && HexByte(1) == "01" && HexByte(255) == "FF";
    hide CheckSum, HexBytes, HexByte;
    assert "00" + "00" + "00" + "01" + "FF" == "00000001FF";
  }

  lemma {:induction false} HexMore(bs: seq<byte>, b: byte)
    ensures HexBytes(bs + [b]) == HexBytes(bs) + HexByte(b)
  {
    hide HexByte;
    if bs == [] {
      assert bs + [b] == [b] && [b][1..] == [];
    } else {
      HexMore(bs[1..], b);
      assert (bs + [b])[1..] == bs[1..] + [b];
      Assoc(HexByte(bs[0]), HexBytes(bs[1..]), HexByte(b));
    }
  }

  lemma FourBytes(a: byte, b: byte, c: byte, d: byte)
    ensures HexBytes([a, b, c, d]) == HexByte(a) + HexByte(b) + HexByte(c) + HexByte(d)
    ensures Sum([a, b, c, d]) == a as int + b as int + c as int + d as int
  {
    hide HexByte;
    assert HexBytes([]) == "" && Sum([]) == 0;
    assert [] + [a] == [a] && [a] + [b] == [a, b] && [a, b] + [c] == [a, b, c] && [a, b, c] + [d] == [a, b, c, d];
    HexMore([], a);
    HexMore([a], b);
    HexMore([a, b], c);
    HexMore([a, b, c], d);
    SumAppend([], a);
    SumAppend([a], b);
    SumAppend([a, b], c);
    SumAppend([a, b, c], d);
  }

  lemma EndReads(rest: string)
    ensures ParseFile(END_RECORD + rest) == Some([])
  {
    EndText();
    hide RecordText, ParseRecord;
    RecordReads(Record(END, 0, []), rest);
  }

  /** The records of a file lie one behind the other. */
  lemma {:induction false} RecordsHold(data: seq<byte>, org: nat, a: int)
    requires org + |data| <= 0x10000 && org < 0x10000
    ensures ByteAt(AsHunks(Records(data, org)), a) == if org <= a < org + |data| then Some(data[a - org]) else None
    decreases |data|
  {
    hide ByteAt, Wrap;
    if data == [] {
      NothingAt(a);
    } else {
      var n := if |data| > PERLINE then PERLINE else |data|;
      WrapSmall(org + n);
      var (h, rest) := (Hunk(org, data[..n]), Records(data[n..], Wrap(org + n)));
      NothingAt(a);
      assert AsHunks(Records(data, org)) == [h] + AsHunks(rest);
      ByteAtFirst(h, AsHunks(rest), a);
      if n < |data| {
        RecordsHold(data[n..], org + n, a);
      }
    }
  }

  lemma NothingAt(a: int)
    ensures ByteAt([], a) == None
  {
  }

  lemma {:induction false} ByteAtFirst(h: Hunk, hs: seq<Hunk>, a: int)
    ensures ByteAt([h] + hs, a)
         == if ByteAt(hs, a).Some? then ByteAt(hs, a)
            else if h.org <= a < h.End() then Some(h.data[a - h.org]) else None
  {
    if hs == [] {
      assert [h] + hs == [h] && Front([h]) == [];
    } else {
      ByteAtFirst(h, Front(hs), a);
      assert Front([h] + hs) == [h] + Front(hs);
    }
  }

  /** Reading the file gives the data back, at consecutive addresses from the origin on. */
  lemma HexReadsBack(data: seq<byte>, org: nat, a: int)
    requires org < 0x10000
    ensures ParseFile(HexFile(data, org)) == Some(Records(data, org))
    ensures org + |data| <= 0x10000 ==>
              ByteAt(AsHunks(Records(data, org)), a) == if org <= a < org + |data| then Some(data[a - org]) else None
  {
    hide ParseFile, END_RECORD;
    EndReads(CTRL_Z);
    RecordsRead(Records(data, org), END_RECORD + CTRL_Z);
    assert HexFile(data, org) == RecordsText(Records(data, org)) + (END_RECORD + CTRL_Z);
    assert Records(data, org) + [] == Records(data, org);
    if org + |data| <= 0x10000 {
      RecordsHold(data, org, a);
    }
  }

  // ---------------------------------------------------------------------------
  // Writing it

  class TextFile {
    var text: string

    constructor ()
      ensures text == ""
    {
      text := "";
    }

    method Put(s: string)
      modifies this
      ensures text == old(text) + s
    {
      text := text + s;
    }

    /** put_hex */
    method PutHex(c: byte)
      modifies this
      ensures text == old(text) + HexByte(c)
    {
      text := text + [DIGITS[c / 16]];
      text := text + [DIGITS[c % 16]];
    }
  }

  /** get_word: None where the file ends, which is fatal. */
  method GetWord(input: BinaryFile) returns (w: Option<nat>)
    modifies input
    ensures input.bytes == old(input.bytes)
    ensures old(input.pos) + 2 <= |input.bytes| ==>
              w == Some(ReadWord(input.bytes[old(input.pos)..])) && input.pos == old(input.pos) + 2
    ensures old(input.pos) + 2 > |input.bytes| ==> w == None
  {
    var lsb := input.Getc();
    if lsb == -1 {
      return None;
    }
    var msb := input.Getc();
    if msb == -1 {
      return None;
    }
    w := Some(lsb + 256 * msb);
  }

  /** The data of a record. */
  method PutData(out: TextFile, buf: seq<byte>, ghost head: seq<byte>, sum: byte) returns (chk: byte)
    requires sum == Sum(head) % 256
    modifies out
    ensures old(out.text) + HexBytes(buf) == out.text
    ensures chk == Sum(head + buf) % 256
  {
    hide HexBytes, HexByte, Sum;
    chk := sum;
    var i := 0;
    assert HexBytes([]) == "" by { NoBytes(); }
    assert head + buf[..0] == head;
    while i < |buf|
      invariant 0 <= i <= |buf|
      invariant out.text == old(out.text) + HexBytes(buf[..i])
      invariant chk == Sum(head + buf[..i]) % 256
    {
      assert buf[..i] + [buf[i]] == buf[..i + 1];
      HexMore(buf[..i], buf[i]);
      SumAppend(head + buf[..i], buf[i]);
      assert head + buf[..i] + [buf[i]] == head + buf[..i + 1];
      chk := (chk as int + buf[i] as int) % 256;
      out.PutHex(buf[i]);
      i := i + 1;
    }
    assert buf[..i] == buf;
  }

  lemma NoBytes()
    ensures HexBytes([]) == ""
  {
  }

  /** One record. */
  method PutRecord(out: TextFile, buf: seq<byte>, org: nat)
    requires |buf| <= PERLINE && org < 0x10000
    modifies out
    ensures out.text == old(out.text) + RecordText(Record(DATA, org, buf))
  {
    hide HexBytes, HexByte, Sum, RecordText;
    ghost var head: seq<byte> := [|buf|, Hi(org), Lo(org), DATA];
    FourBytes(|buf|, Hi(org), Lo(org), DATA);
    PutHead(out, |buf|, org);
    var chk := PutData(out, buf, head, (|buf| + org / 256 + org % 256) % 256);
    var negated := Negate(chk, Sum(head + buf));
    out.PutHex(negated);
    out.Put(NEWLINE);
    RecordIs(buf, org, head);
    Glue(old(out.text), HexBytes(head), HexBytes(buf), HexByte(negated));
  }

  lemma Remainder(x: int, q: int, r: int)
    requires x == 256 * q + r && 0 <= r < 256
    ensures x % 256 == r
  {
  }

  /** (unsigned char) -chk */
  method Negate(chk: byte, ghost sum: int) returns (r: byte)
    requires chk == sum % 256
    ensures r == (-sum) % 256
  {
    r := if chk == 0 then 0 else 256 - chk as int;
    ghost var q := sum / 256;
    if chk == 0 {
      Remainder(-sum, -q, r);
    } else {
      Remainder(-sum, -q - 1, r);
    }
  }

  lemma Glue(text: string, a: string, b: string, c: string)
    ensures text + (":" + a) + b + c + NEWLINE == text + (":" + a + b + c + NEWLINE)
  {
  }

  /** The length, address and kind of a record. */
  method PutHead(out: TextFile, idx: byte, org: nat)
    requires org < 0x10000
    modifies out
    ensures out.text == old(out.text) + (":" + HexBytes([idx, Hi(org), Lo(org), DATA]))
  {
    hide HexBytes, HexByte, Sum;
    out.Put(":");
    out.PutHex(idx);
    out.PutHex(org / 256);
    out.PutHex(org % 256);
    out.Put("0");
    out.Put("0");
    FourBytes(idx, Hi(org), Lo(org), DATA);
    assert HexByte(DATA) == "0" + "0" by { ZeroByte(); }
  }

  lemma {:induction false} HexBoth(a: seq<byte>, b: seq<byte>)
    ensures HexBytes(a + b) == HexBytes(a) + HexBytes(b)
  {
    hide HexByte;
    if a == [] {
      assert a + b == b && HexBytes(a) + HexBytes(b) == HexBytes(b);
    } else {
      HexBoth(a[1..], b);
      assert (a + b)[1..] == a[1..] + b;
      Assoc(HexByte(a[0]), HexBytes(a[1..]), HexBytes(b));
    }
  }

  lemma RecordIs(buf: seq<byte>, org: nat, head: seq<byte>)
    requires |buf| <= PERLINE && org < 0x10000 && head == [|buf|, Hi(org), Lo(org), DATA]
    ensures RecordText(Record(DATA, org, buf))
         == ":" + HexBytes(head) + HexBytes(buf) + HexByte((-Sum(head + buf)) % 256) + NEWLINE
  {
    var chk := CheckSum(head + buf);
    HexMore(head + buf, chk);
    HexBoth(head, buf);
    hide HexBytes, HexByte;
    assert Fields(Record(DATA, org, buf)) == head + buf;
    assert ":" + (HexBytes(head) + HexBytes(buf) + HexByte(chk)) == ":" + HexBytes(head) + HexBytes(buf) + HexByte(chk);
  }

  lemma ZeroByte()
    ensures HexByte(DATA) == "0" + "0"
  {
  }

  lemma RecordsNext(data: seq<byte>, org: nat, text: string)
    requires org < 0x10000 && data != []
    ensures var n := if |data| > PERLINE then PERLINE else |data|;
            var r := RecordText(Record(DATA, org, data[..n])) + RecordsText(Records(data[n..], Wrap(org + n)));
            text + RecordsText(Records(data, org)) == text + r
  {
    hide RecordText;
    var n := if |data| > PERLINE then PERLINE else |data|;
    var (r, rs) := (Record(DATA, org, data[..n]), Records(data[n..], Wrap(org + n)));
    assert Records(data, org) == [r] + rs && ([r] + rs)[1..] == rs;
  }

  /** The records of some data, and the origin after it. */
  method PutRecords(input: BinaryFile, out: TextFile, length: nat, origin: nat) returns (org: nat)
    requires input.pos + length <= |input.bytes| && origin < 0x10000
    modifies input, out
    ensures input.bytes == old(input.bytes) && input.pos == old(input.pos) + length
    ensures out.text == old(out.text) + RecordsText(Records(input.bytes[old(input.pos)..input.pos], origin))
    ensures org == Wrap(origin + length)
  {
    hide RecordText, Records, RecordsText, Wrap;
    var len := length;
    org := origin;
    ghost var end := input.pos + length;
    WrapSmall(origin);
    while len > 0
      invariant 0 <= len <= length && input.bytes == old(input.bytes) && input.pos + len == end
      invariant org < 0x10000 && org == Wrap(origin + (length - len))
      invariant out.text + RecordsText(Records(input.bytes[input.pos..end], org))
             == old(out.text) + RecordsText(Records(input.bytes[old(input.pos)..end], origin))
    {
      ghost var data := input.bytes[input.pos..end];
      RecordsNext(data, org, out.text);
      ghost var before := out.text;
      var idx := if len > PERLINE then PERLINE else len;
      var buf := input.Read(idx);
      assert data[..idx] == buf && data[idx..] == input.bytes[input.pos..end];
      PutRecord(out, buf, org);
      FtoBin.WrapAdd(origin + (length - len), idx);
      WrapSmall(org + idx);
      Assoc(before, RecordText(Record(DATA, org, buf)), RecordsText(Records(data[idx..], Wrap(org + idx))));
      len := len - idx;
      org := Wrap(org + idx);
    }
    assert input.bytes[input.pos..end] == [];
    NoRecords(org);
  }

  lemma NoRecords(org: nat)
    requires org < 0x10000
    ensures RecordsText(Records([], org)) == ""
  {
  }

  lemma WrapSmall(v: int)
    ensures Wrap(v) < 0x10000 && (0 <= v < 0x10000 ==> Wrap(v) == v)
  {
  }

  /** The data of a format 1 or 3 file, and its origin. */
  function DataOf(bytes: seq<byte>, hasOrigin: bool): seq<byte>
    requires hasOrigin ==> |bytes| >= 2
  {
    if hasOrigin then bytes[2..] else bytes
  }

  function OriginOf(bytes: seq<byte>, hasOrigin: bool): (org: nat)
    requires hasOrigin ==> |bytes| >= 2
    ensures org < 0x10000
  {
    if hasOrigin then ReadWord(bytes) else 0
  }

  /** The HEX file that is made of it. */
  function HexOf(bytes: seq<byte>, hasOrigin: bool): string
    requires hasOrigin ==> |bytes| >= 2
  {
    var data := DataOf(bytes, hasOrigin);
    HexFile(data[..|data| % 0x10000], OriginOf(bytes, hasOrigin))
  }

  /** A file by example: one byte at $1234. */
  lemma HexExample()
    ensures HexOf([0x34, 0x12, 0xAB], true) == ":01123400AB0E\r\n:00000001FF\r\n" + [26 as char]
  {
    hide RecordText;
    var bytes: seq<byte> := [0x34, 0x12, 0xAB];
    var data: seq<byte> := [0xAB];
    assert bytes[2..] == data && data[..1] == data && data[1..] == [];
    assert Records(data[1..], Wrap(0x1234 + 1)) == [];
    var r := Record(DATA, 0x1234, data);
    assert Records(data, 0x1234) == [r] && [r][1..] == [];
    ExampleText(r);
    OneRecord(r);
  }

  lemma OneRecord(r: Record)
    requires RecordOk(r)
    ensures RecordsText([r]) == RecordText(r)
  {
    assert [r][1..] == [] && RecordsText([]) == "";
  }

  lemma ExampleText(r: Record)
    requires r == Record(DATA, 0x1234, [0xAB])
    ensures RecordText(r) == ":01123400AB0E\r\n"
  {
    var f: seq<byte> := [0x01, 0x12, 0x34, 0x00, 0xAB];
    assert Fields(r) == f;
    ExampleSum(f);
    ExampleDigits();
    hide HexBytes, CheckSum, Fields;
    assert f + [0x0E] == [0x01, 0x12, 0x34, 0x00, 0xAB, 0x0E];
    assert ":" + "01123400AB0E" + NEWLINE == ":01123400AB0E\r\n";
  }

  lemma ExampleDigits()
    ensures HexBytes([0x01, 0x12, 0x34, 0x00, 0xAB, 0x0E]) == "01123400AB0E"
  {
    assert HexBytes([]) == "";
    HexNext([0x0E], "", "0E");
    HexNext([0xAB, 0x0E], "0E", "AB0E");
    HexNext([0x00, 0xAB, 0x0E], "AB0E", "00AB0E");
    HexNext([0x34, 0x00, 0xAB, 0x0E], "00AB0E", "3400AB0E");
    HexNext([0x12, 0x34, 0x00, 0xAB, 0x0E], "3400AB0E", "123400AB0E");
    HexNext([0x01, 0x12, 0x34, 0x00, 0xAB, 0x0E], "123400AB0E", "01123400AB0E");
  }

  lemma ExampleSum(f: seq<byte>)
    requires f == [0x01, 0x12, 0x34, 0x00, 0xAB]
    ensures CheckSum(f) == 0x0E
  {
    assert f[1..] == [0x12, 0x34, 0x00, 0xAB] && [0x12, 0x34, 0x00, 0xAB][1..] == [0x34, 0x00, 0xAB];
    assert [0x34, 0x00, 0xAB][1..] == [0x00, 0xAB] && [0x00, 0xAB][1..] == [0xAB] && [0xAB][1..] == [];
    assert Sum([0xAB]) == 0xAB && Sum([0x34, 0x00, 0xAB]) == 0xDF;
    assert Sum(f) == 0xF2;
  }

  lemma HexNext(bs: seq<byte>, rest: string, text: string)
    requires bs != [] && HexBytes(bs[1..]) == rest
    requires text == ["0123456789ABCDEF"[bs[0] / 16], "0123456789ABCDEF"[bs[0] % 16]] + rest
    ensures HexBytes(bs) == text
  {
  }

  lemma HexOfParts(bytes: seq<byte>, hasOrigin: bool, begin: nat, len: nat, org: nat)
    requires begin == (if hasOrigin then 2 else 0) && begin <= |bytes| && len == (|bytes| - begin) % 0x10000
    requires org == if hasOrigin then ReadWord(bytes) else 0
    ensures begin + len <= |bytes| && org < 0x10000
    ensures HexOf(bytes, hasOrigin) == "" + RecordsText(Records(bytes[begin..begin + len], org)) + END_RECORD + CTRL_Z
  {
    hide RecordsText, Records, END_RECORD, CTRL_Z;
    var data := DataOf(bytes, hasOrigin);
    assert data[..len] == bytes[begin..begin + len];
    assert "" + RecordsText(Records(data[..len], org)) == RecordsText(Records(data[..len], org));
  }

  /** convert and main for formats 1 and 3. The length is a 16-bit word: of a longer file only what is
      left over of 64K is converted. Without an origin, where there should be one, it gives up. */
  method ConvertFile(input: BinaryFile, out: TextFile, hasOrigin: bool) returns (ok: bool)
    requires input.pos == 0 && out.text == ""
    modifies input, out
    ensures input.bytes == old(input.bytes)
    ensures ok <==> !hasOrigin || |input.bytes| >= 2
    ensures ok ==> out.text == HexOf(input.bytes, hasOrigin)
  {
    var org := 0;
    assert input.bytes[0..] == input.bytes;
    if hasOrigin {
      var w := GetWord(input);
      if w.None? {
        return false;
      }
      org := w.value;
    }
    var begin := input.pos;
    input.SeekEnd();
    var len := (input.pos - begin) % 0x10000;
    input.Seek(begin);
    hide Records, RecordsText, END_RECORD, CTRL_Z, HexOf;
    HexOfParts(input.bytes, hasOrigin, begin, len, org);
    org := PutRecords(input, out, len, org);
    out.Put(END_RECORD);
    out.Put(CTRL_Z);
    ok := true;
  }

  // ---------------------------------------------------------------------------
  // How much of the file that is

  /** How much data some records hold. */
  function TotalData(rs: seq<Record>): nat {
    if rs == [] then 0 else |rs[0].data| + TotalData(rs[1..])
  }

  lemma {:induction false} RecordsTotal(data: seq<byte>, org: nat)
    requires org < 0x10000
    ensures TotalData(Records(data, org)) == |data|
    decreases |data|
  {
    if data != [] {
      var n := if |data| > PERLINE then PERLINE else |data|;
      var rest := Records(data[n..], Wrap(org + n));
      RecordsTotal(data[n..], Wrap(org + n));
      assert Records(data, org)[1..] == rest;
    }
  }

  /** The HEX file can always be read, but it gives back the whole file just if its data is shorter than
      64K. Otherwise it has the first bytes, as many as are left over of 64K; and these, if they end by
      64K, are at consecutive addresses from the origin on, and nothing is anywhere else. */
  lemma HexOfReadsBackExactly(bytes: seq<byte>, hasOrigin: bool, a: int)
    requires hasOrigin ==> |bytes| >= 2
    ensures var (data, org) := (DataOf(bytes, hasOrigin), OriginOf(bytes, hasOrigin));
            var parsed := ParseFile(HexOf(bytes, hasOrigin));
            var rest := |data| % 0x10000;
            && parsed.Some? && TotalData(parsed.value) == rest
            && (parsed == Some(Records(data, org)) <==> |data| < 0x10000)
            && (org + rest <= 0x10000 ==>
                  ByteAt(AsHunks(parsed.value), a) == if org <= a < org + rest then Some(data[a - org]) else None)
  {
    hide ParseFile, HexFile, Records, ByteAt;
    var (data, org) := (DataOf(bytes, hasOrigin), OriginOf(bytes, hasOrigin));
    var part := data[..|data| % 0x10000];
    HexReadsBack(part, org, a);
    RecordsTotal(part, org);
    RecordsTotal(data, org);
    if |data| < 0x10000 {
      assert part == data;
    }
  }

  /** Of a file of exactly 64K nothing is converted. */
  lemma WholeFileLost(bytes: seq<byte>)
    requires |bytes| == 0x10000
    ensures ParseFile(HexOf(bytes, false)) == Some([])
  {
    hide ParseFile, HexFile;
    assert bytes[..0] == [];
    HexReadsBack([], 0, 0);
  }

  // ---------------------------------------------------------------------------
  // Format 2

  /** The records of the hunks of a format 2 file. */
  function HunkRecords(hunks: seq<Hunk>): (rs: seq<Record>)
    requires forall i :: 0 <= i < |hunks| ==> HunkFits(hunks[i])
    ensures forall i :: 0 <= i < |rs| ==> RecordOk(rs[i]) && rs[i].kind == DATA
  {
    if hunks == [] then []
    else
      assert HunkFits(hunks[|hunks| - 1]);
      HunkRecords(Front(hunks)) + Records(Last(hunks).data, Last(hunks).org)
  }

  lemma {:induction false} TextOfRecords(a: seq<Record>, b: seq<Record>)
    requires forall i :: 0 <= i < |a| ==> RecordOk(a[i])
    requires forall i :: 0 <= i < |b| ==> RecordOk(b[i])
    ensures RecordsText(a + b) == RecordsText(a) + RecordsText(b)
  {
    hide RecordText;
    if a == [] {
      assert a + b == b && RecordsText(a) + RecordsText(b) == RecordsText(b);
    } else {
      TextOfRecords(a[1..], b);
      assert (a + b)[1..] == a[1..] + b;
      Assoc(RecordText(a[0]), RecordsText(a[1..]), RecordsText(b));
    }
  }

  lemma HunkRecordsNext(hunks: seq<Hunk>, k: nat)
    requires k < |hunks| && forall i :: 0 <= i < |hunks| ==> HunkFits(hunks[i])
    ensures RecordsText(HunkRecords(hunks[..k + 1]))
         == RecordsText(HunkRecords(hunks[..k])) + RecordsText(Records(hunks[k].data, hunks[k].org))
  {
    hide RecordsText, Records;
    assert Front(hunks[..k + 1]) == hunks[..k];
    TextOfRecords(HunkRecords(hunks[..k]), Records(hunks[k].data, hunks[k].org));
  }

  /** convert for format 2. The only way out of its loop is the end of the input, but there get_word
      gives up: the records of all hunks have been written, their end record has not. */
  method ConvertHunks(input: BinaryFile, out: TextFile, ghost hunks: seq<Hunk>) returns (ok: bool)
    requires HunksFit(hunks) && input.bytes == HunksText(hunks) && input.pos == 0 && out.text == ""
    modifies input, out
    ensures !ok && out.text == RecordsText(HunkRecords(hunks))
  {
    hide HunksText, RecordsText, HunkRecords, Records, ReadWord;
    ghost var done := 0;
    assert hunks[..0] == [] && hunks[..|hunks|] == hunks;
    NoHunks();
    while true
      invariant 0 <= done <= |hunks| && input.bytes == HunksText(hunks) && input.pos == |HunksText(hunks[..done])|
      invariant out.text == RecordsText(HunkRecords(hunks[..done]))
      decreases |hunks| - done
    {
      if done < |hunks| {
        FtoBin.NextHunk(hunks, done);
        HunkRecordsNext(hunks, done);
      }
      var org := GetWord(input);
      if org.None? {
        return false;
      }
      var len := GetWord(input);
      if len.None? {
        return false;
      }
      var end := PutRecords(input, out, len.value, org.value);
      done := done + 1;
    }
  }

  lemma NoHunks()
    ensures HunksText([]) == [] && RecordsText(HunkRecords([])) == ""
  {
  }

  /** So its output never is a complete file: exactly the end record is missing. */
  lemma HunksNeverEnd(hunks: seq<Hunk>)
    requires HunksFit(hunks)
    ensures ParseFile(RecordsText(HunkRecords(hunks))) == None
    ensures ParseFile(RecordsText(HunkRecords(hunks)) + ":00000001FF\r\n") == Some(HunkRecords(hunks))
  {
    hide HunkRecords, ParseFile;
    RecordsRead(HunkRecords(hunks), "");
    NoFile();
    assert RecordsText(HunkRecords(hunks)) + "" == RecordsText(HunkRecords(hunks));
    EndReads("");
    RecordsRead(HunkRecords(hunks), END_RECORD);
    assert END_RECORD + "" == END_RECORD == ":00000001FF\r\n" && HunkRecords(hunks) + [] == HunkRecords(hunks);
  }

  lemma NoFile()
    ensures ParseFile("") == None
  {
  }

  lemma {:induction false} ByteAtBoth(x: seq<Hunk>, y: seq<Hunk>, a: int)
    ensures ByteAt(x + y, a) == if ByteAt(y, a).Some? then ByteAt(y, a) else ByteAt(x, a)
  {
    if y == [] {
      assert x + y == x;
    } else {
      ByteAtBoth(x, Front(y), a);
      assert Front(x + y) == x + Front(y) && Last(x + y) == Last(y);
    }
  }

  /** The records of hunks that end by 64K put the bytes where the hunks do. */
  lemma {:induction false} HunkRecordsHold(hunks: seq<Hunk>, a: int)
    requires HunksFit(hunks) && forall i :: 0 <= i < |hunks| ==> hunks[i].End() <= 0x10000
    ensures ByteAt(AsHunks(HunkRecords(hunks)), a) == ByteAt(hunks, a)
    decreases |hunks|
  {
    hide Records;
    if hunks == [] {
      assert AsHunks(HunkRecords(hunks)) == [];
    } else {
      var (front, h) := (Front(hunks), Last(hunks));
      assert hunks[|hunks| - 1] == h && forall i :: 0 <= i < |front| ==> front[i] == hunks[i];
      HunkRecordsHold(front, a);
      RecordsHold(h.data, h.org, a);
      ByteAtBoth(AsHunks(HunkRecords(front)), AsHunks(Records(h.data, h.org)), a);
      assert AsHunks(HunkRecords(hunks)) == AsHunks(HunkRecords(front)) + AsHunks(Records(h.data, h.org));
    }
  }
}
