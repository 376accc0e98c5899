/** Records of the Hexadecimal Object File Format (Intel, Rev. A, 1988): data records and the end of
    file record, written and read. */
module IntelHex {
  import opened Bytes
  import opened Symbols

  // ---------------------------------------------------------------------------
  // Digits

  const DIGITS: string := "0123456789ABCDEF"

  function HexByte(b: byte): (s: string)
    ensures |s| == 2
  {
    [DIGITS[b / 16], DIGITS[b % 16]]
  }

  function DigitValue(c: char): Option<nat> {
    if '0' <= c <= '9' then Some(c as nat - '0' as nat)
    else if 'A' <= c <= 'F' then Some(c as nat - 'A' as nat + 10)
    else None
  }

  function ReadByte(s: string): (r: Option<byte>)
    requires |s| >= 2
  {
    match (DigitValue(s[0]), DigitValue(s[1]))
    case (Some(h), Some(l)) => if h < 16 && l < 16 then Some(16 * h + l) else None
    case _ => None
  }

  lemma DigitReads(d: int)
    requires 0 <= d < 16
    ensures DigitValue(DIGITS[d]) == Some(d)
  {
  }

  function HexBytes(bs: seq<byte>): (s: string)
    ensures |s| == 2 * |bs|
  {
    if bs == [] then "" else HexByte(bs[0]) + HexBytes(bs[1..])
  }

  /** The next n bytes of a text. */
  function ReadBytes(s: string, n: nat): (r: Option<seq<byte>>)
    requires |s| >= 2 * n
    ensures r.Some? ==> |r.value| == n
    decreases n
  {
    if n == 0 then Some([])
    else
      match (ReadByte(s), ReadBytes(s[2..], n - 1))
      case (Some(b), Some(bs)) => Some([b] + bs)
      case _ => None
  }

  lemma {:induction false} BytesRead(bs: seq<byte>, rest: string)
    ensures ReadBytes(HexBytes(bs) + rest, |bs|) == Some(bs)
  {
    hide HexByte, ReadByte;
    if bs != [] {
      Assoc(HexByte(bs[0]), HexBytes(bs[1..]), rest);
      ByteThen(bs[0], HexBytes(bs[1..]) + rest);
      BytesRead(bs[1..], rest);
      assert [bs[0]] + bs[1..] == bs;
    }
  }

  lemma ByteThen(b: byte, rest: string)
    ensures ReadByte(HexByte(b) + rest) == Some(b) && (HexByte(b) + rest)[2..] == rest
  {
    hide DigitValue;
    DigitReads(b / 16);
    DigitReads(b % 16);
  }

  // ---------------------------------------------------------------------------
  // Records

  datatype Record = Record(kind: byte, addr: nat, data: seq<byte>)

  const DATA: byte := 0
  const END: byte := 1

  function Sum(bs: seq<byte>): int {
    if bs == [] then 0 else bs[0] as int + Sum(bs[1..])
  }

  predicate RecordOk(r: Record) {
    r.addr < 0x10000 && |r.data| < 0x100
  }

  /** Length, address, kind and data. */
  function Fields(r: Record): seq<byte>
    requires RecordOk(r)
  {
    [|r.data|, Hi(r.addr), Lo(r.addr), r.kind] + r.data
  }

  /** The last byte of a record makes its bytes add up to zero. */
  function CheckSum(bs: seq<byte>): byte {
    (-Sum(bs)) % 256
  }

  const NEWLINE: string := ['\r', '\n']

  function RecordText(r: Record): string
    requires RecordOk(r)
  {
    ":" + HexBytes(Fields(r) + [CheckSum(Fields(r))]) + NEWLINE
  }

  function RecordsText(rs: seq<Record>): string
    requires forall i :: 0 <= i < |rs| ==> RecordOk(rs[i])
  {
    if rs == [] then "" else RecordText(rs[0]) + RecordsText(rs[1..])
  }

  /** A record and the text after it. */
  function ParseRecord(s: string): (r: Option<(Record, string)>)
    ensures r.Some? ==> |r.value.1| < |s|
  {
    if |s| < 3 || s[0] != ':' || ReadByte(s[1..]).None? then None
    else
      var n := ReadByte(s[1..]).value + 5;
      if |s| < 1 + 2 * n + 2 || ReadBytes(s[1..], n).None? then None
      else
        var bs := ReadBytes(s[1..], n).value;
        if Sum(bs) % 256 != 0 || s[1 + 2 * n..3 + 2 * n] != NEWLINE then None
        else Some((Record(bs[3], 256 * bs[1] as nat + bs[2] as nat, bs[4..n - 1]), s[3 + 2 * n..]))
  }

  /** The data records of a file, up to its end of file record. */
  function ParseFile(s: string): Option<seq<Record>>
    decreases |s|
  {
    match ParseRecord(s)
    case None => None
    case Some((r, rest)) =>
      if r.kind == END then Some([])
      else if r.kind != DATA then None
      else
        match ParseFile(rest)
        case None => None
        case Some(rs) => Some([r] + rs)
  }

  lemma {:induction false} SumAppend(bs: seq<byte>, b: byte)
    ensures Sum(bs + [b]) == Sum(bs) + b as int
  {
    if bs != [] {
      SumAppend(bs[1..], b);
      assert (bs + [b])[1..] == bs[1..] + [b];
    } else {
      assert (bs + [b])[1..] == [];
    }
  }

  /** The bytes of every record add up to zero modulo 256. */
  lemma RecordSums(r: Record)
    requires RecordOk(r)
    ensures Sum(Fields(r) + [CheckSum(Fields(r))]) % 256 == 0
  {
    SumAppend(Fields(r), CheckSum(Fields(r)));
  }

  /** A record is read back as it was. */
  lemma RecordReads(r: Record, rest: string)
    requires RecordOk(r)
    ensures ParseRecord(RecordText(r) + rest) == Some((r, rest))
  {
    hide HexBytes, ReadBytes, ReadByte, CheckSum, Sum;
    var bs := Fields(r) + [CheckSum(Fields(r))];
    var s := RecordText(r) + rest;
    var n := |bs|;
    assert s[1..] == HexBytes(bs) + (NEWLINE + rest);
    BytesRead(bs, NEWLINE + rest);
    FirstByte(bs, NEWLINE + rest);
    RecordSums(r);
    assert s[1 + 2 * n..3 + 2 * n] == NEWLINE;
    assert s[3 + 2 * n..] == rest;
    assert bs[4..n - 1] == r.data;
    assert 256 * Hi(r.addr) as nat + Lo(r.addr) as nat == r.addr;
  }

  lemma FirstByte(bs: seq<byte>, rest: string)
    requires bs != []
    ensures ReadByte(HexBytes(bs) + rest) == Some(bs[0])
  {
    hide HexByte, ReadByte;
    Assoc(HexByte(bs[0]), HexBytes(bs[1..]), rest);
    ByteThen(bs[0], HexBytes(bs[1..]) + rest);
  }

  lemma DataRecordReads(r: Record, rest: string)
    requires RecordOk(r) && r.kind == DATA
    ensures ParseFile(RecordText(r) + rest)
         == match ParseFile(rest) case None => None case Some(more) => Some([r] + more)
  {
    hide RecordText, ParseRecord;
    RecordReads(r, rest);
  }

  /** Data records followed by something are read back followed by what that is. */
  lemma {:induction false} RecordsRead(rs: seq<Record>, rest: string)
    requires forall i :: 0 <= i < |rs| ==> RecordOk(rs[i]) && rs[i].kind == DATA
    ensures ParseFile(RecordsText(rs) + rest)
         == match ParseFile(rest) case None => None case Some(more) => Some(rs + more)
  {
    hide RecordText, ParseFile;
    if rs == [] {
      assert RecordsText(rs) + rest == rest;
      assert ParseFile(rest).Some? ==> [] + ParseFile(rest).value == ParseFile(rest).value;
    } else {
      Assoc(RecordText(rs[0]), RecordsText(rs[1..]), rest);
      DataRecordReads(rs[0], RecordsText(rs[1..]) + rest);
      RecordsRead(rs[1..], rest);
      if ParseFile(rest).Some? {
        Assoc([rs[0]], rs[1..], ParseFile(rest).value);
        assert [rs[0]] + rs[1..] == rs;
      }
    }
  }
}
