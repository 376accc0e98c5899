/** Bytes, and the chunks of output an assembly produces. */
module Bytes {

  type byte = x: int | 0 <= x < 256

  /** The low byte of a value, and the byte above it. */
  function Lo(v: int): byte { v % 256 }
  function Hi(v: int): byte { (v / 256) % 256 }

  /** One call of generate that writes: the bytes, the address of the first one, and the value of
      OrgFill at that time. */
  datatype Chunk = Chunk(addr: int, bytes: seq<byte>, fill: byte)

  /** The bytes of one entry of DC or DS: 1, 2 or 4 bytes in the processor's order. */
  function EntryBytes(v: int, size: nat, msbFirst: bool): (r: seq<byte>)
    ensures |r| == if size == 2 || size == 4 then size else 1
  {
    if size == 2 then
      if msbFirst then [Hi(v), Lo(v)] else [Lo(v), Hi(v)]
    else if size == 4 then
      var w := v / 65536;
      if msbFirst then [Hi(w), Lo(w), Hi(v), Lo(v)] else [Lo(v), Hi(v), Lo(w), Hi(w)]
    else [Lo(v)]
  }

  lemma Assoc<T>(a: seq<T>, b: seq<T>, c: seq<T>)
    ensures (a + b) + c == a + (b + c)
  {
  }
}
