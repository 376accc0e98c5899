/** The arena allocator (small_alloc and small_free_all of src/dalloc.c). Addresses are numbers; what
    malloc returns is given. */
module Arena {
  import opened Bytes

  const ALLOCSIZE := 16384
  const ALIGNMENT := 8            // sizeof(union align)
  const HEADER := 8               // ROUNDUP(sizeof(block->next))

  /** ROUNDUP */
  function RoundUp(n: nat): (r: nat)
    ensures n <= r < n + ALIGNMENT && r % ALIGNMENT == 0
  {
    (n + ALIGNMENT - 1) / ALIGNMENT * ALIGNMENT
  }

  /** The macro does it with a mask. */
  lemma MaskRounds(x: bv32)
    ensures (x + 7) & !7 == (x + 7) / 8 * 8
  {
  }

  datatype Region = Region(addr: nat, size: nat) {
    function End(): nat { addr + size }
  }

  predicate Apart(a: Region, b: Region) {
    a.End() <= b.addr || b.End() <= a.addr
  }

  /** The part of a block that is handed out. */
  function Block(b: nat): Region {
    Region(b, ALLOCSIZE)
  }

  predicate InBlock(r: Region, b: nat) {
    b + HEADER <= r.addr && r.End() <= b + ALLOCSIZE
  }

  ghost predicate Distinct(s: seq<nat>) {
    forall i, j :: 0 <= i < j < |s| ==> s[i] != s[j]
  }

  class Allocator {
    var blocks: seq<nat>                // new_permalloc_stack, its top first
    var buf: nat
    var left: nat
    var mem: nat -> byte                // the bytes of the machine
    ghost var regions: seq<Region>      // what has been handed out since the blocks were

    ghost predicate BlocksApart()
      reads this
    {
      && (forall i :: 0 <= i < |blocks| ==> blocks[i] % ALIGNMENT == 0)
      && (forall i, j :: 0 <= i < j < |blocks| ==> Apart(Block(blocks[i]), Block(blocks[j])))
    }

    /** The current block is handed out up to buf, and zero behind it. */
    ghost predicate CurrentOk()
      reads this
    {
      && (blocks == [] ==> left == 0)
      && (blocks != [] ==>
            buf >= blocks[0] + HEADER && buf + left == blocks[0] + ALLOCSIZE && buf % ALIGNMENT == 0)
      && (forall a :: buf <= a < buf + left ==> mem(a) == 0)
    }

    /** A region lies in one block behind its header, and in the current one before buf. */
    ghost predicate RegionOk(r: Region)
      reads this
    {
      RegionBefore(r, buf)
    }

    ghost predicate RegionBefore(r: Region, end: nat)
      reads this`blocks
    {
      && r.addr % ALIGNMENT == 0 && r.size > 0
      && exists i :: 0 <= i < |blocks| && InBlock(r, blocks[i]) && (i == 0 ==> r.End() <= end)
    }

    ghost predicate RegionsOk()
      reads this
    {
      && (forall i :: 0 <= i < |regions| ==> RegionOk(regions[i]))
      && (forall i, j :: 0 <= i < j < |regions| ==> Apart(regions[i], regions[j]))
    }

    ghost predicate Valid()
      reads this
    {
      BlocksApart() && CurrentOk() && RegionsOk()
    }

    /** All blocks have been given back, but what is left is still that of this one. */
    ghost predicate Dangling(freed: nat)
      reads this
    {
      && blocks == [] && regions == []
      && left > 0 && freed + HEADER <= buf && buf + left == freed + ALLOCSIZE && buf % ALIGNMENT == 0
    }

    constructor (mem: nat -> byte)
      ensures Valid() && blocks == [] && regions == []
    {
      blocks, buf, left, regions := [], 0, 0, [];
      this.mem := mem;
    }

    /** A new block: its address is malloc's choice. */
    method NewBlock(block: nat)
      requires BlocksApart() && RegionsOk() && block % ALIGNMENT == 0
      requires forall i :: 0 <= i < |blocks| ==> Apart(Block(block), Block(blocks[i]))
      modifies this
      ensures Valid() && regions == old(regions)
      ensures blocks == [block] + old(blocks) && left == ALLOCSIZE - HEADER && buf == block + HEADER
      ensures forall a: nat :: mem(a) == if block <= a < block + ALLOCSIZE then 0 else old(mem)(a)
    {
      var was := mem;
      mem := (a: nat) => if block <= a < block + ALLOCSIZE then 0 else was(a);
      blocks := [block] + blocks;
      left := ALLOCSIZE - HEADER;
      buf := block + HEADER;
      forall k | 0 <= k < |regions| ensures RegionOk(regions[k]) {
        assert old(RegionOk(regions[k]));
        var i :| 0 <= i < |old(blocks)| && InBlock(regions[k], old(blocks)[i]);
        assert blocks[i + 1] == old(blocks)[i];
      }
    }

    /** small_alloc. It gives up (not ok) just if even an empty block is too small. What it returns is
        aligned, all zero, in one block behind its header, and apart from everything handed out
        before; nothing else changes. malloc is asked for a block only if the current one has not
        enough left. After everything has been freed it returns a piece of a block that has been given
        back just if the request fits what was left of that, and otherwise works as it should. */
    method SmallAlloc(bytes: nat, block: nat, ghost freed: nat) returns (ok: bool, ptr: nat)
      requires bytes > 0 && (Valid() || Dangling(freed))
      requires RoundUp(bytes) > left ==>
                 block % ALIGNMENT == 0 && forall i :: 0 <= i < |blocks| ==> Apart(Block(block), Block(blocks[i]))
      modifies this
      ensures ok <==> RoundUp(bytes) <= ALLOCSIZE - HEADER
      ensures ok ==> blocks == (if RoundUp(bytes) > old(left) then [block] else []) + old(blocks)
      ensures ok ==>
                forall a: nat :: old(mem)(a) != mem(a) ==> RoundUp(bytes) > old(left) && block <= a < block + ALLOCSIZE
      ensures ok && (old(Valid()) || RoundUp(bytes) > old(left)) ==>
                && Valid() && regions == old(regions) + [Region(ptr, RoundUp(bytes))]
                && forall a :: ptr <= a < ptr + bytes ==> mem(a) == 0
      ensures ok && RoundUp(bytes) > old(left) ==> InBlock(Region(ptr, RoundUp(bytes)), block)
      ensures ok && !old(Valid()) && RoundUp(bytes) <= old(left) ==>
                InBlock(Region(ptr, RoundUp(bytes)), freed) && (Dangling(freed) || left == 0)
    {
      var size := RoundUp(bytes);
      LeftFits(freed);
      if size > left {
        if size > ALLOCSIZE - HEADER {
          return false, 0;
        }
        NewBlock(block);
      }
      ptr := Carve(size, freed);
      ok := true;
    }

    /** What is left of a block is no more than an empty block has. */
    lemma LeftFits(freed: nat)
      requires CurrentOk() || Dangling(freed)
      ensures left <= ALLOCSIZE - HEADER
    {
    }

    /** Takes a region from the current block. */
    method Carve(size: nat, ghost freed: nat) returns (ptr: nat)
      requires (Valid() || Dangling(freed)) && 0 < size <= left && size % ALIGNMENT == 0
      modifies this`buf, this`left, this`regions
      ensures ptr == old(buf) && left == old(left) - size
      ensures old(Valid()) ==>
                && Valid() && regions == old(regions) + [Region(ptr, size)]
                && InBlock(Region(ptr, size), blocks[0]) && forall a :: ptr <= a < ptr + size ==> mem(a) == 0
      ensures !old(Valid()) ==> InBlock(Region(ptr, size), freed) && (Dangling(freed) || left == 0)
    {
      ghost var valid := Valid();
      ptr := buf;
      buf := buf + size;
      left := left - size;
      if valid {
        HandOut(Region(ptr, size));
      }
    }

    /** The region in front of buf has just been handed out. */
    ghost method HandOut(r: Region)
      requires BlocksApart() && CurrentOk() && blocks != [] && r.size > 0 && r.addr % ALIGNMENT == 0
      requires blocks[0] + HEADER <= r.addr && r.End() == buf
      requires forall k :: 0 <= k < |regions| ==> RegionBefore(regions[k], r.addr)
      requires forall i, j :: 0 <= i < j < |regions| ==> Apart(regions[i], regions[j])
      modifies this`regions
      ensures Valid() && regions == old(regions) + [r] && InBlock(r, blocks[0])
    {
      assert InBlock(r, blocks[0]) && RegionOk(r);
      forall k | 0 <= k < |regions| ensures RegionOk(regions[k]) && Apart(regions[k], r) {
        assert RegionBefore(regions[k], r.addr);
        var i :| 0 <= i < |blocks| && InBlock(regions[k], blocks[i]) && (i == 0 ==> regions[k].End() <= r.addr);
        if i != 0 {
          assert Apart(Block(blocks[0]), Block(blocks[i]));
        }
      }
      regions := regions + [r];
    }

    /** Whoever asked for a region may write to it. */
    method Poke(ghost k: nat, a: nat, v: byte)
      requires Valid() && k < |regions| && regions[k].addr <= a < regions[k].End()
      modifies this`mem
      ensures Valid() && mem(a) == v && forall b :: b != a ==> mem(b) == old(mem)(b)
    {
      var was := mem;
      assert RegionOk(regions[k]);
      ghost var i :| 0 <= i < |blocks| && InBlock(regions[k], blocks[i]) && (i == 0 ==> regions[k].End() <= buf);
      assert i != 0 ==> Apart(Block(blocks[0]), Block(blocks[i]));
      mem := b => if b == a then v else was(b);
    }

    /** small_free_all: the blocks go back to malloc, each once. buf and left stay as they are. */
    method SmallFreeAll() returns (freed: seq<nat>)
      requires Valid()
      modifies this`blocks, this`regions
      ensures freed == old(blocks) && blocks == [] && regions == [] && Distinct(freed)
      ensures old(left) == 0 ==> Valid()
      ensures old(left) > 0 ==> freed != [] && Dangling(freed[0])
    {
      freed := [];
      BlocksDistinct();
      while blocks != []
        invariant freed + blocks == old(blocks) && regions == old(regions)
        decreases |blocks|
      {
        var current := blocks[0];
        blocks := blocks[1..];
        freed := freed + [current];
      }
      assert freed + [] == freed;
      regions := [];
    }

    /** A request after everything was freed, malloc's block being another one than the last: what it
        returns lies in that last block, which is no longer the allocator's, just if the request fits what
        was left of it. */
    method AllocAfterFree(bytes: nat, block: nat) returns (freed: seq<nat>, ok: bool, ptr: nat)
      requires Valid() && 0 < RoundUp(bytes) <= ALLOCSIZE - HEADER && block % ALIGNMENT == 0
      requires blocks != [] ==> Apart(Block(block), Block(blocks[0]))
      modifies this
      ensures ok && freed == old(blocks)
      ensures RoundUp(bytes) <= old(left) <==>
                freed != [] && InBlock(Region(ptr, RoundUp(bytes)), freed[0])
      ensures RoundUp(bytes) <= old(left) ==> blocks == []
      ensures RoundUp(bytes) > old(left) ==> Valid() && blocks == [block] && InBlock(Region(ptr, RoundUp(bytes)), block)
    {
      freed := SmallFreeAll();
      ok, ptr := SmallAlloc(bytes, block, if freed == [] then 0 else freed[0]);
      assert [block] + [] == [block];
    }

    lemma BlocksDistinct()
      requires BlocksApart()
      ensures Distinct(blocks)
    {
      forall i, j | 0 <= i < j < |blocks| ensures blocks[i] != blocks[j] {
        assert Apart(Block(blocks[i]), Block(blocks[j]));
      }
    }
  }
}
