/** The arena of src/util/arena.cc and include/util/arena.h; addresses are numbers, and 0 is the null pointer. */
module Arenas {
  import opened Bits

  const BLOCK_SIZE: nat := 4096
  const ALIGN: nat := 8
  /** sizeof(char*) */
  const POINTER_SIZE: nat := 8

  datatype Region = Region(addr: nat, size: nat)

  predicate Apart(a: Region, b: Region) {
    a.addr + a.size <= b.addr || b.addr + b.size <= a.addr
  }

  predicate Within(r: Region, block: Region) {
    block.addr <= r.addr && r.addr + r.size <= block.addr + block.size
  }

  /** Inside one of the blocks; only an empty region may be at the null pointer. */
  predicate Owned(r: Region, blocks: seq<Region>) {
    r == Region(0, 0) || exists b :: b in blocks && Within(r, b)
  }

  predicate AllApart(rs: seq<Region>) {
    forall i, j :: 0 <= i < j < |rs| ==> Apart(rs[i], rs[j])
  }

  /** Each block counts with the pointer to it. */
  function Footprint(blocks: seq<Region>): nat {
    if blocks == [] then 0 else Footprint(blocks[..|blocks| - 1]) + blocks[|blocks| - 1].size + POINTER_SIZE
  }

  /** What `new char[size]` returns: aligned memory that nothing else is using. */
  predicate FreshBlock(at: nat, size: nat, blocks: seq<Region>) {
    at > 0 && at % ALIGN == 0 && forall b :: b in blocks ==> Apart(b, Region(at, size))
  }

  lemma OwnedMore(r: Region, blocks: seq<Region>, more: Region)
    requires Owned(r, blocks)
    ensures Owned(r, blocks + [more])
  {
    if r != Region(0, 0) {
      var b :| b in blocks && Within(r, b);
      assert b in blocks + [more];
    }
  }

  lemma AllOwnedMore(rs: seq<Region>, blocks: seq<Region>, more: Region)
    requires forall r :: r in rs ==> Owned(r, blocks)
    ensures forall r :: r in rs ==> Owned(r, blocks + [more])
  {
    forall r | r in rs
      ensures Owned(r, blocks + [more])
    {
      OwnedMore(r, blocks, more);
    }
  }

  lemma OneMoreApart(blocks: seq<Region>, more: Region)
    requires AllApart(blocks) && forall b :: b in blocks ==> Apart(b, more)
    ensures AllApart(blocks + [more])
    ensures Footprint(blocks + [more]) == Footprint(blocks) + more.size + POINTER_SIZE
    ensures Owned(more, blocks + [more])
  {
    assert (blocks + [more])[..|blocks|] == blocks;
    assert (blocks + [more])[|blocks|] == more;
    assert more in blocks + [more];
    forall i, j | 0 <= i < j < |blocks| + 1
      ensures Apart((blocks + [more])[i], (blocks + [more])[j])
    {
      assert blocks[i] in blocks;
    }
  }

  lemma ApartInside(r: Region, blocks: seq<Region>, fresh_: Region)
    requires Owned(r, blocks) && fresh_.addr > 0 && forall b :: b in blocks ==> Apart(b, fresh_)
    ensures Apart(r, fresh_)
  {
    if r != Region(0, 0) {
      var b :| b in blocks && Within(r, b);
      assert Apart(b, fresh_);
    }
  }

  class Arena {
    var allocPtr: nat
    var allocBytesRemaining: nat
    var blocks: seq<Region>
    var memoryUsage: nat
    /** All that was handed out. */
    ghost var regions: seq<Region>
    /** The bytes left over in each block that allocation has moved on from. */
    ghost var wasted: seq<nat>

    ghost function Free(): Region
      reads this
    {
      Region(allocPtr, allocBytesRemaining)
    }

    ghost predicate Valid()
      reads this
    {
      && AllApart(blocks) && memoryUsage == Footprint(blocks)
      && AllApart(regions) && (forall r :: r in regions ==> Owned(r, blocks) && Apart(r, Free()))
      && Owned(Free(), blocks)
      && (forall w :: w in wasted ==> w <= BLOCK_SIZE / 4 + ALIGN - 2)
    }

    constructor ()
      ensures Valid() && regions == [] && blocks == [] && memoryUsage == 0
    {
      allocPtr, allocBytesRemaining, blocks, memoryUsage := 0, 0, [], 0;
      regions, wasted := [], [];
    }

    /** `at` is where the memory allocator puts the block. */
    method AllocateNewBlock(blockBytes: nat, at: nat) returns (result: nat)
      requires Valid() && FreshBlock(at, blockBytes, blocks)
      modifies `blocks, `memoryUsage
      ensures Valid() && result == at && blocks == old(blocks) + [Region(at, blockBytes)]
      ensures Owned(Region(at, blockBytes), blocks)
      ensures memoryUsage == old(memoryUsage) + blockBytes + POINTER_SIZE
    {
      result := at;
      OneMoreApart(blocks, Region(at, blockBytes));
      AllOwnedMore(regions, blocks, Region(at, blockBytes));
      OwnedMore(Free(), blocks, Region(at, blockBytes));
      blocks := blocks + [Region(at, blockBytes)];
      memoryUsage := memoryUsage + blockBytes + POINTER_SIZE;
    }

    /** The free part shrinks to what is behind the new region. */
    ghost method HandOut(r: Region)
      requires Valid() && Owned(r, blocks) && Apart(r, Free())
      requires forall x :: x in regions ==> Apart(x, r)
      modifies `regions
      ensures Valid() && regions == old(regions) + [r]
    {
      regions := regions + [r];
    }

    /** `bytes` from the start of the free part, after `slop` bytes that are skipped. */
    method Bump(slop: nat, bytes: nat) returns (result: nat)
      requires Valid() && slop + bytes <= allocBytesRemaining
      modifies `allocPtr, `allocBytesRemaining, `regions
      ensures Valid() && result == old(allocPtr) + slop && regions == old(regions) + [Region(result, bytes)]
      ensures allocPtr == result + bytes && allocBytesRemaining == old(allocBytesRemaining) - slop - bytes
    {
      ghost var free := Free();
      result := allocPtr + slop;
      allocPtr := allocPtr + slop + bytes;
      allocBytesRemaining := allocBytesRemaining - (slop + bytes);
      HandOut(Region(result, bytes));
    }

    /** Nothing handed out so far reaches into a fresh block. */
    lemma FreshApart(fresh_: Region)
      requires Valid() && fresh_.addr > 0 && forall b :: b in blocks ==> Apart(b, fresh_)
      ensures forall r :: r in regions ==> Apart(r, fresh_)
      ensures Apart(Free(), fresh_)
    {
      forall r | r in regions
        ensures Apart(r, fresh_)
      {
        ApartInside(r, blocks, fresh_);
      }
      ApartInside(Free(), blocks, fresh_);
    }

    /** Begin another block; what the last one had left, at most 1030 bytes, is given up. */
    method StartBlock(at: nat)
      requires Valid() && FreshBlock(at, BLOCK_SIZE, blocks)
      requires allocBytesRemaining <= BLOCK_SIZE / 4 + ALIGN - 2
      modifies `blocks, `memoryUsage, `allocPtr, `allocBytesRemaining, `wasted
      ensures Valid() && allocPtr == at && allocBytesRemaining == BLOCK_SIZE
      ensures blocks == old(blocks) + [Region(at, BLOCK_SIZE)]
      ensures wasted == old(wasted) + [old(allocBytesRemaining)]
    {
      FreshApart(Region(at, BLOCK_SIZE));
      var block := AllocateNewBlock(BLOCK_SIZE, at);
      MoveTo(block);
    }

    method MoveTo(block: nat)
      requires Valid() && allocBytesRemaining <= BLOCK_SIZE / 4 + ALIGN - 2
      requires Owned(Region(block, BLOCK_SIZE), blocks)
      requires forall r :: r in regions ==> Apart(r, Region(block, BLOCK_SIZE))
      modifies `allocPtr, `allocBytesRemaining, `wasted
      ensures Valid() && allocPtr == block && allocBytesRemaining == BLOCK_SIZE
      ensures wasted == old(wasted) + [old(allocBytesRemaining)]
    {
      wasted := wasted + [allocBytesRemaining];
      allocPtr := block;
      allocBytesRemaining := BLOCK_SIZE;
    }

    method AllocateFallback(bytes: nat, at: nat) returns (result: nat)
      requires Valid() && FreshBlock(at, BlockFor(bytes), blocks)
      requires allocBytesRemaining <= BLOCK_SIZE / 4 + ALIGN - 2 || bytes > BLOCK_SIZE / 4
      modifies this
      ensures Valid() && result == at && regions == old(regions) + [Region(result, bytes)]
      ensures blocks == old(blocks) + [Region(at, BlockFor(bytes))]
      ensures wasted == old(wasted) + if bytes > BLOCK_SIZE / 4 then [] else [old(allocBytesRemaining)]
      ensures Free() == FreeBehind(bytes, at, old(Free()))
    {
      if bytes > BLOCK_SIZE / 4 {
        result := AllocateAlone(bytes, at);
      } else {
        result := AllocateInNew(bytes, at);
      }
    }

    /** The start of a new block. */
    method AllocateInNew(bytes: nat, at: nat) returns (result: nat)
      requires Valid() && FreshBlock(at, BLOCK_SIZE, blocks) && bytes <= BLOCK_SIZE
      requires allocBytesRemaining <= BLOCK_SIZE / 4 + ALIGN - 2
      modifies this
      ensures Valid() && result == at && regions == old(regions) + [Region(result, bytes)]
      ensures blocks == old(blocks) + [Region(at, BLOCK_SIZE)] && wasted == old(wasted) + [old(allocBytesRemaining)]
      ensures Free() == Region(at + bytes, BLOCK_SIZE - bytes)
    {
      StartBlock(at);
      result := Bump(0, bytes);
    }

    /** A block that holds one object. */
    method AllocateAlone(bytes: nat, at: nat) returns (result: nat)
      requires Valid() && FreshBlock(at, bytes, blocks)
      modifies `blocks, `memoryUsage, `regions
      ensures Valid() && result == at && regions == old(regions) + [Region(result, bytes)]
      ensures blocks == old(blocks) + [Region(at, bytes)]
    {
      ghost var r := Region(at, bytes);
      FreshApart(r);
      result := AllocateNewBlock(bytes, at);
      HandOut(r);
    }

    /** Large objects have a block of their own. */
    static function BlockFor(bytes: nat): nat {
      if bytes > BLOCK_SIZE / 4 then bytes else BLOCK_SIZE
    }

    /** What is free after a new block at `at`; `free` was before. */
    static ghost function FreeBehind(bytes: nat, at: nat, free: Region): Region {
      if bytes > BLOCK_SIZE / 4 then free else Region(at + bytes, BLOCK_SIZE - bytes)
    }

    method Allocate(bytes: nat, at: nat) returns (result: nat)
      requires Valid() && bytes > 0 && FreshBlock(at, BlockFor(bytes), blocks)
      modifies this
      ensures Valid() && regions == old(regions) + [Region(result, bytes)]
      ensures result == if bytes <= old(allocBytesRemaining) then old(allocPtr) else at
      ensures blocks == if bytes <= old(allocBytesRemaining) then old(blocks) else old(blocks) + [Region(at, BlockFor(bytes))]
      ensures Free() == if bytes <= old(allocBytesRemaining) then Region(result + bytes, old(allocBytesRemaining) - bytes)
                        else FreeBehind(bytes, at, old(Free()))
      ensures wasted == old(wasted) + if old(allocBytesRemaining) < bytes <= BLOCK_SIZE / 4 then [old(allocBytesRemaining)] else []
    {
      if bytes <= allocBytesRemaining {
        result := Bump(0, bytes);
      } else {
        result := AllocateFallback(bytes, at);
      }
    }

    /** How far the next aligned address is. */
    static function Slop(ptr: nat): (slop: nat)
      ensures slop < ALIGN && (ptr + slop) % ALIGN == 0
    {
      (ALIGN - ptr % ALIGN) % ALIGN
    }

    static method SlopByMask(ptr: nat) returns (slop: nat)
      ensures slop == Slop(ptr)
    {
      MaskIsRemainder(ptr, ALIGN);
      var currentMod := BitAnd(ptr, ALIGN - 1);
      slop := if currentMod == 0 then 0 else ALIGN - currentMod;
    }

    method AllocateAligned(bytes: nat, at: nat) returns (result: nat)
      requires Valid() && FreshBlock(at, BlockFor(bytes), blocks)
      modifies this
      ensures Valid() && regions == old(regions) + [Region(result, bytes)]
      ensures result % ALIGN == 0
      ensures var slop, left := Slop(old(allocPtr)), old(allocBytesRemaining);
        if bytes + slop <= left then
          && result == old(allocPtr) + slop && blocks == old(blocks) && wasted == old(wasted)
          && Free() == Region(result + bytes, left - slop - bytes)
        else
          && result == at && blocks == old(blocks) + [Region(at, BlockFor(bytes))]
          && wasted == old(wasted) + (if bytes <= BLOCK_SIZE / 4 then [left] else [])
          && Free() == FreeBehind(bytes, at, old(Free()))
    {
      var slop := SlopByMask(allocPtr);
      var needed := bytes + slop;
      if needed <= allocBytesRemaining {
        result := Bump(slop, bytes);
      } else {
        result := AllocateFallback(bytes, at);
      }
      assert result % ALIGN == 0;
    }
  }
}
