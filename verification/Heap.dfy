/** The allocator of src/lwip/src/core/mem.c on one memory that holds both the
    headers and the clients' data. */
module Heap {
  import opened Seq32
  import opened HeapSpec
  import opened HeapMemory

  /** Result of mem_malloc and mem_trim: NULL or an offset into the heap. */
  datatype Ptr = Null | At(off: int)

  /** LWIP_MEM_ALIGN_SIZE on a 32-bit mem_size_t, for MEM_ALIGNMENT 4. */
  function AlignSize(n: u32): u32 { Add(n, 3) / 4 * 4 }

  /** The payload size a request is rounded up to. */
  function RoundUp(n: u32): (r: u32)
    ensures r >= MIN && r % 4 == 0
  {
    if AlignSize(n) < MIN then MIN else AlignSize(n)
  }

  class Mem {
    const size: int            // MEM_SIZE_ALIGNED; the end marker's header starts here
    const ram: array<int>
    var lfree: int
    ghost var blocks: seq<Block>

    ghost predicate Valid()
      reads this, ram
    {
      && 0 < size < TWO31 && size % 4 == 0 && ram.Length == size + HDR
      && Tiles(blocks, size) && Headers(ram[..], blocks, size)
      && lfree == LowestFree(blocks, size)
    }

    /** mem_init */
    constructor (size: int)
      requires HDR + MIN <= size < TWO31 && size % 4 == 0
      ensures Valid() && fresh(ram) && this.size == size && blocks == [Block(0, false)]
    {
      this.size := size;
      ram := new int[size + HDR](_ => 0);
      lfree := 0;
      blocks := [Block(0, false)];
      new;
      ram[0 + NEXT], ram[0 + PREV], ram[0 + USED] := size, 0, 0;
      ram[size + USED], ram[size + NEXT], ram[size + PREV] := 1, size, size;
    }

    /** Reading the header of block i yields its neighbours and state. */
    lemma HeaderOf(i: nat)
      requires Valid() && i < |blocks|
      ensures blocks[0].off == 0 <= blocks[i].off && blocks[i].off % 4 == 0
      ensures blocks[i].off + HDR + MIN <= Next(blocks, size, i) <= size
      ensures Next(blocks, size, i) == size || Next(blocks, size, i) + HDR + MIN <= size
      ensures ram[blocks[i].off + NEXT] == Next(blocks, size, i)
      ensures ram[blocks[i].off + PREV] == Prev(blocks, i)
      ensures ram[blocks[i].off + USED] == if blocks[i].used then 1 else 0
      ensures ram[size + NEXT] == ram[size + PREV] == size && ram[size + USED] == 1
      ensures i > 0 ==> Neighbours(blocks[i - 1], blocks[i]) && 0 <= blocks[i - 1].off < blocks[i].off
    {
      TilesTiles0(blocks, size);
      assert i > 0 ==> Neighbours(blocks[i - 1], blocks[i - 1 + 1]);
      hide Tiles, Tiles0, Headers, LowestFree;
      HeaderFacts(ram[..], blocks, size, i);
    }

    /** mem_link_valid, at any offset whose header lies in the heap. */
    predicate LinkValid(mem: int)
      requires 0 <= mem && mem + HDR <= ram.Length == size + HDR && 0 < size
      reads ram
    {
      var next, prev := ram[mem + NEXT], ram[mem + PREV];
      && 0 <= next <= size && 0 <= prev <= size
      && (prev == mem || ram[prev + NEXT] == mem)
      && (next == size || ram[next + PREV] == mem)
    }

    /** Every block is correctly linked. */
    lemma LinksValid(i: nat)
      requires Valid() && i < |blocks|
      ensures 0 <= blocks[i].off && blocks[i].off + HDR <= ram.Length && LinkValid(blocks[i].off)
    {
      hide Tiles, Headers, LowestFree;
      HeaderOf(i);
      if i > 0 {
        HeaderOf(i - 1);
      }
      if i + 1 < |blocks| {
        HeaderOf(i + 1);
      }
    }

    /** mem_sanity: the walk over the heap finds nothing wrong. */
    method MemSanity() returns (ok: bool)
      requires Valid()
      ensures ok
    {
      assert blocks != [];
      hide Tiles, Headers, LowestFree;
      HeaderOf(0);
      if |blocks| > 1 {
        HeaderOf(1);
      }
      ok := (ram[0 + USED] == 0 || ram[0 + USED] == 1) && ram[0 + PREV] == 0 && ram[0 + NEXT] <= size;
      var lastUsed := ram[0 + USED];
      var mem := ram[0 + NEXT];
      ghost var i := 1;
      while mem < size
        invariant 1 <= i <= |blocks| && mem == (if i < |blocks| then blocks[i].off else size)
        invariant i < |blocks| ==> mem < size
        invariant lastUsed == if blocks[i - 1].used then 1 else 0
        invariant ok
        decreases |blocks| - i
      {
        HeaderOf(i);
        LinksValid(i);
        var used := ram[mem + USED];
        ok := ok && mem % 4 == 0 && ram[mem + PREV] <= size && ram[mem + NEXT] <= size
              && (lastUsed == 0 ==> used == 1) && (used == 0 || used == 1) && LinkValid(mem);
        lastUsed := used;
        mem := ram[mem + NEXT];
        i := i + 1;
        if i < |blocks| {
          HeaderOf(i);
        }
      }
      ok := ok && mem == size && ram[mem + USED] == 1 && ram[mem + PREV] == size && ram[mem + NEXT] == size;
    }

    /** The search of mem_malloc, from the lowest free block on. */
    method FindFit(req: int) returns (ptr: int, ghost i: nat)
      requires Valid() && MIN <= req <= size
      ensures i == FirstFit(blocks, size, req, 0)
      ensures if i < |blocks| then ptr == blocks[i].off else ptr >= size - req
    {
      ptr, i := lfree, FirstFree(blocks, 0);
      while ptr < size - req
        invariant i <= |blocks| && ptr == (if i < |blocks| then blocks[i].off else size)
        invariant forall j :: 0 <= j < i ==> !Fits(blocks, size, req, j)
        decreases |blocks| - i
      {
        var fits, next := TryBlock(ptr, req, i);
        if fits {
          FitFromHint(blocks, size, req, i);
          return;
        }
        ptr, i := next, i + 1;
      }
      TailTooSmall(blocks, size, req, i);
      i := |blocks|;
    }

    /** The test on block i, and where the next one starts. */
    method TryBlock(ptr: int, req: int, ghost i: nat) returns (fits: bool, next: int)
      requires Valid() && i < |blocks| && ptr == blocks[i].off
      ensures fits <==> Fits(blocks, size, req, i)
      ensures next == Next(blocks, size, i)
    {
      HeaderOf(i);
      next := ram[ptr + NEXT];
      fits := ram[ptr + USED] == 0 && next - (ptr + HDR) >= req;
    }

    /** Moving the hint past block i, which has just been taken. */
    method AdvanceHint(i0: int, ghost i: nat)
      requires 0 < size && ram.Length == size + HDR && Tiles(blocks, size) && Headers(ram[..], blocks, size)
      requires i < |blocks| && i0 == blocks[i].off && forall j :: 0 <= j < i ==> blocks[j].used
      modifies this`lfree
      ensures lfree == LowestFree(blocks, size)
    {
      TilesTiles0(blocks, size);
      hide Tiles, Tiles0, Headers;
      var cur := i0;
      ghost var k := i;
      HeaderFacts(ram[..], blocks, size, i);
      while ram[cur + USED] != 0 && cur != size
        invariant k <= |blocks| && cur == (if k < |blocks| then blocks[k].off else size)
        invariant 0 <= cur <= size && forall j :: 0 <= j < k ==> blocks[j].used
        decreases |blocks| - k
      {
        HeaderFacts(ram[..], blocks, size, k);
        cur, k := ram[cur + NEXT], k + 1;
      }
      if k < |blocks| {
        HeaderFacts(ram[..], blocks, size, k);
      }
      FirstFreeIs(blocks, k);
      lfree := cur;
    }

    /** The writes of mem_malloc and mem_trim that make a free block behind block i. */
    method InsertFree(ptr: int, n: int, used: bool, ghost i: nat, ghost m: seq<int>, ghost p: seq<Block>)
      requires m == ram[..] && Tiles(p, size) && Headers(m, p, size) && i < |p| && ptr == p[i].off
      requires MIN <= n && n + HDR + MIN <= Avail(p, size, i)
      modifies ram
      ensures Headers(ram[..], p[..i] + [Block(ptr, used), Block(ptr + HDR + n, false)] + p[i + 1..], size)
      ensures KeepsData(m, ram[..], p, size, i, ptr + HDR + n)
    {
      TilesTiles0(p, size);
      hide Tiles, Tiles0, Headers, SplitWrites, OnlyHeaders, KeepsData;
      var next := NextOf(ptr, i, m, p);
      LinkBehind(ptr, ptr + HDR + n, next, used);
      SplitHeaders(m, p, size, i, n, used, ram[..]);
      InnerWritesKeep(m, ram[..], p, size, i, ptr + HDR + n, i + 1);
    }

    /** Reading where the next block starts. */
    method NextOf(ptr: int, ghost i: nat, ghost m: seq<int>, ghost p: seq<Block>) returns (next: int)
      requires m == ram[..] && Tiles0(p, size) && Headers(m, p, size) && i < |p| && ptr == p[i].off
      ensures next == Next(p, size, i) && |m| == size + HDR
      ensures 0 <= ptr && ptr + HDR + MIN <= next <= size && (next == size || next + HDR + MIN <= size)
    {
      HeaderFacts(m, p, size, i);
      next := ram[ptr + NEXT];
      assert next == m[ptr + NEXT];
    }

    /** Linking a free block at ptr2 between ptr and next, and setting the state of ptr. */
    method LinkBehind(ptr: int, ptr2: int, next: int, used: bool)
      requires 0 <= ptr && ptr + HDR <= ptr2 && ptr2 + HDR <= next && (next == size || next + HDR <= size)
      requires ram.Length == size + HDR
      modifies ram
      ensures ram[..] == SplitWrites(old(ram[..]), ptr, ptr2, next, size)[ptr + USED := if used then 1 else 0]
    {
      ram[ptr2 + USED] := 0;
      ram[ptr2 + NEXT] := next;
      ram[ptr2 + PREV] := ptr;
      ram[ptr + NEXT] := ptr2;
      ram[ptr + USED] := if used then 1 else 0;
      if next != size {
        ram[next + PREV] := ptr2;
      }
    }

    /** Writing the state of block i. */
    method SetUsed(ptr: int, used: bool, ghost i: nat, ghost m: seq<int>, ghost p: seq<Block>)
      requires m == ram[..] && Tiles(p, size) && Headers(m, p, size) && i < |p| && ptr == p[i].off
      modifies ram
      ensures Headers(ram[..], p[..i] + [Block(ptr, used)] + p[i + 1..], size)
      ensures KeepsData(m, ram[..], p, size, -1, 0)
    {
      TilesTiles0(p, size);
      hide Tiles, Tiles0, Headers, OnlyHeaders, KeepsData;
      HeaderFacts(m, p, size, i);
      ram[ptr + USED] := if used then 1 else 0;
      MarkHeaders(m, p, size, i, used, ram[..]);
      HeaderWritesKeep(m, ram[..], p, size, i, i, Next(p, size, i));
    }

    /** Marking free block i used, splitting off what the request does not need. */
    method TakeBlock(ptr: int, req: int, ghost i: nat, ghost m: seq<int>, ghost p: seq<Block>)
      requires m == ram[..] && Tiles(p, size) && Headers(m, p, size) && i < |p| && ptr == p[i].off && !p[i].used
      requires MIN <= req <= Avail(p, size, i)
      modifies ram
      ensures Headers(ram[..], Take(p, size, req, i), size)
      ensures KeepsData(m, ram[..], p, size, -1, 0)
    {
      TilesTiles0(p, size);
      hide Tiles, Tiles0, Headers, KeepsData;
      HeaderFacts(m, p, size, i);
      var next := ram[ptr + NEXT];
      assert next == m[ptr + NEXT];
      if next - (ptr + HDR) >= req + HDR + MIN {
        InsertFree(ptr, req, true, i, m, p);
        FreeNotKept(m, ram[..], p, size, i, ptr + HDR + req);
      } else {
        SetUsed(ptr, true, i, m, p);
      }
    }

    /** mem_malloc: first fit, NULL only when no free block is large enough, and no
        block in use is touched. */
    method MemMalloc(sizeIn: u32) returns (r: Ptr)
      requires Valid()
      modifies this`lfree, this`blocks, ram
      ensures Valid()
      ensures var req := RoundUp(sizeIn); var i := FirstFit(old(blocks), size, req, 0);
              if sizeIn == 0 || req > size || req < sizeIn || i == |old(blocks)|
              then r == Null && blocks == old(blocks) && ram[..] == old(ram[..])
              else r == At(old(blocks)[i].off + HDR) && blocks == Take(old(blocks), size, req, i)
      ensures KeepsData(old(ram[..]), ram[..], old(blocks), size, -1, 0)
    {
      ghost var m, p := ram[..], blocks;
      SelfKept(m, p, size, -1, 0);
      var req := RoundUp(sizeIn);
      if sizeIn == 0 || req > size || req < sizeIn {
        return Null;
      }
      ghost var i;
      var ptr;
      ptr, i := FindFit(req);
      if i < |blocks| {
        HeaderOf(i);
      }
      if ptr >= size - req {
        return Null;
      }
      TakeBlock(ptr, req, i, m, p);
      SettleTaken(ptr, req, i, p);
      r := At(ptr + HDR);
    }

    /** Recording the block taken, and the hint. */
    method SettleTaken(ptr: int, ghost req: int, ghost i: nat, ghost p: seq<Block>)
      requires 0 < size < TWO31 && size % 4 == 0 && ram.Length == size + HDR && Tiles(p, size)
      requires i < |p| && !p[i].used && ptr == p[i].off && MIN <= req <= Avail(p, size, i) && req % 4 == 0
      requires lfree == LowestFree(p, size) && Headers(ram[..], Take(p, size, req, i), size)
      modifies this`lfree, this`blocks
      ensures blocks == Take(p, size, req, i) && Valid()
    {
      TakeTiles(p, size, req, i);
      HintIndex(p, size, i);
      blocks := Take(p, size, req, i);
      hide Headers, Tiles, LowestFree;
      if ptr == lfree {
        AdvanceHint(ptr, i);
      } else {
        TakeKeepsHint(p, size, req, i);
      }
    }

    /** A client writes a byte into the payload it was given: the heap stays valid. */
    method ClientWrite(k: int, x: int, ghost i: nat)
      requires Valid() && InPayload(blocks, size, i, k)
      modifies ram
      ensures Valid() && 0 <= k < ram.Length && ram[..] == old(ram[..])[k := x]
    {
      PayloadWriteKeeps(ram[..], blocks, size, i, k, x);
      hide Tiles, Headers, LowestFree;
      ghost var m := ram[..];
      ram[k] := x;
      assert ram[..] == m[k := x];
    }

    // ----- mem_free -----------------------------------------------------------------------

    /** rmem passes the alignment and range tests of mem_free. */
    predicate InHeap(rmem: Ptr)
    {
      rmem.At? && rmem.off % 4 == 0 && HDR <= rmem.off && rmem.off + MIN <= size
    }

    /** rmem is not the payload of a block, but the bytes in front of it look like
        the header of a used one. */
    ghost predicate Forged(rmem: Ptr)
      requires Valid()
      reads this, ram
    {
      && InHeap(rmem) && BlockAt(blocks, rmem.off - HDR, 0) == |blocks|
      && ram[rmem.off - HDR + USED] != 0 && LinkValid(rmem.off - HDR)
    }

    /** mem_free: the block is merged with its free neighbours and nobody else's data is
        touched; a null, misaligned, foreign or already freed pointer changes nothing. */
    method MemFree(rmem: Ptr)
      requires Valid() && !Forged(rmem)
      modifies this`lfree, this`blocks, ram
      ensures Valid()
      ensures var i := if rmem.At? then BlockAt(old(blocks), rmem.off - HDR, 0) else |old(blocks)|;
              if i < |old(blocks)| && old(blocks)[i].used
              then blocks == Release(old(blocks), i)
              else blocks == old(blocks) && ram[..] == old(ram[..])
      ensures KeepsData(old(ram[..]), ram[..], old(blocks), size, -1, 0)
    {
      ghost var m, p := ram[..], blocks;
      SelfKept(m, p, size, -1, 0);
      ghost var i := if rmem.At? then BlockAt(p, rmem.off - HDR, 0) else |p|;
      var ok := InUse(rmem, i);
      if ok {
        FreeBlock(rmem.off - HDR, i, m, p);
      }
    }

    /** Freeing what was just allocated restores the partition and the hint. */
    method MallocThenFree(sizeIn: u32)
      requires Valid()
      modifies this`lfree, this`blocks, ram
      ensures Valid() && blocks == old(blocks) && lfree == old(lfree)
    {
      ghost var p := blocks;
      ghost var req := RoundUp(sizeIn);
      ghost var i := FirstFit(p, size, req, 0);
      var r := MemMalloc(sizeIn);
      hide Tiles, Headers, KeepsData;
      if r.At? {
        FreeUndoesMalloc(p, size, req);
        FoundAt(blocks, size, i);
      }
      MemFree(r);
    }

    /** The checks of mem_free: they single out the blocks in use. */
    method InUse(rmem: Ptr, ghost i: nat) returns (ok: bool)
      requires Valid() && !Forged(rmem)
      requires i == if rmem.At? then BlockAt(blocks, rmem.off - HDR, 0) else |blocks|
      ensures ok <==> i < |blocks| && blocks[i].used
    {
      if i < |blocks| {
        HeaderOf(i);
        LinksValid(i);
      }
      hide Tiles, Headers, LowestFree;
      if rmem.Null? || rmem.off % 4 != 0 {
        return false;
      }
      var mem := rmem.off - HDR;
      if mem < 0 || rmem.off + MIN > size {
        return false;
      }
      ok := ram[mem + USED] != 0 && LinkValid(mem);
    }

    /** The part of mem_free behind the checks. */
    method FreeBlock(mem: int, ghost i: nat, ghost m: seq<int>, ghost p: seq<Block>)
      requires Valid() && m == ram[..] && p == blocks && i < |p| && p[i].used && mem == p[i].off
      modifies this`lfree, this`blocks, ram
      ensures Valid() && blocks == Release(p, i)
      ensures KeepsData(m, ram[..], p, size, -1, 0)
    {
      ReleaseTiles(p, size, i);
      MarkFreeHint(p, size, i);
      TilesTiles0(p, size);
      hide Tiles, Headers, LowestFree, KeepsData, Tiles0;
      SetUsed(mem, false, i, m, p);
      if mem < lfree {
        lfree := mem;
      }
      PlugHoles(mem, i, p);
      blocks := Release(p, i);
    }

    /** plug_holes on block i of the partition p, which has just been marked free. */
    method PlugHoles(mem: int, ghost i: nat, ghost p: seq<Block>)
      requires 0 < size && ram.Length == size + HDR && Tiles(p, size) && i < |p| && mem == p[i].off
      requires Headers(ram[..], p[..i] + [Block(mem, false)] + p[i + 1..], size)
      requires lfree == LowestFree(p[..i] + [Block(mem, false)] + p[i + 1..], size)
      modifies this`lfree, ram
      ensures Headers(ram[..], Release(p, i), size) && lfree == LowestFree(Release(p, i), size)
      ensures KeepsData(old(ram[..]), ram[..], p, size, -1, 0)
    {
      ghost var m := ram[..];
      ghost var q := p[..i] + [Block(mem, false)] + p[i + 1..];
      hide Tiles, Headers, LowestFree, KeepsData, Tiles0, MergeNext, MergePrev;
      PlugForward(mem, i, p, q);
      ghost var m1 := ram[..];
      PlugBackward(mem, i, p, MergeNext(p, i));
      KeptTwice(m, m1, ram[..], p, size);
    }

    method PlugForward(mem: int, ghost i: nat, ghost p: seq<Block>, ghost q: seq<Block>)
      requires 0 < size && ram.Length == size + HDR && Tiles(p, size) && i < |p| && mem == p[i].off
      requires q == p[..i] + [Block(mem, false)] + p[i + 1..]
      requires Headers(ram[..], q, size) && lfree == LowestFree(q, size)
      modifies this`lfree, ram
      ensures Headers(ram[..], MergeNext(p, i), size) && lfree == LowestFree(MergeNext(p, i), size)
      ensures KeepsData(old(ram[..]), ram[..], p, size, -1, 0)
    {
      MarkedTiles(p, size, i, q);
      hide Tiles, Headers, LowestFree, KeepsData, Tiles0;
      ghost var m := ram[..];
      HeaderFacts(m, q, size, i);
      var next := ram[mem + NEXT];
      assert next == m[mem + NEXT] && ram[size + USED] == m[size + USED];
      if i + 1 < |p| {
        HeaderFacts(m, q, size, i + 1);
        assert ram[next + USED] == m[next + USED];
      }
      SelfKept(m, p, size, -1, 0);
      if ram[next + USED] == 0 && next != size {
        HintNotAbove(q, size, i);
        lfree := if lfree == next then mem else lfree;
        Unlink(mem, i, m, q);
        UnlinkKeepsHint(q, size, i);
        HeaderWritesKeep(m, ram[..], p, size, i, i, Next(p, size, i + 1));
        assert q[..i + 1] + q[i + 2..] == MergeNext(p, i);
      }
    }

    method PlugBackward(mem: int, ghost i: nat, ghost p: seq<Block>, ghost q: seq<Block>)
      requires 0 < size && ram.Length == size + HDR && Tiles(p, size) && i < |p| && mem == p[i].off
      requires q == MergeNext(p, i) && Headers(ram[..], q, size) && lfree == LowestFree(q, size)
      modifies this`lfree, ram
      ensures Headers(ram[..], MergePrev(q, i), size) && lfree == LowestFree(MergePrev(q, i), size)
      ensures KeepsData(old(ram[..]), ram[..], p, size, -1, 0)
    {
      MergedTiles(p, size, i);
      hide Tiles, Headers, LowestFree, KeepsData, Tiles0;
      ghost var m := ram[..];
      HeaderFacts(m, q, size, i);
      var prev := ram[mem + PREV];
      assert prev == m[mem + PREV];
      if i > 0 {
        HeaderFacts(m, q, size, i - 1);
        assert ram[prev + USED] == m[prev + USED];
      }
      SelfKept(m, p, size, -1, 0);
      if prev != mem && ram[prev + USED] == 0 {
        HintNotAbove(q, size, i - 1);
        lfree := if lfree == mem then prev else lfree;
        Unlink(prev, i - 1, m, q);
        UnlinkKeepsHint(q, size, i - 1);
        NextOfMerged(p, size, i);
        HeaderWritesKeep(m, ram[..], p, size, i - 1, i - 1, Next(q, size, i));
        assert q[..i - 1 + 1] + q[i - 1 + 2..] == MergePrev(q, i);
      }
    }

    /** Unlinking block i + 1, which block i swallows. */
    method Unlink(ptr: int, ghost i: nat, ghost m: seq<int>, ghost p: seq<Block>)
      requires m == ram[..] && Tiles0(p, size) && Headers(m, p, size) && i + 1 < |p| && ptr == p[i].off
      modifies ram
      ensures Headers(ram[..], p[..i + 1] + p[i + 2..], size)
      ensures OnlyHeaders(m, ram[..], ptr, ptr, Next(p, size, i + 1))
    {
      hide Tiles0, Headers, UnlinkWrites, OnlyHeaders, Unlinked;
      HeaderFacts(m, p, size, i);
      HeaderFacts(m, p, size, i + 1);
      var nmem := ram[ptr + NEXT];
      assert nmem == m[ptr + NEXT];
      var next := ram[nmem + NEXT];
      assert next == m[nmem + NEXT];
      Relink(ptr, next);
      UnlinkWritesUnlink(m, p, size, i, ram[..]);
      UnlinkedHeaders(m, ram[..], p, size, i, p[..i + 1] + p[i + 2..]);
    }

    method Relink(ptr: int, next: int)
      requires 0 <= ptr && ptr + HDR <= next && (next == size || next + HDR <= size) && ram.Length == size + HDR
      modifies ram
      ensures ram[..] == UnlinkWrites(old(ram[..]), ptr, next, size)
    {
      ram[ptr + NEXT] := next;
      if next != size {
        ram[next + PREV] := ptr;
      }
    }

    // ----- mem_trim -----------------------------------------------------------------------

    /** mem_trim: shrinks a block in use, giving the rest to the free block behind it or
        making it a free block if it can be one; what stays of the block, and everybody
        else's data, is kept. asserted tells that one of its assertions would fire: that
        is so for a foreign pointer, for a growing request, and also when a valid trim
        splits the last block. */
    method MemTrim(rmem: Ptr, newSize: u32) returns (r: Ptr, asserted: bool)
      requires Valid()
      requires rmem.At? && 0 <= rmem.off < size ==>
                 var i := BlockAt(blocks, rmem.off - HDR, 0); i < |blocks| && blocks[i].used
      modifies this`lfree, this`blocks, ram
      ensures Valid()
      ensures var n := RoundUp(newSize);
              if n > size || n < newSize then
                r == Null && !asserted && blocks == old(blocks) && ram[..] == old(ram[..])
              else if rmem.Null? || rmem.off < 0 || rmem.off >= size then
                r == rmem && asserted && blocks == old(blocks) && ram[..] == old(ram[..])
              else
                var i := BlockAt(old(blocks), rmem.off - HDR, 0); var avail := Avail(old(blocks), size, i);
                && r == (if n > avail then Null else rmem)
                && blocks == Shrink(old(blocks), size, i, n)
                && KeepsData(old(ram[..]), ram[..], old(blocks), size, i, rmem.off + n)
                && (asserted <==> n > avail || (i == |old(blocks)| - 1 && n + HDR + MIN <= avail))
    {
      asserted := false;
      var n := RoundUp(newSize);
      if n > size || n < newSize {
        return Null, false;
      }
      if rmem.Null? || rmem.off < 0 || rmem.off >= size {
        return rmem, true;
      }
      ghost var m, p := ram[..], blocks;
      ghost var i := BlockAt(p, rmem.off - HDR, 0);
      HeaderOf(i);
      SelfKept(m, p, size, i, rmem.off + n);
      var ptr := rmem.off - HDR;
      var avail := ram[ptr + NEXT] - ptr - HDR;
      if n > avail {
        return Null, true;
      }
      r := rmem;
      if n < avail {
        asserted := ShrinkBlock(ptr, n, avail, i, m, p);
      }
    }

    /** The part of mem_trim behind the checks. */
    method ShrinkBlock(ptr: int, n: int, avail: int, ghost i: nat, ghost m: seq<int>, ghost p: seq<Block>)
      returns (asserted: bool)
      requires Valid() && m == ram[..] && p == blocks && i < |p| && p[i].used && ptr == p[i].off
      requires avail == Avail(p, size, i) && MIN <= n < avail && n % 4 == 0
      modifies this`lfree, this`blocks, ram
      ensures Valid() && blocks == Shrink(p, size, i, n)
      ensures KeepsData(m, ram[..], p, size, i, ptr + HDR + n)
      ensures asserted <==> i == |p| - 1 && n + HDR + MIN <= avail
    {
      ShrinkTiles(p, size, i, n);
      asserted := false;
      HeaderOf(i);
      if i + 1 < |p| {
        HeaderOf(i + 1);
      }
      hide Tiles, Headers, LowestFree, KeepsData;
      SelfKept(m, p, size, i, ptr + HDR + n);
      var next := ram[ptr + NEXT];
      if ram[next + USED] == 0 {
        MoveNext(ptr, n, i, m, p);
      } else if n + HDR + MIN <= avail {
        asserted := next == size;
        SplitOff(ptr, n, i, m, p);
      }
      blocks := Shrink(p, size, i, n);
    }

    method MoveNext(ptr: int, n: int, ghost i: nat, ghost m: seq<int>, ghost p: seq<Block>)
      requires m == ram[..] && Tiles(p, size) && Headers(m, p, size) && i + 1 < |p| && ptr == p[i].off
      requires p[i].used && !p[i + 1].used && MIN <= n < Avail(p, size, i) && lfree == LowestFree(p, size)
      modifies this`lfree, ram
      ensures var q := p[..i + 1] + [Block(ptr + HDR + n, false)] + p[i + 2..];
              Headers(ram[..], q, size) && lfree == LowestFree(q, size)
      ensures KeepsData(m, ram[..], p, size, i, ptr + HDR + n)
    {
      TilesTiles0(p, size);
      MoveHint(p, size, i, Block(ptr + HDR + n, false));
      hide Tiles, Tiles0, Headers, SplitWrites, OnlyHeaders, KeepsData, LowestFree, Moved;
      HeaderFacts(m, p, size, i);
      var mem2 := NextOf(ptr, i, m, p);
      var next := NextOf(mem2, i + 1, m, p);
      var ptr2 := ptr + HDR + n;
      if lfree == mem2 {
        lfree := ptr2;
      }
      assert ram[ptr + USED] == m[ptr + USED] == 1;
      LinkBehind(ptr, ptr2, next, true);
      SameUsed(m, ptr, ptr2, next, size);
      MoveEffect(m, ram[..], p, size, i, ptr2);
    }

    method SplitOff(ptr: int, n: int, ghost i: nat, ghost m: seq<int>, ghost p: seq<Block>)
      requires m == ram[..] && Tiles(p, size) && Headers(m, p, size) && i < |p| && ptr == p[i].off
      requires p[i].used && MIN <= n && n + HDR + MIN <= Avail(p, size, i) && lfree == LowestFree(p, size)
      modifies this`lfree, ram
      ensures var q := p[..i + 1] + [Block(ptr + HDR + n, false)] + p[i + 1..];
              Headers(ram[..], q, size) && lfree == LowestFree(q, size)
      ensures KeepsData(m, ram[..], p, size, i, ptr + HDR + n)
    {
      var b := Block(ptr + HDR + n, false);
      InsertFreeHint(p, size, i, b);
      hide Tiles, Headers, KeepsData, LowestFree;
      if b.off < lfree {
        lfree := b.off;
      }
      InsertFree(ptr, n, true, i, m, p);
      assert p[..i] + [Block(ptr, true), b] + p[i + 1..] == p[..i + 1] + [b] + p[i + 1..];
    }
  }

  /** On a heap of any size the assertion of mem_trim on the last block can be reached: one
      request takes the whole heap, and is then trimmed to the smallest size. */
  method LastBlockTrimmed(size: int) returns (r: Ptr, asserted: bool)
    requires 2 * (HDR + MIN) <= size < TWO31 && size % 4 == 0
    ensures r == At(HDR) && asserted
  {
    var mem := new Mem(size);
    WholeHeap(size);
    r := mem.MemMalloc(size - HDR);
    assert mem.blocks == [Block(0, true)];
    r, asserted := mem.MemTrim(r, MIN);
  }

  lemma WholeHeap(size: int)
    requires 2 * (HDR + MIN) <= size < TWO31 && size % 4 == 0
    ensures RoundUp(size - HDR) == size - HDR && RoundUp(MIN) == MIN
    ensures FirstFit([Block(0, false)], size, size - HDR, 0) == 0
    ensures Take([Block(0, false)], size, size - HDR, 0) == [Block(0, true)]
  {
  }

  /** The block whose header is at off; |p| if there is none. */
  function BlockAt(p: seq<Block>, off: int, from: nat): (i: nat)
    requires from <= |p|
    ensures from <= i <= |p|
    ensures i < |p| ==> p[i].off == off
    ensures forall j :: from <= j < i ==> p[j].off != off
    decreases |p| - from
  {
    if from == |p| || p[from].off == off then from else BlockAt(p, off, from + 1)
  }

  lemma FoundAt(p: seq<Block>, size: int, i: nat)
    requires Tiles(p, size) && i < |p|
    ensures BlockAt(p, p[i].off, 0) == i
  {
    var j := BlockAt(p, p[i].off, 0);
    assert j < i ==> Before(p[j], p[i]);
  }

  // ----- lemmas about the partition during an operation --------------------------------------

  lemma MarkedTiles(p: seq<Block>, size: int, i: nat, q: seq<Block>)
    requires Tiles(p, size) && i < |p| && q == p[..i] + [Block(p[i].off, false)] + p[i + 1..]
    ensures Tiles0(q, size)
  {
    forall a, b | 0 <= a < b < |q| ensures Before(q[a], q[b]) {
      assert Before(p[a], p[b]);
    }
  }

  lemma MergedTiles(p: seq<Block>, size: int, i: nat)
    requires Tiles(p, size) && i < |p|
    ensures Tiles0(MergeNext(p, i), size)
  {
    var q := MergeNext(p, i);
    var shift := |p| - |q|;
    assert forall a :: 0 <= a < |q| ==> q[a].off == p[if a <= i then a else a + shift].off;
    forall a, b | 0 <= a < b < |q| ensures Before(q[a], q[b]) {
      assert Before(p[if a <= i then a else a + shift], p[if b <= i then b else b + shift]);
    }
  }

  /** The header behind the merged block is one of the original headers. */
  lemma NextOfMerged(p: seq<Block>, size: int, i: nat)
    requires i < |p|
    ensures var c := Next(MergeNext(p, i), size, i); c == size || exists x :: 0 <= x < |p| && p[x].off == c
  {
    var q := MergeNext(p, i);
    if i + 1 < |q| {
      assert q[i + 1] == p[i + 1 + |p| - |q|];
    }
  }

  /** The hint is never above a free block. */
  lemma HintNotAbove(q: seq<Block>, size: int, i: nat)
    requires Tiles0(q, size) && i + 1 < |q| && !q[i].used
    ensures LowestFree(q, size) < q[i + 1].off
  {
    var f := FirstFree(q, 0);
    assert Before(q[f], q[i + 1]);
  }

  lemma MoveEffect(m: seq<int>, m': seq<int>, p: seq<Block>, size: int, i: nat, ptr2: int)
    requires Tiles(p, size) && Headers(m, p, size) && i + 1 < |p| && !p[i + 1].used
    requires p[i].off + HDR + MIN <= ptr2 < p[i + 1].off
    requires var next := Next(p, size, i + 1);
             && 0 <= p[i].off && ptr2 + HDR <= next && (next == size || next + HDR <= size) && |m| == size + HDR
             && m' == SplitWrites(m, p[i].off, ptr2, next, size)
    ensures Headers(m', p[..i + 1] + [Block(ptr2, false)] + p[i + 2..], size)
    ensures KeepsData(m, m', p, size, i, ptr2)
  {
    hide Tiles, Headers, Moved, KeepsData;
    SplitMoves(m, p, size, i, ptr2, m');
    MovedHeaders(m, m', p, size, i, ptr2, p[..i + 1] + [Block(ptr2, false)] + p[i + 2..]);
    InnerWritesKeep(m, m', p, size, i, ptr2, i + 2);
  }

  lemma SameUsed(m: seq<int>, ptr: int, ptr2: int, next: int, size: int)
    requires 0 <= ptr && ptr + HDR <= ptr2 && ptr2 + HDR <= next && (next == size || next + HDR <= size)
             && |m| == size + HDR
    requires m[ptr + USED] == 1
    ensures var w := SplitWrites(m, ptr, ptr2, next, size); w[ptr + USED := 1] == w
  {
  }

  // ----- keeping the clients' data -------------------------------------------------------------

  lemma SelfKept(m: seq<int>, p: seq<Block>, size: int, i: int, upto: int)
    requires Tiles(p, size) && |m| == size + HDR
    ensures KeepsData(m, m, p, size, i, upto)
  {
    forall j, k | InPayload(p, size, j, k) ensures 0 <= k < |m| {
      PayloadApart(p, size, j, k, 0);
      Nonnegative(p, size, j);
    }
  }

  lemma FreeNotKept(m: seq<int>, m': seq<int>, p: seq<Block>, size: int, i: nat, upto: int)
    requires i < |p| && !p[i].used && KeepsData(m, m', p, size, i, upto)
    ensures KeepsData(m, m', p, size, -1, 0)
  {
  }

  lemma KeptTwice(m: seq<int>, m1: seq<int>, m2: seq<int>, p: seq<Block>, size: int)
    requires KeepsData(m, m1, p, size, -1, 0) && KeepsData(m1, m2, p, size, -1, 0)
    ensures KeepsData(m, m2, p, size, -1, 0)
  {
  }

  /** The hint is block i exactly if it has block i's offset. */
  lemma HintIndex(p: seq<Block>, size: int, i: nat)
    requires Tiles(p, size) && i < |p| && !p[i].used
    ensures LowestFree(p, size) == p[i].off <==> FirstFree(p, 0) == i
    ensures FirstFree(p, 0) <= i
  {
    var f := FirstFree(p, 0);
    assert f < i ==> Before(p[f], p[i]);
  }

  /** Behind the search bound no block can hold the request. */
  lemma TailTooSmall(p: seq<Block>, size: int, req: int, i: nat)
    requires Tiles(p, size) && i <= |p| && (i < |p| ==> p[i].off >= size - req)
    requires forall j :: 0 <= j < i ==> !Fits(p, size, req, j)
    ensures FirstFit(p, size, req, 0) == |p|
  {
    forall j | i <= j < |p| ensures !Fits(p, size, req, j) {
      Ordered(p, size, j, j);
      assert i < j ==> Before(p[i], p[j]);
    }
  }
}
