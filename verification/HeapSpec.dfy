/** The heap of src/lwip/src/core/mem.c as a partition into blocks: first fit,
    splitting, coalescing and trimming, and what they keep. */
module HeapSpec {

  const HDR: int := 12  // SIZEOF_STRUCT_MEM
  const MIN: int := 12  // MIN_SIZE_ALIGNED

  /** A block: the offset of its header and whether a client owns it. */
  datatype Block = Block(off: int, used: bool)

  /** b starts after a full minimum-size block at a. */
  predicate Before(a: Block, b: Block) { a.off + HDR + MIN <= b.off }

  /** Blocks tile [0, size), each aligned and large enough, and no two neighbours are free. */
  ghost predicate Tiles(p: seq<Block>, size: int)
  {
    && p != [] && p[0].off == 0
    && (forall i, j {:trigger Before(p[i], p[j])} :: 0 <= i < j < |p| ==> Before(p[i], p[j]))
    && (forall i :: 0 <= i < |p| ==> p[i].off % 4 == 0 && p[i].off + HDR + MIN <= size)
    && (forall i, j {:trigger Neighbours(p[i], p[j])} :: 0 <= i < j < |p| && j == i + 1 ==> Neighbours(p[i], p[j]))
  }

  predicate Neighbours(a: Block, b: Block) { a.used || b.used }

  /** Where the block after block i starts; the end marker follows the last block. */
  function Next(p: seq<Block>, size: int, i: int): int
    requires 0 <= i < |p|
  {
    if i + 1 < |p| then p[i + 1].off else size
  }

  /** The payload size of block i. */
  function Avail(p: seq<Block>, size: int, i: int): int
    requires 0 <= i < |p|
  {
    Next(p, size, i) - p[i].off - HDR
  }

  /** The first block from i on that satisfies the search of mem_malloc. */
  predicate Fits(p: seq<Block>, size: int, req: int, i: int)
    requires 0 <= i < |p|
  {
    !p[i].used && Avail(p, size, i) >= req
  }

  function FirstFit(p: seq<Block>, size: int, req: int, from: nat): (i: nat)
    requires from <= |p|
    ensures from <= i <= |p|
    ensures i < |p| ==> Fits(p, size, req, i)
    ensures forall j :: from <= j < i ==> !Fits(p, size, req, j)
    decreases |p| - from
  {
    if from == |p| || Fits(p, size, req, from) then from else FirstFit(p, size, req, from + 1)
  }

  /** The lowest free block, as an index. */
  function FirstFree(p: seq<Block>, from: nat): (i: nat)
    requires from <= |p|
    ensures from <= i <= |p|
    ensures i < |p| ==> !p[i].used
    ensures forall j :: from <= j < i ==> p[j].used
    decreases |p| - from
  {
    if from == |p| || !p[from].used then from else FirstFree(p, from + 1)
  }

  /** lfree: the offset of the lowest free block, or the end of the heap. */
  function LowestFree(p: seq<Block>, size: int): int
  {
    var i := FirstFree(p, 0);
    if i < |p| then p[i].off else size
  }

  /** Taking block i for a request: split if the remainder can hold a block. */
  function Take(p: seq<Block>, size: int, req: int, i: nat): seq<Block>
    requires i < |p|
  {
    if Avail(p, size, i) >= req + HDR + MIN then
      p[..i] + [Block(p[i].off, true), Block(p[i].off + HDR + req, false)] + p[i + 1..]
    else
      p[..i] + [Block(p[i].off, true)] + p[i + 1..]
  }

  /** Releasing block i: merge with a free successor, then with a free predecessor. */
  function MergeNext(p: seq<Block>, i: nat): seq<Block>
    requires i < |p|
  {
    var b := Block(p[i].off, false);
    if i + 1 < |p| && !p[i + 1].used then p[..i] + [b] + p[i + 2..] else p[..i] + [b] + p[i + 1..]
  }

  function MergePrev(p: seq<Block>, i: nat): seq<Block>
    requires i < |p|
  {
    if i > 0 && !p[i - 1].used then p[..i] + p[i + 1..] else p
  }

  function Release(p: seq<Block>, i: nat): seq<Block>
    requires i < |p|
  {
    MergePrev(MergeNext(p, i), i)
  }

  /** Shrinking block i to n bytes of payload. */
  function Shrink(p: seq<Block>, size: int, i: nat, n: int): seq<Block>
    requires i < |p|
  {
    var b := Block(p[i].off + HDR + n, false);
    if n >= Avail(p, size, i) then p
    else if i + 1 < |p| && !p[i + 1].used then p[..i + 1] + [b] + p[i + 2..]
    else if n + HDR + MIN <= Avail(p, size, i) then p[..i + 1] + [b] + p[i + 1..]
    else p
  }

  // ----- every operation keeps the tiling ------------------------------------------------

  lemma TakeTiles(p: seq<Block>, size: int, req: int, i: nat)
    requires Tiles(p, size) && i < |p| && !p[i].used
    requires MIN <= req <= Avail(p, size, i) && req % 4 == 0
    ensures Tiles(Take(p, size, req, i), size)
  {
    var q := Take(p, size, req, i);
    if |q| == |p| {
      forall a, b | 0 <= a < b < |q| ensures Before(q[a], q[b]) {
        assert Before(p[a], p[b]);
      }
      forall a, b | 0 <= a < b < |q| && b == a + 1 ensures Neighbours(q[a], q[b]) {
        assert Neighbours(p[a], p[a + 1]);
      }
    } else {
      TakeSplitTiles(p, size, req, i, q);
    }
  }

  lemma TakeSplitTiles(p: seq<Block>, size: int, req: int, i: nat, q: seq<Block>)
    requires Tiles(p, size) && i < |p| && !p[i].used
    requires MIN <= req && req % 4 == 0 && req + HDR + MIN <= Avail(p, size, i)
    requires q == p[..i] + [Block(p[i].off, true), Block(p[i].off + HDR + req, false)] + p[i + 1..]
    ensures Tiles(q, size)
  {
    forall a, b | 0 <= a < b < |q| ensures Before(q[a], q[b]) {
      InsertedBefore(p, i, q, a, b);
    }
    forall a, b | 0 <= a < b < |q| && b == a + 1 ensures Neighbours(q[a], q[b]) {
      if a < i - 1 {
        assert Neighbours(p[a], p[a + 1]);
      } else if a > i + 1 {
        assert Neighbours(p[a - 1], p[a]);
      } else if a == i + 1 {
        assert Neighbours(p[i], p[i + 1]);
      }
    }
  }

  /** A block put behind block i with room on both sides keeps the order. */
  lemma InsertedBefore(p: seq<Block>, i: nat, q: seq<Block>, a: int, b: int)
    requires i < |p| && |q| == |p| + 1 && 0 <= a < b < |q|
    requires forall x, y {:trigger Before(p[x], p[y])} :: 0 <= x < y < |p| ==> Before(p[x], p[y])
    requires forall x :: 0 <= x <= i ==> q[x].off == p[x].off
    requires forall x :: i + 2 <= x < |q| ==> q[x] == p[x - 1]
    requires Before(q[i], q[i + 1]) && (i + 1 < |p| ==> Before(q[i + 1], p[i + 1]))
    ensures Before(q[a], q[b])
  {
    if b <= i {
      assert Before(p[a], p[b]);
    } else if a >= i + 2 {
      assert Before(p[a - 1], p[b - 1]);
    } else if b == i + 1 {
      assert a < i ==> Before(p[a], p[i]);
    } else if a <= i {
      assert Before(p[a], p[b - 1]);
    } else {
      assert b - 1 > i + 1 ==> Before(p[i + 1], p[b - 1]);
    }
  }

  lemma ReleaseTiles(p: seq<Block>, size: int, i: nat)
    requires Tiles(p, size) && i < |p| && p[i].used
    ensures Tiles(Release(p, i), size)
  {
    var q := MergeNext(p, i);
    var shift := |p| - |q|;
    assert q[..i] == p[..i] && q[i] == Block(p[i].off, false);
    assert forall a :: i < a < |q| ==> q[a] == p[a + shift];
    forall a, b | 0 <= a < b < |q| ensures Before(q[a], q[b]) {
      assert Before(p[if a <= i then a else a + shift], p[if b <= i then b else b + shift]);
    }
    forall a, b | 0 <= a < b < |q| && b == a + 1 && a != i - 1 ensures Neighbours(q[a], q[b]) {
      if a < i - 1 {
        assert Neighbours(p[a], p[a + 1]);
      } else if a > i {
        assert Neighbours(p[a + shift], p[a + 1 + shift]);
      } else if shift == 1 {
        assert Neighbours(p[i + 1], p[i + 2]);
      }
    }
    MergePrevTiles(q, size, i);
  }

  /** Merging with the predecessor removes the only pair of free neighbours there can be. */
  lemma MergePrevTiles(q: seq<Block>, size: int, i: nat)
    requires i < |q| && q[0].off == 0 && !q[i].used
    requires forall a, b {:trigger Before(q[a], q[b])} :: 0 <= a < b < |q| ==> Before(q[a], q[b])
    requires forall a :: 0 <= a < |q| ==> q[a].off % 4 == 0 && q[a].off + HDR + MIN <= size
    requires forall a, b {:trigger Neighbours(q[a], q[b])} ::
               0 <= a < b < |q| && b == a + 1 && a != i - 1 ==> Neighbours(q[a], q[b])
    ensures Tiles(MergePrev(q, i), size)
  {
    var r := MergePrev(q, i);
    if i > 0 && !q[i - 1].used {
      assert forall a :: 0 <= a < |r| ==> r[a] == q[if a < i then a else a + 1];
      forall a, b | 0 <= a < b < |r| ensures Before(r[a], r[b]) {
        assert Before(q[if a < i then a else a + 1], q[if b < i then b else b + 1]);
      }
      forall a, b | 0 <= a < b < |r| && b == a + 1 ensures Neighbours(r[a], r[b]) {
        if a < i - 1 {
          assert Neighbours(q[a], q[a + 1]);
        } else if a == i - 1 {
          assert Neighbours(q[i], q[i + 1]);
        } else {
          assert Neighbours(q[a + 1], q[a + 2]);
        }
      }
    }
  }

  lemma ShrinkTiles(p: seq<Block>, size: int, i: nat, n: int)
    requires Tiles(p, size) && i < |p| && p[i].used && n >= MIN && n % 4 == 0
    ensures Tiles(Shrink(p, size, i, n), size)
  {
    if n < Avail(p, size, i) {
      if i + 1 < |p| && !p[i + 1].used {
        GrowNextTiles(p, size, i, n);
      } else if n + HDR + MIN <= Avail(p, size, i) {
        SplitOffTiles(p, size, i, n);
      }
    }
  }

  lemma GrowNextTiles(p: seq<Block>, size: int, i: nat, n: int)
    requires Tiles(p, size) && i + 1 < |p| && !p[i + 1].used && MIN <= n < Avail(p, size, i) && n % 4 == 0
    ensures Tiles(p[..i + 1] + [Block(p[i].off + HDR + n, false)] + p[i + 2..], size)
  {
    var q := p[..i + 1] + [Block(p[i].off + HDR + n, false)] + p[i + 2..];
    forall a, b | 0 <= a < b < |q| ensures Before(q[a], q[b]) {
      assert Before(p[a], p[b]);
      assert a < i ==> Before(p[a], p[i]);
    }
    forall a, b | 0 <= a < b < |q| && b == a + 1 ensures Neighbours(q[a], q[b]) {
      assert Neighbours(p[a], p[a + 1]);
    }
  }

  lemma SplitOffTiles(p: seq<Block>, size: int, i: nat, n: int)
    requires Tiles(p, size) && i < |p| && p[i].used && n >= MIN && n % 4 == 0
    requires n + HDR + MIN <= Avail(p, size, i) && (i + 1 < |p| ==> p[i + 1].used)
    ensures Tiles(p[..i + 1] + [Block(p[i].off + HDR + n, false)] + p[i + 1..], size)
  {
    var q := p[..i + 1] + [Block(p[i].off + HDR + n, false)] + p[i + 1..];
    assert forall x :: 0 <= x <= i ==> q[x] == p[x];
    assert forall x :: i + 2 <= x < |q| ==> q[x] == p[x - 1];
    forall a, b | 0 <= a < b < |q| ensures Before(q[a], q[b]) {
      InsertedBefore(p, i, q, a, b);
    }
    forall a, b | 0 <= a < b < |q| && b == a + 1 ensures Neighbours(q[a], q[b]) {
      if a < i {
        assert Neighbours(p[a], p[a + 1]);
      } else if a > i + 1 {
        assert Neighbours(p[a - 1], p[a]);
      }
    }
  }

  /** mem_free right after mem_malloc restores the partition, and with it lfree. */
  lemma FreeUndoesMalloc(p: seq<Block>, size: int, req: int)
    requires Tiles(p, size) && MIN <= req && FirstFit(p, size, req, 0) < |p|
    ensures var i := FirstFit(p, size, req, 0); Release(Take(p, size, req, i), i) == p
  {
    var i := FirstFit(p, size, req, 0);
    var q := Take(p, size, req, i);
    assert i > 0 ==> Neighbours(p[i - 1], p[i]);
    assert i + 1 < |p| ==> Neighbours(p[i], p[i + 1]);
    assert MergeNext(q, i) == p;
  }

  // ----- the lowest-free hint ----------------------------------------------------------------

  lemma FirstFreeIs(p: seq<Block>, i: nat)
    requires i <= |p| && (forall j :: 0 <= j < i ==> p[j].used) && (i < |p| ==> !p[i].used)
    ensures FirstFree(p, 0) == i
  {
  }

  /** Searching from the hint finds the first fit of the whole heap. */
  lemma FitFromHint(p: seq<Block>, size: int, req: int, i: nat)
    requires i <= |p| && forall j :: 0 <= j < i ==> !Fits(p, size, req, j)
    requires i < |p| ==> Fits(p, size, req, i)
    ensures FirstFit(p, size, req, 0) == i
  {
  }

  /** A request is refused exactly when no free block can hold it. */
  lemma RefusedOnlyWhenFull(p: seq<Block>, size: int, req: int)
    ensures FirstFit(p, size, req, 0) == |p| <==> forall i :: 0 <= i < |p| && !p[i].used ==> Avail(p, size, i) < req
  {
    var i := FirstFit(p, size, req, 0);
    if i == |p| {
      forall j | 0 <= j < |p| && !p[j].used ensures Avail(p, size, j) < req {
        assert !Fits(p, size, req, j);
      }
    }
  }

  /** Taking a block above the hint leaves the hint right. */
  lemma TakeKeepsHint(p: seq<Block>, size: int, req: int, i: nat)
    requires FirstFree(p, 0) < i < |p|
    ensures LowestFree(Take(p, size, req, i), size) == LowestFree(p, size)
  {
    FirstFreeIs(Take(p, size, req, i), FirstFree(p, 0));
  }

  /** Freeing a block lowers the hint to it if it is below. */
  lemma MarkFreeHint(p: seq<Block>, size: int, i: nat)
    requires Tiles(p, size) && i < |p| && p[i].used
    ensures LowestFree(p[..i] + [Block(p[i].off, false)] + p[i + 1..], size)
            == if p[i].off < LowestFree(p, size) then p[i].off else LowestFree(p, size)
  {
    var q := p[..i] + [Block(p[i].off, false)] + p[i + 1..];
    var f := FirstFree(p, 0);
    assert f < i ==> Before(p[f], p[i]);
    assert i < f < |p| ==> Before(p[i], p[f]);
    FirstFreeIs(q, if i < f then i else f);
  }

  /** Merging two free blocks leaves the hint right. */
  lemma UnlinkKeepsHint(p: seq<Block>, size: int, i: nat)
    requires i + 1 < |p| && !p[i].used
    ensures LowestFree(p[..i + 1] + p[i + 2..], size) == LowestFree(p, size)
  {
    var q := p[..i + 1] + p[i + 2..];
    FirstFreeIs(q, FirstFree(p, 0));
  }

  /** A free block put behind used block i becomes the hint if it is below. */
  lemma InsertFreeHint(p: seq<Block>, size: int, i: nat, b: Block)
    requires Tiles(p, size) && i < |p| && p[i].used && !b.used && p[i].off < b.off < Next(p, size, i)
    ensures LowestFree(p[..i + 1] + [b] + p[i + 1..], size)
         == if b.off < LowestFree(p, size) then b.off else LowestFree(p, size)
  {
    var q := p[..i + 1] + [b] + p[i + 1..];
    var f := FirstFree(p, 0);
    assert f < i ==> Before(p[f], p[i]);
    assert i + 1 < f < |p| ==> Before(p[i + 1], p[f]);
    FirstFreeIs(q, if i < f then i + 1 else f);
  }

  /** Moving free block i + 1 moves the hint with it. */
  lemma MoveHint(p: seq<Block>, size: int, i: nat, b: Block)
    requires Tiles(p, size) && i + 1 < |p| && p[i].used && !p[i + 1].used && !b.used
    ensures LowestFree(p[..i + 1] + [b] + p[i + 2..], size)
            == if LowestFree(p, size) == p[i + 1].off then b.off else LowestFree(p, size)
  {
    var q := p[..i + 1] + [b] + p[i + 2..];
    var f := FirstFree(p, 0);
    assert f < i + 1 ==> Before(p[f], p[i + 1]);
    FirstFreeIs(q, f);
  }
}
