/** The in-band headers of the heap: each block starts with the offsets of its
    neighbours and its state, in the same memory that holds the clients' data. */
module HeapMemory {
  import opened HeapSpec

  // Offsets of the fields of struct mem.
  const NEXT: int := 0
  const PREV: int := 4
  const USED: int := 8

  function Prev(p: seq<Block>, i: int): int
    requires 0 <= i < |p|
  {
    if i == 0 then 0 else p[i - 1].off
  }

  predicate Header(m: seq<int>, off: int, next: int, prev: int, used: bool)
  {
    && 0 <= off && off + HDR <= |m|
    && m[off + NEXT] == next && m[off + PREV] == prev && m[off + USED] == (if used then 1 else 0)
  }

  predicate HeaderAt(m: seq<int>, p: seq<Block>, size: int, i: int)
    requires 0 <= i < |p|
  {
    Header(m, p[i].off, Next(p, size, i), Prev(p, i), p[i].used)
  }

  /** The memory holds the partition p in its headers, and the end marker. */
  ghost predicate Headers(m: seq<int>, p: seq<Block>, size: int)
  {
    && |m| == size + HDR
    && (forall i {:trigger HeaderAt(m, p, size, i)} :: 0 <= i < |p| ==> HeaderAt(m, p, size, i))
    && Header(m, size, size, size, true)
  }

  /** The order of the blocks without the rule on free neighbours. */
  ghost predicate Tiles0(p: seq<Block>, size: int)
  {
    && p != [] && p[0].off == 0
    && (forall i, j {:trigger Before(p[i], p[j])} :: 0 <= i < j < |p| ==> Before(p[i], p[j]))
    && (forall i :: 0 <= i < |p| ==> p[i].off % 4 == 0 && p[i].off + HDR + MIN <= size)
  }

  lemma TilesTiles0(p: seq<Block>, size: int)
    requires Tiles(p, size)
    ensures Tiles0(p, size)
  {
  }

  /** Address k lies in the payload of block i. */
  predicate InPayload(p: seq<Block>, size: int, i: int, k: int)
  {
    0 <= i < |p| && p[i].off + HDR <= k < Next(p, size, i)
  }

  /** Payload addresses are not header addresses. */
  lemma PayloadApart(p: seq<Block>, size: int, j: int, k: int, o: nat)
    requires Tiles(p, size) && InPayload(p, size, j, k) && o < |p|
    ensures !(p[o].off <= k < p[o].off + HDR) && k < size
    ensures j != o ==> k < p[o].off || Next(p, size, o) <= k
  {
    Ordered(p, size, j, o);
    Ordered(p, size, o, j);
  }

  /** Two memories agree on the header at off. */
  predicate SameHeader(m: seq<int>, m': seq<int>, off: int)
  {
    && |m| == |m'| && 0 <= off && off + HDR <= |m|
    && m[off + NEXT] == m'[off + NEXT] && m[off + PREV] == m'[off + PREV] && m[off + USED] == m'[off + USED]
  }

  /** m' differs from m only in header cells of the blocks starting at a, b and c. */
  predicate OnlyHeaders(m: seq<int>, m': seq<int>, a: int, b: int, c: int)
  {
    && |m| == |m'|
    && forall k :: 0 <= k < |m| && !(a <= k < a + HDR) && !(b <= k < b + HDR) && !(c <= k < c + HDR) ==> m'[k] == m[k]
  }

  lemma Ordered(p: seq<Block>, size: int, i: nat, j: nat)
    requires Tiles(p, size) && i < |p| && j < |p|
    ensures i < j ==> p[i].off + HDR + MIN <= p[j].off && Next(p, size, i) <= p[j].off
    ensures p[i].off + HDR + MIN <= Next(p, size, i) <= size
  {
    assert i < j ==> Before(p[i], p[j]);
    assert i + 1 < |p| ==> Before(p[i], p[i + 1]);
    assert i + 1 < j ==> Before(p[i + 1], p[j]);
  }

  /** What the header of block i holds, and where its neighbours are. */
  lemma HeaderFacts(m: seq<int>, p: seq<Block>, size: int, i: nat)
    requires Tiles0(p, size) && Headers(m, p, size) && i < |p|
    ensures 0 <= p[i].off && p[i].off % 4 == 0 && p[i].off + HDR + MIN <= Next(p, size, i) <= size
    ensures Next(p, size, i) == size || Next(p, size, i) + HDR + MIN <= size
    ensures Header(m, p[i].off, Next(p, size, i), Prev(p, i), p[i].used) && |m| == size + HDR
    ensures Header(m, size, size, size, true) && p[0].off == 0
    ensures i > 0 ==> 0 <= p[i - 1].off < p[i].off
  {
    hide Header;
    assert HeaderAt(m, p, size, i);
    assert i + 1 < |p| ==> Before(p[i], p[i + 1]);
    assert i > 0 ==> Before(p[i - 1], p[i]);
    assert i > 1 ==> Before(p[0], p[i - 1]);
  }

  lemma Carry(m: seq<int>, m': seq<int>, off: int, next: int, prev: int, used: bool)
    requires Header(m, off, next, prev, used) && SameHeader(m, m', off)
    ensures Header(m', off, next, prev, used)
  {
  }

  // ----- a block is inserted behind block i -------------------------------------------------

  /** The headers that insertion has to leave: the two halves and the successor. */
  ghost predicate Inserted(m: seq<int>, m': seq<int>, p: seq<Block>, size: int, i: nat, ptr2: int, used: bool)
    requires i < |p|
  {
    && |m'| == |m|
    && Header(m', p[i].off, ptr2, Prev(p, i), used)
    && Header(m', ptr2, Next(p, size, i), p[i].off, false)
    && (i + 1 < |p| ==> Header(m', p[i + 1].off, Next(p, size, i + 1), ptr2, p[i + 1].used))
    && (forall j :: 0 <= j < |p| && j != i && j != i + 1 ==> SameHeader(m, m', p[j].off))
    && SameHeader(m, m', size)
  }

  lemma InsertHeaders(m: seq<int>, m': seq<int>, p: seq<Block>, size: int, i: nat, ptr2: int, used: bool, q: seq<Block>)
    requires Headers(m, p, size) && i < |p| && Inserted(m, m', p, size, i, ptr2, used)
    requires q == p[..i] + [Block(p[i].off, used), Block(ptr2, false)] + p[i + 1..]
    ensures Headers(m', q, size)
  {
    hide Header, SameHeader;
    Carry(m, m', size, size, size, true);
    forall j | 0 <= j < |q| ensures HeaderAt(m', q, size, j) {
      if j < i {
        assert HeaderAt(m, p, size, j);
        Carry(m, m', p[j].off, Next(p, size, j), Prev(p, j), p[j].used);
      } else if j > i + 2 {
        assert HeaderAt(m, p, size, j - 1);
        Carry(m, m', p[j - 1].off, Next(p, size, j - 1), Prev(p, j - 1), p[j - 1].used);
      }
    }
  }

  /** Writes confined to block i, an address inside it and the next header leave the
      other headers alone. */
  lemma OthersSame(m: seq<int>, m': seq<int>, p: seq<Block>, size: int, i: nat, ptr2: int)
    requires Tiles(p, size) && Headers(m, p, size) && i < |p|
    requires OnlyHeaders(m, m', p[i].off, ptr2, Next(p, size, i))
    requires p[i].off + HDR <= ptr2 && ptr2 + HDR <= Next(p, size, i)
    ensures forall j :: 0 <= j < |p| && j != i && j != i + 1 ==> SameHeader(m, m', p[j].off)
  {
    forall j | 0 <= j < |p| && j != i && j != i + 1 ensures SameHeader(m, m', p[j].off) {
      Ordered(p, size, i, j);
      Ordered(p, size, j, i);
      assert HeaderAt(m, p, size, j);
      assert i + 1 < j ==> Before(p[i + 1], p[j]);
    }
  }

  // ----- taking a block -------------------------------------------------------------------

  /** The writes that put a free block at ptr2 between ptr and next. */
  function SplitWrites(m: seq<int>, ptr: int, ptr2: int, next: int, size: int): (m': seq<int>)
    requires 0 <= ptr && ptr + HDR <= ptr2 && ptr2 + HDR <= next && (next == size || next + HDR <= size)
             && |m| == size + HDR
    ensures OnlyHeaders(m, m', ptr, ptr2, next) && SameHeader(m, m', size)
    ensures Header(m', ptr2, next, ptr, false)
    ensures m'[ptr + NEXT] == ptr2 && m'[ptr + PREV] == m[ptr + PREV] && m'[ptr + USED] == m[ptr + USED]
    ensures next != size ==>
              m'[next + NEXT] == m[next + NEXT] && m'[next + PREV] == ptr2 && m'[next + USED] == m[next + USED]
  {
    var m1 := m[ptr2 + USED := 0][ptr2 + NEXT := next][ptr2 + PREV := ptr][ptr + NEXT := ptr2];
    if next != size then m1[next + PREV := ptr2] else m1
  }

  lemma SplitInserts(m: seq<int>, p: seq<Block>, size: int, i: nat, n: int, used: bool, m': seq<int>)
    requires Tiles(p, size) && Headers(m, p, size) && i < |p| && MIN <= n && n + HDR + MIN <= Avail(p, size, i)
    requires var ptr := p[i].off;
             && 0 <= ptr && Next(p, size, i) <= size && (Next(p, size, i) == size || Next(p, size, i) + HDR <= size)
             && m' == SplitWrites(m, ptr, ptr + HDR + n, Next(p, size, i), size)[ptr + USED := if used then 1 else 0]
    ensures Inserted(m, m', p, size, i, p[i].off + HDR + n, used)
    ensures OnlyHeaders(m, m', p[i].off, p[i].off + HDR + n, Next(p, size, i))
  {
    var ptr2 := p[i].off + HDR + n;
    assert HeaderAt(m, p, size, i);
    OthersSame(m, m', p, size, i, ptr2);
    if i + 1 < |p| {
      assert HeaderAt(m, p, size, i + 1);
    }
  }

  // ----- a block is merged into its predecessor ------------------------------------------------

  /** The writes that unlink the block between ptr and next. */
  function UnlinkWrites(m: seq<int>, ptr: int, next: int, size: int): (m': seq<int>)
    requires 0 <= ptr && ptr + HDR <= next && (next == size || next + HDR <= size) && |m| == size + HDR
    ensures OnlyHeaders(m, m', ptr, ptr, next) && SameHeader(m, m', size)
    ensures m'[ptr + NEXT] == next && m'[ptr + PREV] == m[ptr + PREV] && m'[ptr + USED] == m[ptr + USED]
    ensures next != size ==>
              m'[next + NEXT] == m[next + NEXT] && m'[next + PREV] == ptr && m'[next + USED] == m[next + USED]
  {
    var m1 := m[ptr + NEXT := next];
    if next != size then m1[next + PREV := ptr] else m1
  }

  /** The headers that unlinking block i + 1 has to leave. */
  ghost predicate Unlinked(m: seq<int>, m': seq<int>, p: seq<Block>, size: int, i: nat)
    requires i + 1 < |p|
  {
    && |m'| == |m|
    && Header(m', p[i].off, Next(p, size, i + 1), Prev(p, i), p[i].used)
    && (i + 2 < |p| ==> Header(m', p[i + 2].off, Next(p, size, i + 2), p[i].off, p[i + 2].used))
    && (forall j :: 0 <= j < |p| && j != i && j != i + 1 && j != i + 2 ==> SameHeader(m, m', p[j].off))
    && SameHeader(m, m', size)
  }

  lemma UnlinkedHeaders(m: seq<int>, m': seq<int>, p: seq<Block>, size: int, i: nat, q: seq<Block>)
    requires Headers(m, p, size) && i + 1 < |p| && Unlinked(m, m', p, size, i)
    requires q == p[..i + 1] + p[i + 2..]
    ensures Headers(m', q, size)
  {
    hide Header, SameHeader;
    Carry(m, m', size, size, size, true);
    forall j | 0 <= j < |q| ensures HeaderAt(m', q, size, j) {
      if j < i {
        assert HeaderAt(m, p, size, j);
        Carry(m, m', p[j].off, Next(p, size, j), Prev(p, j), p[j].used);
      } else if j > i + 1 {
        assert HeaderAt(m, p, size, j + 1);
        Carry(m, m', p[j + 1].off, Next(p, size, j + 1), Prev(p, j + 1), p[j + 1].used);
      }
    }
  }

  lemma HeaderApart(m: seq<int>, m': seq<int>, a: int, b: int, c: int, off: int)
    requires OnlyHeaders(m, m', a, b, c) && 0 <= off && off + HDR <= |m|
    requires off + HDR <= a || a + HDR <= off
    requires off + HDR <= b || b + HDR <= off
    requires off + HDR <= c || c + HDR <= off
    ensures SameHeader(m, m', off)
  {
  }

  lemma UnlinkWritesUnlink(m: seq<int>, p: seq<Block>, size: int, i: nat, m': seq<int>)
    requires Tiles0(p, size) && Headers(m, p, size) && i + 1 < |p|
    requires var next := Next(p, size, i + 1);
             && 0 <= p[i].off && p[i].off + HDR <= next && (next == size || next + HDR <= size)
             && m' == UnlinkWrites(m, p[i].off, next, size)
    ensures Unlinked(m, m', p, size, i)
  {
    hide UnlinkWrites, Prev;
    assert HeaderAt(m, p, size, i);
    if i + 2 < |p| {
      assert HeaderAt(m, p, size, i + 2);
    }
    forall j | 0 <= j < |p| && j != i && j != i + 1 && j != i + 2 ensures SameHeader(m, m', p[j].off) {
      assert j < i ==> Before(p[j], p[i]);
      assert i + 2 < j ==> Before(p[i + 2], p[j]);
      assert i < j ==> Before(p[i], p[j]);
      assert i + 2 < |p| && j < i + 2 ==> Before(p[j], p[i + 2]);
      assert HeaderAt(m, p, size, j);
      HeaderApart(m, m', p[i].off, p[i].off, Next(p, size, i + 1), p[j].off);
    }
  }

  // ----- a block changes its state ---------------------------------------------------------------

  ghost predicate Marked(m: seq<int>, m': seq<int>, p: seq<Block>, size: int, i: nat, used: bool)
    requires i < |p|
  {
    && |m'| == |m|
    && Header(m', p[i].off, Next(p, size, i), Prev(p, i), used)
    && (forall j :: 0 <= j < |p| && j != i ==> SameHeader(m, m', p[j].off))
    && SameHeader(m, m', size)
  }

  lemma MarkedHeaders(m: seq<int>, m': seq<int>, p: seq<Block>, size: int, i: nat, used: bool, q: seq<Block>)
    requires Headers(m, p, size) && i < |p| && Marked(m, m', p, size, i, used)
    requires q == p[..i] + [Block(p[i].off, used)] + p[i + 1..]
    ensures Headers(m', q, size)
  {
    hide Header, SameHeader;
    Carry(m, m', size, size, size, true);
    forall j | 0 <= j < |q| ensures HeaderAt(m', q, size, j) {
      if j != i {
        assert HeaderAt(m, p, size, j);
        Carry(m, m', p[j].off, Next(p, size, j), Prev(p, j), p[j].used);
      }
    }
  }

  lemma MarkMarks(m: seq<int>, p: seq<Block>, size: int, i: nat, used: bool)
    requires Tiles0(p, size) && Headers(m, p, size) && i < |p|
    ensures 0 <= p[i].off + USED < |m|
    ensures Marked(m, m[p[i].off + USED := if used then 1 else 0], p, size, i, used)
    ensures OnlyHeaders(m, m[p[i].off + USED := if used then 1 else 0], p[i].off, p[i].off, p[i].off)
  {
    assert HeaderAt(m, p, size, i);
    var m' := m[p[i].off + USED := if used then 1 else 0];
    forall j | 0 <= j < |p| && j != i ensures SameHeader(m, m', p[j].off) {
      assert HeaderAt(m, p, size, j);
      assert j < i ==> Before(p[j], p[i]);
      assert i < j ==> Before(p[i], p[j]);
    }
  }

  // ----- the free block behind a shrunk block moves down ---------------------------------------

  ghost predicate Moved(m: seq<int>, m': seq<int>, p: seq<Block>, size: int, i: nat, ptr2: int)
    requires i + 1 < |p|
  {
    && |m'| == |m|
    && Header(m', p[i].off, ptr2, Prev(p, i), p[i].used)
    && Header(m', ptr2, Next(p, size, i + 1), p[i].off, false)
    && (i + 2 < |p| ==> Header(m', p[i + 2].off, Next(p, size, i + 2), ptr2, p[i + 2].used))
    && (forall j :: 0 <= j < |p| && j != i && j != i + 1 && j != i + 2 ==> SameHeader(m, m', p[j].off))
    && SameHeader(m, m', size)
  }

  lemma MovedHeaders(m: seq<int>, m': seq<int>, p: seq<Block>, size: int, i: nat, ptr2: int, q: seq<Block>)
    requires Headers(m, p, size) && i + 1 < |p| && Moved(m, m', p, size, i, ptr2)
    requires q == p[..i + 1] + [Block(ptr2, false)] + p[i + 2..]
    ensures Headers(m', q, size)
  {
    hide Header, SameHeader;
    Carry(m, m', size, size, size, true);
    forall j | 0 <= j < |q| ensures HeaderAt(m', q, size, j) {
      if j < i || j > i + 2 {
        assert HeaderAt(m, p, size, j);
        Carry(m, m', p[j].off, Next(p, size, j), Prev(p, j), p[j].used);
      }
    }
  }

  lemma SplitMoves(m: seq<int>, p: seq<Block>, size: int, i: nat, ptr2: int, m': seq<int>)
    requires Tiles(p, size) && Headers(m, p, size) && i + 1 < |p|
    requires p[i].off + HDR + MIN <= ptr2 < p[i + 1].off
    requires var next := Next(p, size, i + 1);
             && 0 <= p[i].off && ptr2 + HDR <= next && (next == size || next + HDR <= size)
             && m' == SplitWrites(m, p[i].off, ptr2, next, size)
    ensures Moved(m, m', p, size, i, ptr2)
  {
    hide SplitWrites, Prev;
    assert HeaderAt(m, p, size, i);
    if i + 2 < |p| {
      assert HeaderAt(m, p, size, i + 2);
    }
    forall j | 0 <= j < |p| && j != i && j != i + 1 && j != i + 2 ensures SameHeader(m, m', p[j].off) {
      assert j < i ==> Before(p[j], p[i]);
      assert i + 2 < j ==> Before(p[i + 2], p[j]) && Before(p[i + 1], p[i + 2]);
      assert i + 2 < |p| && j < i ==> Before(p[i], p[i + 2]);
      assert HeaderAt(m, p, size, j);
      HeaderApart(m, m', p[i].off, ptr2, Next(p, size, i + 1), p[j].off);
    }
  }

  // ----- clients' data -----------------------------------------------------------------------------

  /** m' holds what the owners of the used blocks stored in m; of block i only
      the part below upto. */
  ghost predicate KeepsData(m: seq<int>, m': seq<int>, p: seq<Block>, size: int, i: int, upto: int)
  {
    && |m| == |m'|
    && forall j, k :: InPayload(p, size, j, k) && p[j].used && (j != i || k < upto) ==> 0 <= k < |m| && m'[k] == m[k]
  }

  /** Writes to the headers of blocks leave all payloads alone. */
  lemma HeaderWritesKeep(m: seq<int>, m': seq<int>, p: seq<Block>, size: int, a: nat, b: nat, c: int)
    requires Tiles(p, size) && |m| == size + HDR && a < |p| && b < |p|
             && (c == size || exists x :: 0 <= x < |p| && p[x].off == c)
    requires OnlyHeaders(m, m', p[a].off, p[b].off, c)
    ensures KeepsData(m, m', p, size, -1, 0)
  {
    hide Tiles;
    forall j, k | InPayload(p, size, j, k) && p[j].used ensures 0 <= k < |m| && m'[k] == m[k] {
      PayloadApart(p, size, j, k, a);
      PayloadApart(p, size, j, k, b);
      if c != size {
        var x :| 0 <= x < |p| && p[x].off == c;
        PayloadApart(p, size, j, k, x);
      }
      Nonnegative(p, size, j);
    }
  }

  lemma Nonnegative(p: seq<Block>, size: int, i: nat)
    requires Tiles(p, size) && i < |p|
    ensures p[i].off >= 0
  {
    Ordered(p, size, 0, i);
  }

  /** Writes to the header of block i, inside block i from ptr2 on, and to the header
      at next leave every other used block's payload alone, and block i's below ptr2.
      The room for the header at ptr2 may reach into the free block behind block i. */
  lemma InnerWritesKeep(m: seq<int>, m': seq<int>, p: seq<Block>, size: int, i: nat, ptr2: int, c: nat)
    requires Tiles(p, size) && |m| == size + HDR && i < c <= |p|
    requires c == i + 1 || (c == i + 2 && !p[i + 1].used)
    requires var next := if c < |p| then p[c].off else size;
             OnlyHeaders(m, m', p[i].off, ptr2, next) && p[i].off <= ptr2 && ptr2 + HDR <= next
    ensures KeepsData(m, m', p, size, i, ptr2)
  {
    hide Tiles;
    forall j, k | InPayload(p, size, j, k) && p[j].used && (j != i || k < ptr2) ensures 0 <= k < |m| && m'[k] == m[k] {
      PayloadApart(p, size, j, k, i);
      Nonnegative(p, size, j);
      if c < |p| {
        PayloadApart(p, size, j, k, c);
      }
      if c == i + 2 {
        PayloadApart(p, size, j, k, i + 1);
      }
    }
  }

  // ----- the effect of the writes on the headers -----------------------------------------------------

  lemma SplitHeaders(m: seq<int>, p: seq<Block>, size: int, i: nat, n: int, used: bool, m': seq<int>)
    requires Tiles(p, size) && Headers(m, p, size) && i < |p| && MIN <= n && n + HDR + MIN <= Avail(p, size, i)
    requires var ptr, next := p[i].off, Next(p, size, i);
             && 0 <= ptr && next <= size && (next == size || next + HDR <= size)
             && m' == SplitWrites(m, ptr, ptr + HDR + n, next, size)[ptr + USED := if used then 1 else 0]
    ensures Headers(m', p[..i] + [Block(p[i].off, used), Block(p[i].off + HDR + n, false)] + p[i + 1..], size)
    ensures OnlyHeaders(m, m', p[i].off, p[i].off + HDR + n, Next(p, size, i))
  {
    hide Tiles, Headers, SplitWrites, Inserted, OnlyHeaders;
    SplitInserts(m, p, size, i, n, used, m');
    InsertHeaders(m, m', p, size, i, p[i].off + HDR + n, used,
                  p[..i] + [Block(p[i].off, used), Block(p[i].off + HDR + n, false)] + p[i + 1..]);
  }

  lemma MarkHeaders(m: seq<int>, p: seq<Block>, size: int, i: nat, used: bool, m': seq<int>)
    requires Tiles(p, size) && Headers(m, p, size) && i < |p| && 0 <= p[i].off + USED < |m|
    requires m' == m[p[i].off + USED := if used then 1 else 0]
    ensures Headers(m', p[..i] + [Block(p[i].off, used)] + p[i + 1..], size)
    ensures OnlyHeaders(m, m', p[i].off, p[i].off, Next(p, size, i))
  {
    TilesTiles0(p, size);
    hide Tiles, Tiles0, Headers, Marked;
    MarkMarks(m, p, size, i, used);
    MarkedHeaders(m, m', p, size, i, used, p[..i] + [Block(p[i].off, used)] + p[i + 1..]);
  }

  /** A client that writes into its own payload leaves every header alone. */
  lemma PayloadWriteKeeps(m: seq<int>, p: seq<Block>, size: int, i: nat, k: int, x: int)
    requires Tiles(p, size) && Headers(m, p, size) && InPayload(p, size, i, k)
    ensures 0 <= k < |m| && Headers(m[k := x], p, size)
    ensures forall j, a :: InPayload(p, size, j, a) && a != k ==> 0 <= a < |m| && m[k := x][a] == m[a]
  {
    PayloadApart(p, size, i, k, i);
    Nonnegative(p, size, i);
    var m' := m[k := x];
    forall j | 0 <= j < |p| ensures HeaderAt(m', p, size, j) {
      PayloadApart(p, size, i, k, j);
      Nonnegative(p, size, j);
      Ordered(p, size, j, j);
      assert HeaderAt(m, p, size, j);
      Carry(m, m', p[j].off, Next(p, size, j), Prev(p, j), p[j].used);
    }
    Carry(m, m', size, size, size, true);
    forall j, a | InPayload(p, size, j, a) && a != k ensures 0 <= a < |m| && m'[a] == m[a] {
      PayloadApart(p, size, j, a, j);
      Nonnegative(p, size, j);
    }
  }
}
