/** Exactly what each heap operation does to the clients' blocks: together with the tiling
    this determines the whole partition (src/lwip/src/core/mem.c). */
module HeapClients {
  import opened HeapSpec

  /** One of the blocks from a on and below b belongs to a client, has its header at off and
      len bytes of payload. */
  ghost predicate OwnsIn(p: seq<Block>, size: int, a: nat, b: nat, off: int, len: int)
    requires a <= b <= |p|
  {
    exists i :: a <= i < b && p[i].used && p[i].off == off && Avail(p, size, i) == len
  }

  ghost predicate Owns(p: seq<Block>, size: int, off: int, len: int)
  {
    OwnsIn(p, size, 0, |p|, off, len)
  }

  lemma OwnsParts(p: seq<Block>, size: int, a: nat, b: nat, off: int, len: int)
    requires a <= b <= |p|
    ensures Owns(p, size, off, len) <==>
              OwnsIn(p, size, 0, a, off, len) || OwnsIn(p, size, a, b, off, len) || OwnsIn(p, size, b, |p|, off, len)
  {
  }

  /** The blocks in front of block a are the same in p and q. */
  lemma SameFront(p: seq<Block>, q: seq<Block>, size: int, a: nat, off: int, len: int)
    requires a <= |p| && a <= |q| && p[..a] == q[..a]
    requires a > 0 && p[a - 1].used ==> Next(p, size, a - 1) == Next(q, size, a - 1)
    ensures OwnsIn(p, size, 0, a, off, len) <==> OwnsIn(q, size, 0, a, off, len)
  {
    forall i | 0 <= i < a && p[i].used ensures p[i] == q[i] && Avail(p, size, i) == Avail(q, size, i) {
      assert p[..a][i] == q[..a][i];
      assert i + 1 < a ==> p[..a][i + 1] == q[..a][i + 1];
    }
  }

  /** The blocks from block b of p and block c of q on are the same. */
  lemma SameBack(p: seq<Block>, q: seq<Block>, size: int, b: nat, c: nat, off: int, len: int)
    requires b <= |p| && c <= |q| && p[b..] == q[c..]
    ensures OwnsIn(p, size, b, |p|, off, len) <==> OwnsIn(q, size, c, |q|, off, len)
  {
    var d := c - b;
    assert |p| - b == |p[b..]| == |q| - c;
    forall i | b <= i < |p| ensures p[i] == q[i + d] && Avail(p, size, i) == Avail(q, size, i + d) {
      assert p[b..][i - b] == q[c..][i - b];
      assert i + 1 < |p| ==> p[b..][i + 1 - b] == q[c..][i + 1 - b];
    }
    if OwnsIn(q, size, c, |q|, off, len) {
      var k :| c <= k < |q| && q[k].used && q[k].off == off && Avail(q, size, k) == len;
      assert p[k - d] == q[k - d + d];
    }
  }

  /** Blocks in front of block i lie below it, those behind it above. */
  lemma OwnsElsewhere(p: seq<Block>, size: int, i: nat, a: nat, b: nat, off: int, len: int)
    requires Tiles(p, size) && i < |p| && a <= i < b <= |p|
    ensures OwnsIn(p, size, 0, a, off, len) || OwnsIn(p, size, b, |p|, off, len) ==> off != p[i].off
  {
    if OwnsIn(p, size, 0, a, off, len) {
      var j :| 0 <= j < a && p[j].used && p[j].off == off && Avail(p, size, j) == len;
      assert Before(p[j], p[i]);
    } else if OwnsIn(p, size, b, |p|, off, len) {
      var j :| b <= j < |p| && p[j].used && p[j].off == off && Avail(p, size, j) == len;
      assert Before(p[i], p[j]);
    }
  }

  /** Block i is the only one of a stretch that can have an owner. */
  lemma OneOwner(p: seq<Block>, size: int, a: nat, b: nat, i: nat, off: int, len: int)
    requires a <= i < b <= |p| && forall j :: a <= j < b && j != i ==> !p[j].used
    ensures OwnsIn(p, size, a, b, off, len) <==> p[i].used && off == p[i].off && len == Avail(p, size, i)
  {
  }

  /** q is p with the blocks from a on and below b replaced by those below c. */
  lemma Replaced(p: seq<Block>, q: seq<Block>, size: int, a: nat, b: nat, c: nat, off: int, len: int)
    requires a <= b <= |p| && a <= c <= |q| && p[..a] == q[..a] && p[b..] == q[c..]
    requires a > 0 && p[a - 1].used ==> Next(p, size, a - 1) == Next(q, size, a - 1)
    ensures var others := OwnsIn(p, size, 0, a, off, len) || OwnsIn(p, size, b, |p|, off, len);
            && (Owns(p, size, off, len) <==> others || OwnsIn(p, size, a, b, off, len))
            && (Owns(q, size, off, len) <==> others || OwnsIn(q, size, a, c, off, len))
  {
    SameFront(p, q, size, a, off, len);
    SameBack(p, q, size, b, c, off, len);
    hide OwnsIn;
    OwnsParts(p, size, a, b, off, len);
    OwnsParts(q, size, a, c, off, len);
  }

  /** Allocation gives one client a block of the size asked for, or of up to one smallest
      block more if the rest would not make one, and leaves the other clients alone. */
  lemma TakeOwns(p: seq<Block>, size: int, req: int, i: nat, off: int, len: int) returns (given: int)
    requires Tiles(p, size) && i < |p| && !p[i].used && MIN <= req <= Avail(p, size, i)
    ensures req <= given < req + HDR + MIN && (given == req || given == Avail(p, size, i))
    ensures Owns(Take(p, size, req, i), size, off, len)
            <==> Owns(p, size, off, len) || (off == p[i].off && len == given)
  {
    var q := Take(p, size, req, i);
    var c := i + 1 + |q| - |p|;
    given := Avail(q, size, i);
    assert p[i + 1..] == q[c..];
    OneOwner(p, size, i, i + 1, i, off, len);
    OneOwner(q, size, i, c, i, off, len);
    hide Tiles, OwnsIn, Owns;
    Replaced(p, q, size, i, i + 1, c, off, len);
  }

  /** Releasing takes just this block from its client. */
  lemma ReleaseOwns(p: seq<Block>, size: int, i: nat, off: int, len: int)
    requires Tiles(p, size) && i < |p| && p[i].used
    ensures Owns(Release(p, i), size, off, len) <==> Owns(p, size, off, len) && off != p[i].off
  {
    var q := Release(p, i);
    var a := if i > 0 && !p[i - 1].used then i - 1 else i;
    var b := if i + 1 < |p| && !p[i + 1].used then i + 2 else i + 1;
    ReleaseIs(p, i, a, b);
    OwnsElsewhere(p, size, i, a, b, off, len);
    OneOwner(p, size, a, b, i, off, len);
    OneOwner(q, size, a, a + 1, a, off, len);
    hide Tiles, OwnsIn, Owns, Release;
    Replaced(p, q, size, a, b, a + 1, off, len);
  }

  lemma ReleaseIs(p: seq<Block>, i: nat, a: nat, b: nat)
    requires i < |p| && a == (if i > 0 && !p[i - 1].used then i - 1 else i)
    requires b == if i + 1 < |p| && !p[i + 1].used then i + 2 else i + 1
    ensures var q := Release(p, i);
            a < |q| && p[..a] == q[..a] && p[b..] == q[a + 1..] && q[a] == Block(p[a].off, false)
  {
  }

  lemma TrimmedTo(p: seq<Block>, size: int, i: nat, n: int)
    requires i < |p|
    ensures i < |Shrink(p, size, i, n)|
    ensures var avail := Avail(p, size, i);
            Avail(Shrink(p, size, i, n), size, i) ==
            if n < avail && ((i + 1 < |p| && !p[i + 1].used) || n + HDR + MIN <= avail) then n else avail
  {
  }

  /** Trimming leaves the client n bytes of its block, or all of it if the rest can neither
      join a free block nor make one; nobody else is affected. */
  lemma ShrinkOwns(p: seq<Block>, size: int, i: nat, n: int, off: int, len: int)
    requires Tiles(p, size) && i < |p| && p[i].used && n >= MIN
    ensures var avail := Avail(p, size, i);
            var cut := n < avail && ((i + 1 < |p| && !p[i + 1].used) || n + HDR + MIN <= avail);
            Owns(Shrink(p, size, i, n), size, off, len)
            <==> if off == p[i].off then len == (if cut then n else avail) else Owns(p, size, off, len)
  {
    var q := Shrink(p, size, i, n);
    var b := if q != p && i + 1 < |p| && !p[i + 1].used then i + 2 else i + 1;
    var c := if q != p then i + 2 else i + 1;
    assert p[..i] == q[..i] && p[b..] == q[c..] && q[i] == p[i] && (c == i + 2 ==> !q[i + 1].used);
    OwnsElsewhere(p, size, i, i, b, off, len);
    OneOwner(p, size, i, b, i, off, len);
    OneOwner(q, size, i, c, i, off, len);
    TrimmedTo(p, size, i, n);
    hide Tiles, OwnsIn, Owns, Shrink, Avail;
    Replaced(p, q, size, i, b, c, off, len);
  }
}
