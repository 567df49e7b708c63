/** The Internet checksum (sections 1 and 2 of RFC 1071) and the three algorithms
    and the chain walk that compute it on a little-endian host
    (src/lwip/src/core/inet_chksum.c). */
module Checksum {
  import opened Seq32

  const M16: int := 65535

  /** A 16-bit word from its bytes. */
  function Word(hi: byte, lo: byte): (w: u16)
  {
    256 * (hi as int) + lo
  }

  // ----- reference: one's complement addition of 16-bit words in network order ------

  /** One's complement addition: the carry out of the top goes back in at the bottom. */
  function OnesAdd(a: u16, b: u16): u16
  {
    if a + b > 0xffff then a + b - 0xffff else a + b
  }

  /** The one's complement sum of section 1 of RFC 1071; an odd last byte is padded. */
  function OnesSum(b: seq<byte>): u16
  {
    if b == [] then 0
    else if |b| == 1 then Word(b[0], 0)
    else OnesAdd(Word(b[0], b[1]), OnesSum(b[2..]))
  }

  // ----- plain sums --------------------------------------------------------------------

  /** The sum of the words as a big-endian reader sees them. */
  function BeSum(b: seq<byte>): nat
  {
    if b == [] then 0
    else if |b| == 1 then Word(b[0], 0)
    else Word(b[0], b[1]) + BeSum(b[2..])
  }

  /** The sum of the words as a little-endian host reads them. */
  function LeSum(b: seq<byte>): nat
  {
    if b == [] then 0
    else if |b| == 1 then Word(0, b[0])
    else Word(b[1], b[0]) + LeSum(b[2..])
  }

  /** The 16-bit value a sum folds to: its residue modulo 0xffff, with 0xffff for a
      non-zero multiple. */
  function Canon(n: nat): u16
  {
    if n == 0 then 0 else 1 + (n - 1) % M16
  }

  /** FOLD_U32T */
  function Fold(n: u32): u32 { n / 0x1_0000 + n % 0x1_0000 }

  /** SWAP_BYTES_IN_WORD, and lwip_htons on a little-endian host. */
  function Swap(w: u32): u16 { (w % 256) * 256 + (w / 256) % 256 }

  // ----- arithmetic modulo 0xffff ----------------------------------------------------------

  predicate Cong(a: int, b: int) { (a - b) % M16 == 0 }

  /** Canon is the only 16-bit value with the right residue and the right zero. */
  lemma CanonUnique(n: nat, r: int)
    requires 0 <= r <= 0xffff && Cong(n, r) && (r == 0 <==> n == 0)
    ensures r == Canon(n)
  {
    if n > 0 {
      var k := (n - r) / M16;
      assert n - 1 == M16 * k + (r - 1);
    }
  }

  lemma CanonCong(n: nat)
    ensures Cong(n, Canon(n)) && (Canon(n) == 0 <==> n == 0)
  {
    if n > 0 {
      var k := (n - 1) / M16;
      assert n - Canon(n) == M16 * k;
    }
  }

  lemma CongWitness(a: int, b: int, k: int)
    requires a - b == M16 * k
    ensures Cong(a, b)
  {
  }

  lemma SameCanon(a: nat, b: nat)
    requires Cong(a, b) && (a == 0 <==> b == 0)
    ensures Canon(a) == Canon(b)
  {
    CanonCong(b);
    var k, l := (a - b) / M16, (b - Canon(b)) / M16;
    assert a - Canon(b) == M16 * (k + l);
    CongWitness(a, Canon(b), k + l);
    CanonUnique(a, Canon(b));
  }

  lemma CanonAdd(a: nat, b: nat)
    ensures Canon(Canon(a) + b) == Canon(a + b)
  {
    CanonCong(a);
    var k := (a - Canon(a)) / M16;
    assert (a + b) - (Canon(a) + b) == M16 * k;
    CongWitness(a + b, Canon(a) + b, k);
    SameCanon(a + b, Canon(a) + b);
  }

  lemma CanonReplace(a: nat, b: nat, x: nat)
    requires Canon(a) == Canon(b)
    ensures Canon(a + x) == Canon(b + x)
  {
    CanonAdd(a, x);
    CanonAdd(b, x);
  }

  /** One fold keeps the residue; two folds bring any 32-bit sum to its 16-bit value. */
  lemma FoldTwice(n: u32)
    ensures Fold(n) <= 131070 && (n <= 131070 ==> Fold(n) == Canon(n))
    ensures Fold(Fold(n)) == Canon(n) && Canon(Fold(n)) == Canon(n)
  {
    var f := Fold(n);
    CongWitness(n, f, n / 0x1_0000);
    SameCanon(n, f);
    if n <= 131070 {
      CanonUnique(n, f);
    }
    var g := Fold(f);
    assert n - g == M16 * (n / 0x1_0000 + f / 0x1_0000);
    CongWitness(n, g, n / 0x1_0000 + f / 0x1_0000);
    CanonUnique(n, g);
  }

  /** Swapping the bytes of a folded sum multiplies the sum by 256. */
  lemma SwapCanon(n: nat)
    ensures Swap(Canon(n)) == Canon(256 * n)
  {
    var w := Canon(n);
    CanonCong(n);
    var k := (n - w) / M16;
    assert 256 * n - Swap(w) == M16 * (256 * k + w / 256);
    CongWitness(256 * n, Swap(w), 256 * k + w / 256);
    CanonUnique(256 * n, Swap(w));
  }

  lemma Canon65536(n: nat)
    ensures Canon(65536 * n) == Canon(n)
  {
    CongWitness(65536 * n, n, n);
    SameCanon(65536 * n, n);
  }

  lemma SwapTwice(n: nat)
    ensures Swap(Canon(256 * n)) == Canon(n)
  {
    SwapCanon(256 * n);
    Canon65536(n);
  }

  // ----- sums of byte strings ---------------------------------------------------------------

  lemma {:induction false} BeSumIsOnesSum(b: seq<byte>)
    ensures OnesSum(b) == Canon(BeSum(b))
  {
    if |b| > 1 {
      var w: int := Word(b[0], b[1]);
      BeSumIsOnesSum(b[2..]);
      var s: int := Canon(BeSum(b[2..]));
      CanonAdd(BeSum(b[2..]), w);
      if w + s > 0xffff {
        CongWitness(w + s, OnesAdd(w, s), 1);
      }
      CanonUnique(w + s, OnesAdd(w, s));
    } else if |b| == 1 {
      CanonUnique(Word(b[0], 0), Word(b[0], 0));
    }
  }

  /** Reading the words in the other byte order multiplies the sum by 256. */
  lemma {:induction false} ByteOrder(b: seq<byte>)
    ensures Cong(LeSum(b), 256 * BeSum(b))
    ensures LeSum(b) == 0 <==> BeSum(b) == 0
  {
    if |b| > 1 {
      ByteOrder(b[2..]);
      var k := (LeSum(b[2..]) - 256 * BeSum(b[2..])) / M16;
      assert LeSum(b) - 256 * BeSum(b) == M16 * (k - b[0]);
      CongWitness(LeSum(b), 256 * BeSum(b), k - b[0]);
    } else if |b| == 1 {
      CongWitness(LeSum(b), 256 * BeSum(b), -(b[0] as int));
    }
  }

  /** The host-order value of the RFC's sum is what a little-endian sum folds to. */
  lemma HostOrder(b: seq<byte>)
    ensures Canon(LeSum(b)) == Swap(OnesSum(b))
  {
    ByteOrder(b);
    SameCanon(LeSum(b), 256 * BeSum(b));
    SwapCanon(BeSum(b));
    BeSumIsOnesSum(b);
  }

  lemma {:induction false} EvenConcat(a: seq<byte>, b: seq<byte>)
    requires |a| % 2 == 0
    ensures LeSum(a + b) == LeSum(a) + LeSum(b)
    ensures BeSum(a + b) == BeSum(a) + BeSum(b)
  {
    if a == [] {
      assert a + b == b;
    } else {
      assert (a + b)[2..] == a[2..] + b;
      EvenConcat(a[2..], b);
    }
  }

  lemma {:induction false} OddConcat(a: seq<byte>, b: seq<byte>)
    requires |a| % 2 == 1
    ensures LeSum(a + b) == LeSum(a) + LeSum([0] + b)
  {
    if |a| == 1 {
      assert a + b == [a[0]] + b;
      if b != [] {
        assert ([a[0]] + b)[2..] == b[1..] == ([0] + b)[2..];
      }
    } else {
      assert (a + b)[2..] == a[2..] + b;
      OddConcat(a[2..], b);
    }
  }

  /** One place further on, the first byte is a high byte and the rest follows. */
  lemma ShiftedHead(b: seq<byte>)
    requires b != []
    ensures LeSum([0] + b) == Word(b[0], 0) + LeSum(b[1..])
  {
    var s := [0] + b;
    assert s[0] == 0 && s[1] == b[0] && s[2..] == b[1..];
  }

  /** Moving the bytes by one place multiplies the sum by 256. */
  lemma {:induction false} ShiftedSum(b: seq<byte>)
    ensures Cong(LeSum([0] + b), 256 * LeSum(b))
    ensures LeSum([0] + b) == 0 <==> LeSum(b) == 0
  {
    if |b| == 1 {
      ShiftedHead(b);
      assert LeSum(b[1..]) == 0 && LeSum(b) == b[0];
      CongWitness(LeSum([0] + b), 256 * LeSum(b), 0);
    } else if |b| > 1 {
      ShiftedHead(b);
      ShiftedSum(b[2..]);
      assert b[1..] == [b[1]] + b[2..];
      OddConcat([b[1]], b[2..]);
      var k := (LeSum([0] + b[2..]) - 256 * LeSum(b[2..])) / M16;
      assert LeSum([0] + b) - 256 * LeSum(b) == M16 * (k - b[1]);
      CongWitness(LeSum([0] + b), 256 * LeSum(b), k - b[1]);
    }
  }

  lemma {:induction false} SumBound(b: seq<byte>)
    ensures LeSum(b) <= 0xffff * ((|b| + 1) / 2)
    ensures BeSum(b) <= 0xffff * ((|b| + 1) / 2)
  {
    if |b| > 1 {
      SumBound(b[2..]);
    }
  }

  // ----- the three algorithms ------------------------------------------------------------------

  /** The 16-bit result of lwip_standard_chksum: the RFC's sum in host byte order. */
  ghost predicate IsChksum(b: seq<byte>, r: u16) { r == Swap(OnesSum(b)) }

  /** lwip_standard_chksum, version 1: big-endian words, byte by byte. */
  method Chksum1(b: seq<byte>) returns (r: u16)
    requires |b| <= 0x20000
    ensures IsChksum(b, r)
  {
    var acc: u32 := 0;
    var i := 0;
    while |b| - i > 1
      invariant 0 <= i <= |b| && i % 2 == 0
      invariant acc == BeSum(b[..i]) <= 0xffff * (i / 2)
    {
      BeSnoc(b, i);
      acc := acc + Word(b[i], b[i + 1]);
      i := i + 2;
    }
    if |b| - i > 0 {
      EvenConcat(b[..i], b[i..]);
      assert b == b[..i] + b[i..] && b[i..] == [b[i]];
      acc := acc + Word(b[i], 0);
    } else {
      assert b[..i] == b;
    }
    FoldTwice(acc);
    acc := Fold(acc);
    if acc / 0x1_0000 != 0 {
      acc := Fold(acc);
    }
    BeSumIsOnesSum(b);
    r := Swap(acc);
  }

  lemma BeSnoc(b: seq<byte>, i: nat)
    requires i + 2 <= |b| && i % 2 == 0
    ensures BeSum(b[..i + 2]) == BeSum(b[..i]) + Word(b[i], b[i + 1])
    ensures LeSum(b[..i + 2]) == LeSum(b[..i]) + Word(b[i + 1], b[i])
  {
    assert b[..i + 2] == b[..i] + [b[i], b[i + 1]];
    EvenConcat(b[..i], [b[i], b[i + 1]]);
    assert [b[i], b[i + 1]][2..] == [];
  }

  /** The 16-bit words of p added to a 32-bit sum; i is where an odd last byte is. */
  method AddWords(p: seq<byte>, sum0: u32) returns (sum: u32, i: nat)
    requires sum0 + 0xffff * (|p| / 2) < TWO32
    ensures i <= |p| <= i + 1 && i % 2 == 0
    ensures sum == sum0 + LeSum(p[..i])
  {
    sum, i := sum0, 0;
    while |p| - i > 1
      invariant i <= |p| && i % 2 == 0
      invariant sum == sum0 + LeSum(p[..i]) <= sum0 + 0xffff * (i / 2)
    {
      BeSnoc(p, i);
      sum := sum + Word(p[i + 1], p[i]);
      i := i + 2;
    }
  }

  /** What version 2 and 3 add up when the buffer starts at an odd address: the
      bytes one place further on. */
  lemma OddStart(b: seq<byte>)
    ensures Swap(Canon(LeSum([0] + b))) == Canon(LeSum(b))
  {
    ShiftedSum(b);
    SameCanon(LeSum([0] + b), 256 * LeSum(b));
    SwapTwice(LeSum(b));
  }

  lemma ZeroByte()
    ensures LeSum([0] + []) == LeSum([]) == 0
  {
    assert [0] + [] == [0];
  }

  lemma NoBytes(p: seq<byte>)
    ensures LeSum(p[..0]) == 0
  {
  }

  lemma LastByte(p: seq<byte>, i: nat)
    requires i <= |p| <= i + 1 && i % 2 == 0
    ensures LeSum(p) == LeSum(p[..i]) + (if i < |p| then p[i] as int else 0)
  {
    assert p == p[..i] + p[i..];
    EvenConcat(p[..i], p[i..]);
  }

  /** The sum of the words after an odd start address, with the first byte in the
      high half and an odd last byte in the low half of t. */
  function HeadByte(b: seq<byte>, odd: bool): u16 { if odd && b != [] then Word(b[0], 0) else 0 }
  function Aligned(b: seq<byte>, odd: bool): seq<byte> { if odd && b != [] then b[1..] else b }
  function Placed(b: seq<byte>, odd: bool): nat { HeadByte(b, odd) + LeSum(Aligned(b, odd)) }

  /** Whatever the start parity, folding and swapping back gives the RFC's sum. */
  lemma PlacedIsChksum(b: seq<byte>, odd: bool)
    ensures var c := Canon(Placed(b, odd)); IsChksum(b, if odd then Swap(c) else c)
  {
    hide LeSum, Swap, Canon, OnesSum;
    HostOrder(b);
    if odd {
      OddStart(b);
      if b == [] {
        ZeroByte();
      } else {
        ShiftedHead(b);
      }
    }
  }

  /** lwip_standard_chksum, version 2: aligned 16-bit words, for any start parity. */
  method Chksum2(b: seq<byte>, addr: nat) returns (r: u16)
    requires |b| <= 0x20000
    ensures IsChksum(b, r)
  {
    hide LeSum, IsChksum, Canon, Fold, Swap;
    var odd := addr % 2 == 1;
    var t: int, p := HeadByte(b, odd), Aligned(b, odd);
    var sum: u32, i := AddWords(p, 0);
    LastByte(p, i);
    SumBound(p[..i]);
    if i < |p| {
      t := t + p[i];
    }
    sum := sum + t;
    FoldTwice(sum);
    PlacedIsChksum(b, odd);
    sum := Fold(Fold(sum));
    r := if odd then Swap(sum) else sum;
  }

  // ----- version 3: 32-bit words with end-around carry ----------------------------------------

  /** 32-bit addition that adds the carry back in. */
  method AddCarry(sum: u32, x: u32) returns (r: u32)
    ensures Canon(r) == Canon(sum + x)
  {
    r := Add(sum, x);
    if r < sum {
      r := r + 1;
      CongWitness(sum + x, r, 65537);
    } else {
      CongWitness(sum + x, r, 0);
    }
    SameCanon(sum + x, r);
  }

  /** A 32-bit word on a little-endian host, from its halves. */
  function Long(w0: u16, w1: u16): u32 { w0 + 65536 * (w1 as int) }

  /** A 32-bit word weighs as much as its two halves. */
  lemma LongWeight(n: nat, w0: u16, w1: u16)
    ensures Canon(n + Long(w0, w1)) == Canon(n + (w0 as int) + w1)
  {
    CongWitness(n + Long(w0, w1), n + (w0 as int) + w1, w1);
    SameCanon(n + Long(w0, w1), n + (w0 as int) + w1);
  }

  /** One 32-bit word at index i of p goes into the sum. */
  method AddLong(p: seq<byte>, i: nat, sum0: u32) returns (sum: u32)
    requires i + 4 <= |p| && i % 2 == 0 && Canon(sum0) == Canon(LeSum(p[..i]))
    ensures Canon(sum) == Canon(LeSum(p[..i + 4]))
  {
    hide LeSum, BeSum, Canon, Word;
    var w0, w1 := Word(p[i + 1], p[i]), Word(p[i + 3], p[i + 2]);
    BeSnoc(p, i);
    BeSnoc(p, i + 2);
    sum := AddCarry(sum0, Long(w0, w1));
    CanonReplace(sum0, LeSum(p[..i]), Long(w0, w1));
    LongWeight(LeSum(p[..i]), w0, w1);
  }

  /** lwip_standard_chksum, version 3: unrolled 32-bit words between aligned ends. */
  method Chksum3(b: seq<byte>, addr: nat) returns (r: u16)
    ensures IsChksum(b, r)
  {
    hide LeSum, BeSum, IsChksum, Canon, Fold, Swap;
    var odd := addr % 2 == 1;
    var t: int, p := HeadByte(b, odd), Aligned(b, odd);
    var sum: u32, i := 0, 0;
    NoBytes(p);
    if (addr + |b| - |p|) % 4 != 0 && |p| > 1 {
      BeSnoc(p, 0);
      sum, i := Word(p[1], p[0]), 2;
    }
    while |p| - i > 7
      invariant i <= |p| && i % 2 == 0
      invariant Canon(sum) == Canon(LeSum(p[..i]))
    {
      sum := AddLong(p, i, sum);
      sum := AddLong(p, i + 4, sum);
      i := i + 8;
    }
    FoldTwice(sum);
    sum := Fold(sum);
    var j;
    ghost var f := sum;
    sum, j := AddWords(p[i..], sum);
    LastByte(p[i..], j);
    SumBound(p[i..][..j]);
    if j < |p[i..]| {
      t := t + p[i..][j];
    }
    sum := sum + t;
    assert p == p[..i] + p[i..];
    EvenConcat(p[..i], p[i..]);
    CanonReplace(f, LeSum(p[..i]), LeSum(p[i..]) + HeadByte(b, odd));
    FoldTwice(sum);
    PlacedIsChksum(b, odd);
    sum := Fold(Fold(sum));
    r := if odd then Swap(sum) else sum;
  }

  /** The three versions return the identical value. */
  method AllAgree(b: seq<byte>, addr: nat) returns (r1: u16, r2: u16, r3: u16)
    requires |b| <= 0x20000
    ensures r1 == r2 == r3 == Swap(OnesSum(b))
  {
    r1 := Chksum1(b);
    r2 := Chksum2(b, addr);
    r3 := Chksum3(b, addr);
  }
}
