/** Checksums of pbuf chains, pseudo headers, and what is filled in always verifies
    (src/lwip/src/core/inet_chksum.c, tcp_out.c, udp.c, ipv4/icmp.c). */
module ChecksumChain {
  import opened Seq32
  import opened Checksum

  /** One pbuf of a chain: where its payload starts in memory, and the payload. */
  datatype Pbuf = Pbuf(addr: nat, data: seq<byte>)

  function Flat(chain: seq<Pbuf>): seq<byte>
  {
    if chain == [] then [] else chain[0].data + Flat(chain[1..])
  }

  predicate Sized(chain: seq<Pbuf>) { forall i :: 0 <= i < |chain| ==> |chain[i].data| < 0x1_0000 }

  /** The checksum field value over bytes b, of which the first may be a pseudo header. */
  function Inet(b: seq<byte>): u16 { 0xffff - Swap(OnesSum(b)) }

  lemma {:induction false} FlatSnoc(chain: seq<Pbuf>, i: nat)
    requires i < |chain|
    ensures Flat(chain[..i + 1]) == Flat(chain[..i]) + chain[i].data
  {
    if i == 0 {
      assert chain[..1][1..] == [];
      assert chain[..0] == [];
    } else {
      assert chain[..i + 1][1..] == chain[1..][..i] && chain[..i][1..] == chain[1..][..i - 1];
      FlatSnoc(chain[1..], i - 1);
    }
  }

  // ----- the swap-tracking loop ------------------------------------------------------

  /** Adding a piece at an even offset. */
  lemma EvenStep(a: nat, p: seq<byte>, q: seq<byte>)
    requires |p| % 2 == 0
    ensures Canon(Canon(a + LeSum(p)) + Canon(LeSum(q))) == Canon(a + LeSum(p + q))
  {
    hide LeSum, Canon;
    EvenConcat(p, q);
    CanonAdd(a + LeSum(p), Canon(LeSum(q)));
    CanonAdd(LeSum(q), a + LeSum(p));
  }

  /** Adding a piece at an odd offset: its words straddle the flat buffer's words. */
  lemma OddStep(a: nat, p: seq<byte>, q: seq<byte>)
    requires |p| % 2 == 1
    ensures Canon(Canon(256 * (a + LeSum(p))) + Canon(LeSum(q))) == Canon(256 * (a + LeSum(p + q)))
  {
    hide LeSum, Canon, Cong;
    var n := 256 * (a + LeSum(p));
    CanonAdd(n, Canon(LeSum(q)));
    CanonAdd(LeSum(q), n);
    OddConcat(p, q);
    ShiftedSum(q);
    var x, y := LeSum([0] + q), LeSum(q);
    Shift256(n, x, y);
    assert 256 * (a + LeSum(p + q)) == n + 256 * x;
  }

  lemma Shift256(n: nat, x: nat, y: nat)
    requires Cong(x, 256 * y) && (x == 0 <==> y == 0)
    ensures Canon(n + 256 * x) == Canon(n + y)
  {
    var k := (x - 256 * y) / M16;
    assert (n + 256 * x) - (n + y) == M16 * (256 * k + y);
    CongWitness(n + 256 * x, n + y, 256 * k + y);
    SameCanon(n + 256 * x, n + y);
  }

  /** The loop shared by inet_chksum_pbuf and inet_cksum_pseudo_base: whatever the
      split and the alignment, it adds the flat buffer to the start value. */
  method ChainSum(chain: seq<Pbuf>, acc0: u16) returns (acc: u16)
    requires Sized(chain)
    ensures acc == Canon(acc0 + LeSum(Flat(chain)))
  {
    hide LeSum, Canon, Swap, Fold, OnesSum;
    var wide: u32 := acc0;
    var swapped := false;
    ghost var p: seq<byte> := [];
    StartSum(acc0, chain);
    for i := 0 to |chain|
      invariant p == Flat(chain[..i]) && swapped == (|p| % 2 == 1)
      invariant wide == if swapped then Canon(256 * (acc0 + LeSum(p))) else Canon(acc0 + LeSum(p))
    {
      var q := chain[i];
      FlatSnoc(chain, i);
      if swapped {
        OddStep(acc0, p, q.data);
      } else {
        EvenStep(acc0, p, q.data);
      }
      HostOrder(q.data);
      var c := Chksum2(q.data, q.addr);
      FoldTwice(wide + (c as int));
      wide := Fold(wide + (c as int));
      p := p + q.data;
      if |q.data| % 2 != 0 {
        swapped := !swapped;
        SwapCanon(acc0 + LeSum(p));
        SwapTwice(acc0 + LeSum(p));
        wide := Swap(wide);
      }
    }
    assert chain[..|chain|] == chain;
    if swapped {
      SwapTwice(acc0 + LeSum(p));
      wide := Swap(wide);
    }
    acc := wide;
  }

  lemma StartSum(acc0: u16, chain: seq<Pbuf>)
    ensures Flat(chain[..0]) == [] && acc0 == Canon(acc0 + LeSum([]))
  {
    CanonUnique(acc0, acc0);
  }

  /** inet_chksum_pbuf: the checksum of the concatenated bytes. */
  method InetChksumPbuf(chain: seq<Pbuf>) returns (r: u16)
    requires Sized(chain)
    ensures r == Inet(Flat(chain))
  {
    HostOrder(Flat(chain));
    var acc := ChainSum(chain, 0);
    r := 0xffff - acc;
  }

  // ----- pseudo headers --------------------------------------------------------------

  /** Section 3.1 of RFC 793: addresses, a zero, the protocol and the length. */
  function Pseudo4(src: seq<byte>, dst: seq<byte>, proto: byte, len: u16): seq<byte>
  {
    src + dst + [0, proto, len / 256, len % 256]
  }

  /** Section 8.1 of RFC 8200. */
  function Pseudo6(src: seq<byte>, dst: seq<byte>, proto: byte, len: u16): seq<byte>
  {
    src + dst + [0, 0, len / 256, len % 256, 0, 0, 0, proto]
  }

  /** The tail that both pseudo headers add: protocol and length, as the code adds them. */
  lemma Tails(proto: byte, len: u16)
    ensures LeSum([0, proto, len / 256, len % 256]) == Swap(proto) + Swap(len)
    ensures LeSum([0, 0, len / 256, len % 256, 0, 0, 0, proto]) == Swap(proto) + Swap(len)
  {
    hide LeSum, BeSum, Word, Swap;
    SwapWord(proto);
    SwapWord(len);
    WordSum(0, proto);
    WordSum(len / 256, len % 256);
    WordSum(0, 0);
    EvenConcat([0, proto], [len / 256, len % 256]);
    assert [0, proto] + [len / 256, len % 256] == [0, proto, len / 256, len % 256];
    var front: seq<byte> := [0, 0] + [len / 256, len % 256];
    var back: seq<byte> := [0, 0] + [0, proto];
    EvenConcat([0, 0], [len / 256, len % 256]);
    EvenConcat([0, 0], [0, proto]);
    EvenConcat(front, back);
    assert front + back == [0, 0, len / 256, len % 256, 0, 0, 0, proto];
  }

  lemma SwapWord(w: u16)
    ensures Swap(w) == Word(w % 256, w / 256) && Word(w / 256, w % 256) == w
    ensures w < 256 ==> Swap(w) == Word(w, 0) && Word(0, 0) == 0
  {
  }

  lemma WordSum(a: byte, b: byte)
    ensures LeSum([a, b]) == Word(b, a)
  {
    assert [a, b][2..] == [];
  }

  /** inet_cksum_pseudo_base, started with the folded sum of the addresses. */
  method PseudoBase(chain: seq<Pbuf>, proto: byte, len: u16, acc0: u16, ghost addrs: seq<byte>, ghost tail: seq<byte>)
    returns (r: u16)
    requires Sized(chain)
    requires |addrs| % 2 == 0 && acc0 == Canon(LeSum(addrs))
    requires |tail| % 2 == 0 && LeSum(tail) == Swap(proto) + Swap(len)
    ensures r == Inet(addrs + tail + Flat(chain))
  {
    hide LeSum, Canon, Swap, Fold, OnesSum;
    ghost var flat := Flat(chain);
    var acc := ChainSum(chain, acc0);
    var wide: u32 := (acc as int) + Swap(proto) + Swap(len);
    FoldTwice(wide);
    CanonAdd(LeSum(addrs), LeSum(flat));
    CanonAdd(LeSum(addrs) + LeSum(flat), LeSum(tail));
    EvenConcat(addrs + tail, flat);
    EvenConcat(addrs, tail);
    HostOrder(addrs + tail + flat);
    wide := Fold(Fold(wide));
    r := 0xffff - wide;
  }

  /** The two halves of an address word, as a little-endian host reads them. */
  method AddAddress(a: seq<byte>, i: nat, acc: u32) returns (r: u32)
    requires i + 4 <= |a| && i % 2 == 0 && acc <= 0xfffe_0000
    ensures r == acc + LeSum(a[..i + 4]) - LeSum(a[..i]) && r <= acc + 2 * 0xffff
  {
    hide LeSum, BeSum, Long, Word;
    var w0, w1 := Word(a[i + 1], a[i]), Word(a[i + 3], a[i + 2]);
    var addr := Long(w0, w1);
    LongHalves(w0, w1);
    BeSnoc(a, i);
    BeSnoc(a, i + 2);
    r := acc + addr % 0x1_0000;
    r := r + addr / 0x1_0000;
  }

  lemma LongHalves(w0: u16, w1: u16)
    ensures Long(w0, w1) % 0x1_0000 == w0 && Long(w0, w1) / 0x1_0000 == w1
  {
  }

  /** inet_chksum_pseudo: the checksum over the IPv4 pseudo header and the chain. */
  method InetChksumPseudo(chain: seq<Pbuf>, proto: byte, len: u16, src: seq<byte>, dst: seq<byte>) returns (r: u16)
    requires Sized(chain) && |src| == |dst| == 4
    ensures r == Inet(Pseudo4(src, dst, proto, len) + Flat(chain))
  {
    hide LeSum, Canon, Swap, Fold, OnesSum;
    NoBytes(src);
    NoBytes(dst);
    assert src[..4] == src && dst[..4] == dst;
    var acc := AddAddress(src, 0, 0);
    acc := AddAddress(dst, 0, acc);
    EvenConcat(src, dst);
    FoldTwice(acc);
    Tails(proto, len);
    r := PseudoBase(chain, proto, len, Fold(Fold(acc)), src + dst, [0, proto, len / 256, len % 256]);
  }

  /** ip6_chksum_pseudo: the checksum over the IPv6 pseudo header and the chain. */
  method Ip6ChksumPseudo(chain: seq<Pbuf>, proto: byte, len: u16, src: seq<byte>, dst: seq<byte>) returns (r: u16)
    requires Sized(chain) && |src| == |dst| == 16
    ensures r == Inet(Pseudo6(src, dst, proto, len) + Flat(chain))
  {
    hide LeSum, Canon, Swap, Fold, OnesSum;
    NoBytes(src);
    NoBytes(dst);
    var acc: u32 := 0;
    for part := 0 to 4
      invariant acc == LeSum(src[..4 * part]) + LeSum(dst[..4 * part]) <= 4 * 0xffff * part
    {
      acc := AddAddress(src, 4 * part, acc);
      acc := AddAddress(dst, 4 * part, acc);
    }
    assert src[..16] == src && dst[..16] == dst;
    EvenConcat(src, dst);
    FoldTwice(acc);
    Tails(proto, len);
    r := PseudoBase(chain, proto, len, Fold(Fold(acc)), src + dst, [0, 0, len / 256, len % 256, 0, 0, 0, proto]);
  }

  /** The pseudo header of the version that the addresses have. */
  function Pseudo(src: seq<byte>, dst: seq<byte>, proto: byte, len: u16): (p: seq<byte>)
    ensures Addresses(src, dst) ==> |p| % 2 == 0
  {
    if |dst| == 16 then Pseudo6(src, dst, proto, len) else Pseudo4(src, dst, proto, len)
  }

  predicate Addresses(src: seq<byte>, dst: seq<byte>)
  {
    |src| == |dst| && (|dst| == 4 || |dst| == 16)
  }

  /** ip_chksum_pseudo: the checksum for either version. */
  method IpChksumPseudo(chain: seq<Pbuf>, proto: byte, len: u16, src: seq<byte>, dst: seq<byte>) returns (r: u16)
    requires Sized(chain) && Addresses(src, dst)
    ensures r == Inet(Pseudo(src, dst, proto, len) + Flat(chain))
  {
    if |dst| == 16 {
      r := Ip6ChksumPseudo(chain, proto, len, src, dst);
    } else {
      r := InetChksumPseudo(chain, proto, len, src, dst);
    }
  }

  // ----- what is filled in verifies ----------------------------------------------------

  /** A 16-bit field of a header, as a little-endian host stores it. */
  function Put16(b: seq<byte>, off: nat, w: u16): (r: seq<byte>)
    requires off + 2 <= |b|
    ensures |r| == |b|
  {
    b[off := w % 256][off + 1 := w / 256]
  }

  function Get16(b: seq<byte>, off: nat): u16
    requires off + 2 <= |b|
  {
    Word(b[off + 1], b[off])
  }

  /** Changing one aligned field changes the sum by the difference of the words. */
  lemma FieldSum(b: seq<byte>, off: nat, w: u16)
    requires off % 2 == 0 && off + 2 <= |b|
    ensures LeSum(Put16(b, off, w)) == LeSum(b) - Get16(b, off) + w
  {
    hide LeSum, BeSum, Word, Swap;
    var c := Put16(b, off, w);
    SwapWord(w);
    assert c[off] == w % 256 && c[off + 1] == w / 256;
    SplitSum(b, off);
    SplitSum(c, off);
    assert c[off + 2..] == b[off + 2..] && c[..off] == b[..off];
  }

  lemma SplitSum(b: seq<byte>, off: nat)
    requires off % 2 == 0 && off + 2 <= |b|
    ensures LeSum(b) == LeSum(b[..off]) + Word(b[off + 1], b[off]) + LeSum(b[off + 2..])
  {
    hide LeSum, BeSum, Word;
    assert b == b[..off + 2] + b[off + 2..];
    EvenConcat(b[..off + 2], b[off + 2..]);
    BeSnoc(b, off);
  }

  /** Section 2 of RFC 1071: with the computed checksum in the field, the sum over
      pseudo header and data is all ones, so checking gives zero. `stored` may be
      0xffff in place of 0. */
  lemma FilledVerifies(pseudo: seq<byte>, b: seq<byte>, off: nat, stored: u16)
    requires |pseudo| % 2 == 0 && off % 2 == 0 && off + 2 <= |b| && Get16(b, off) == 0
    requires stored == Inet(pseudo + b) || (Inet(pseudo + b) == 0 && stored == 0xffff)
    ensures Inet(pseudo + Put16(b, off, stored)) == 0
  {
    hide LeSum, BeSum, OnesSum, Put16, Swap, Canon, Word;
    var c := Put16(b, off, stored);
    FieldSum(b, off, stored);
    EvenConcat(pseudo, b);
    EvenConcat(pseudo, c);
    HostOrder(pseudo + b);
    HostOrder(pseudo + c);
    AllOnes(LeSum(pseudo + b), stored);
  }

  lemma AllOnes(n: nat, stored: u16)
    requires stored == 0xffff - Canon(n) || (Canon(n) == 0xffff && stored == 0xffff)
    ensures Canon(n + stored) == 0xffff
  {
    CanonCong(n);
    var k := (n - Canon(n)) / M16;
    if stored == 0xffff - Canon(n) {
      CongWitness(n + stored, 0xffff, k);
    } else {
      CongWitness(n + stored, 0xffff, k + 1);
    }
    CanonUnique(n + stored, 0xffff);
  }

  /** Storing into the first pbuf of a chain stores into the flat packet. */
  lemma PutInFirst(chain: seq<Pbuf>, off: nat, w: u16)
    requires chain != [] && off + 2 <= |chain[0].data|
    ensures off + 2 <= |chain[0].data| <= |Flat(chain)|
    ensures Get16(Put16(Flat(chain), off, w), off) == w
    ensures Get16(Flat(chain), off) == Get16(chain[0].data, off)
    ensures Flat(chain[0 := chain[0].(data := Put16(chain[0].data, off, w))]) == Put16(Flat(chain), off, w)
  {
    var c := chain[0 := chain[0].(data := Put16(chain[0].data, off, w))];
    assert c[1..] == chain[1..];
    assert Flat(c) == Put16(chain[0].data, off, w) + Flat(chain[1..]);
  }

  /** tcp_output_segment, tcp_output_control_segment: fill the TCP checksum field at
      offset 16; the check of tcp_input on the same packet then succeeds. */
  method FillTcp(chain: seq<Pbuf>, src: seq<byte>, dst: seq<byte>) returns (out: seq<Pbuf>)
    requires Sized(chain) && Addresses(src, dst) && |Flat(chain)| < 0x1_0000
    requires chain != [] && |chain[0].data| >= 20 && Get16(chain[0].data, 16) == 0
    ensures |Flat(out)| == |Flat(chain)| >= 20
    ensures Flat(out) == Put16(Flat(chain), 16, Get16(Flat(out), 16))
    ensures Inet(Pseudo(src, dst, 6, |Flat(chain)|) + Flat(out)) == 0
  {
    hide OnesSum, LeSum, Swap, Pseudo, Flat, Put16, Get16;
    ghost var pseudo := Pseudo(src, dst, 6, |Flat(chain)|);
    var c := IpChksumPseudo(chain, 6, |Flat(chain)|, src, dst);
    PutInFirst(chain, 16, c);
    FilledVerifies(pseudo, Flat(chain), 16, c);
    out := chain[0 := chain[0].(data := Put16(chain[0].data, 16, c))];
  }

  /** udp_input accepts a datagram whose checksum field is zero or verifies. */
  predicate UdpAccepts(pseudo: seq<byte>, b: seq<byte>)
    requires |b| >= 8
  {
    Get16(b, 6) != 0 ==> Inet(pseudo + b) == 0
  }

  /** udp_sendto_if_src: fill the UDP checksum field at offset 6, never with zero. */
  method FillUdp(chain: seq<Pbuf>, src: seq<byte>, dst: seq<byte>) returns (out: seq<Pbuf>)
    requires Sized(chain) && Addresses(src, dst) && |Flat(chain)| < 0x1_0000
    requires chain != [] && |chain[0].data| >= 8 && Get16(chain[0].data, 6) == 0
    ensures |Flat(out)| == |Flat(chain)| >= 8 && Get16(Flat(out), 6) != 0
    ensures Flat(out) == Put16(Flat(chain), 6, Get16(Flat(out), 6))
    ensures UdpAccepts(Pseudo(src, dst, 17, |Flat(chain)|), Flat(out))
  {
    hide OnesSum, LeSum, Swap, Pseudo, Flat, Put16, Get16;
    ghost var pseudo := Pseudo(src, dst, 17, |Flat(chain)|);
    var c := IpChksumPseudo(chain, 17, |Flat(chain)|, src, dst);
    var stored: u16 := if c == 0 then 0xffff else c;
    PutInFirst(chain, 6, stored);
    FilledVerifies(pseudo, Flat(chain), 6, stored);
    out := chain[0 := chain[0].(data := Put16(chain[0].data, 6, stored))];
  }

  const ICMP_ECHO: byte := 8
  const ICMP_ER: byte := 0

  /** icmp_input: turning an echo request into the reply in place. The checksum is
      adjusted, not recomputed, and verifies whenever the request's did. */
  method EchoReply(p: array<byte>)
    requires p.Length >= 8 && p[0] == ICMP_ECHO
    modifies p
    ensures p[0] == ICMP_ER && p[1] == old(p[1]) && p[4..] == old(p[4..])
    ensures old(Inet(p[..])) == 0 ==> Inet(p[..]) == 0
  {
    ghost var b := p[..];
    p[0] := ICMP_ER;
    var chksum := Word(p[3], p[2]);
    var adjusted: u16 := if chksum > 0xfff7 then ((chksum as int) + 8 + 1) % 0x1_0000
      else ((chksum as int) + 8) % 0x1_0000;
    p[2] := adjusted % 256;
    p[3] := adjusted / 256;
    assert p[..] == Put16(Put16(b, 0, Get16(b, 0) - 8), 2, adjusted);
    if Inet(b) == 0 {
      EchoSum(b, adjusted);
    }
  }

  lemma EchoSum(b: seq<byte>, adjusted: u16)
    requires |b| >= 8 && b[0] == ICMP_ECHO
    requires adjusted == if Get16(b, 2) > 0xfff7 then (Get16(b, 2) as int) + 9 - 0x1_0000 else (Get16(b, 2) as int) + 8
    requires Inet(b) == 0
    ensures Inet(Put16(Put16(b, 0, Get16(b, 0) - 8), 2, adjusted)) == 0
  {
    assert Get16(b, 0) >= 8;
    hide LeSum, BeSum, OnesSum, Swap, Canon, Word;
    var b1 := Put16(b, 0, Get16(b, 0) - 8);
    var b2 := Put16(b1, 2, adjusted);
    FieldSum(b, 0, Get16(b, 0) - 8);
    FieldSum(b1, 2, adjusted);
    FieldBound(b2, 2, adjusted);
    HostOrder(b);
    HostOrder(b2);
    EchoCanon(LeSum(b), LeSum(b2), Get16(b, 2), adjusted);
  }

  lemma FieldBound(b: seq<byte>, off: nat, w: u16)
    requires off % 2 == 0 && off + 2 <= |b| && b[off] == w % 256 && b[off + 1] == w / 256
    ensures w <= LeSum(b)
  {
    hide LeSum, BeSum, Word;
    SplitSum(b, off);
    SwapWord(w);
  }

  lemma EchoCanon(n: nat, m: nat, old16: u16, new16: u16)
    requires m == n - 8 + new16 - old16 && new16 <= m
    requires new16 == if old16 > 0xfff7 then (old16 as int) + 9 - 0x1_0000 else (old16 as int) + 8
    requires Canon(n) == 0xffff
    ensures Canon(m) == 0xffff
  {
    CanonCong(n);
    var k := (n - 0xffff) / M16;
    CongWitness(m, 0xffff, if old16 > 0xfff7 then k - 1 else k);
    CanonUnique(m, 0xffff);
  }
}
