/** The Internet checksum (RFC 1071) as ip_csum computes it. */
module InternetChecksum {

  type u16 = x: int | 0 <= x < 0x1_0000

  function Sum(ws: seq<u16>): (s: nat)
    ensures s <= 0xffff * |ws|
  {
    if ws == [] then 0 else Sum(ws[..|ws| - 1]) + ws[|ws| - 1]
  }

  /** The two folds: the carries are added back in twice, and the second time whatever leaves the low
      sixteen bits is cut off. */
  function Folded(sum: nat): (r: u16) {
    var once := sum / 0x1_0000 + sum % 0x1_0000;
    (once + once / 0x1_0000) % 0x1_0000
  }

  /** What a 32-bit register holds of a sum. */
  function Register(sum: nat): (r: nat) { sum % 0x1_0000_0000 }

  function Checksum(ws: seq<u16>): (c: u16) { 0xffff - Folded(Register(Sum(ws))) }

  /** A one's complement sum: the same residue modulo 65535, and zero only for zero. */
  predicate IsOnesComplement(r: u16, sum: nat) {
    r % 0xffff == sum % 0xffff && (r == 0 <==> sum == 0)
  }

  /** Two folds are enough for every sum that fits the 32-bit register. */
  lemma TwoFoldsSuffice(sum: nat)
    requires sum < 0x1_0000_0000
    ensures IsOnesComplement(Folded(sum), sum)
  {
    var hi, lo := sum / 0x1_0000, sum % 0x1_0000;
    var once := hi + lo;
    assert sum == 0xffff * hi + once;
    assert Folded(sum) == if once < 0x1_0000 then once else once - 0xffff;
    ResidueShift(once, hi);
    if once >= 0x1_0000 {
      ResidueShift(once - 0xffff, 1);
    }
  }

  lemma ResidueShift(a: nat, k: nat)
    ensures (a + 0xffff * k) % 0xffff == a % 0xffff
  {
    var q, r := a / 0xffff, a % 0xffff;
    assert a + 0xffff * k == 0xffff * (q + k) + r;
  }

  lemma RegisterHolds(ws: seq<u16>)
    requires |ws| <= 65537
    ensures Register(Sum(ws)) == Sum(ws) < 0x1_0000_0000
  {
    assert Sum(ws) <= 0xffff * 65537 == 0xffff_ffff;
  }

  /** ip_csum is the one's complement checksum of every buffer of up to 65537 words. */
  lemma ChecksumIsOnesComplement(ws: seq<u16>)
    requires |ws| <= 65537
    ensures IsOnesComplement(0xffff - Checksum(ws), Sum(ws))
  {
    RegisterHolds(ws);
    TwoFoldsSuffice(Sum(ws));
  }

  function Ones(n: nat): (ws: seq<u16>) { seq(n, i => 0xffff) }

  lemma {:induction false} SumOnes(n: nat)
    ensures Sum(Ones(n)) == 0xffff * n
  {
    if n > 0 {
      SumOnes(n - 1);
      assert Ones(n)[..n - 1] == Ones(n - 1);
    }
  }

  /** One word more and the register wraps: the bound is exact. */
  lemma OneWordMoreIsTooMany()
    ensures |Ones(65538)| == 65538 && !IsOnesComplement(0xffff - Checksum(Ones(65538)), Sum(Ones(65538)))
  {
    SumOnes(65538);
    assert Register(0xffff * 65538) == 65534;
    assert Folded(65534) == 65534;
    assert (0xffff * 65538) % 0xffff == 0;
  }

  /** A block of words that contains its own checksum sums to zero. */
  lemma FinishedSumsToZero(a: seq<u16>, b: seq<u16>)
    requires |a| + |b| < 65537
    ensures Checksum(a + [Checksum(a + [0] + b)] + b) == 0
  {
    var c := Checksum(a + [0] + b);
    SumMiddle(a, 0, b);
    SumMiddle(a, c, b);
    RegisterHolds(a + [0] + b);
    RegisterHolds(a + [c] + b);
    ComplementCloses(Sum(a) + Sum(b));
  }

  lemma ComplementCloses(s: nat)
    requires s + (0xffff - Folded(s)) < 0x1_0000_0000
    ensures Folded(s + (0xffff - Folded(s))) == 0xffff
  {
    TwoFoldsSuffice(s);
    TwoFoldsSuffice(s + (0xffff - Folded(s)));
    ComplementIsOnes(s, Folded(s), Folded(s + (0xffff - Folded(s))));
  }

  lemma ComplementIsOnes(s: nat, f: u16, g: u16)
    requires IsOnesComplement(f, s) && IsOnesComplement(g, s + (0xffff - f))
    ensures g == 0xffff
  {
    ResidueOfComplement(s, f);
  }

  lemma ResidueOfComplement(s: nat, f: u16)
    requires IsOnesComplement(f, s)
    ensures (s + (0xffff - f)) % 0xffff == 0
  {
    var q, r := s / 0xffff, s % 0xffff;
    if f < 0xffff {
      assert s + (0xffff - f) == 0xffff * (q + 1);
    } else {
      assert s == 0xffff * q;
    }
  }

  lemma {:induction false} SumMiddle(a: seq<u16>, w: u16, b: seq<u16>)
    ensures Sum(a + [w] + b) == Sum(a) + w + Sum(b)
  {
    if b == [] {
      assert a + [w] + b == a + [w] && (a + [w])[..|a|] == a;
    } else {
      SumMiddle(a, w, b[..|b| - 1]);
      assert (a + [w] + b)[..|a| + |b|] == a + [w] + b[..|b| - 1];
    }
  }

  lemma RegisterAdds(sum: nat, w: nat)
    ensures Register(Register(sum) + w) == Register(sum + w)
  {
    var q := sum / 0x1_0000_0000;
    var r := Register(sum) + w;
    var q2 := r / 0x1_0000_0000;
    assert sum + w == 0x1_0000_0000 * (q + q2) + Register(r);
  }

  /** ip_csum. */
  method IpCsum(ws: seq<u16>) returns (c: u16)
    ensures c == Checksum(ws)
  {
    var sum: nat := 0;
    for i := 0 to |ws|
      invariant sum == Register(Sum(ws[..i]))
    {
      assert ws[..i + 1][..i] == ws[..i];
      RegisterAdds(Sum(ws[..i]), ws[i]);
      sum := Register(sum + ws[i]);
    }
    assert ws[..|ws|] == ws;
    sum := sum / 0x1_0000 + sum % 0x1_0000;
    sum := sum + sum / 0x1_0000;
    return 0xffff - sum % 0x1_0000;
  }
}

/**
 Minimal encapsulation of IP packets (RFC 2004), over bytes on a little-endian host. A packet is its IP
 header followed by its payload. The kernel's own header checksum, ip_send_check, is the Internet
 checksum of the header.
 */
module MinimalEncap {
  import opened InternetChecksum

  type u8 = x: int | 0 <= x < 0x100

  const IPPROTO_MIPE: u8 := 55

  /** iph->ihl << 2. */
  function HdrLen(p: seq<u8>): (n: nat)
    requires p != []
  {
    4 * (p[0] % 16)
  }

  predicate IsPacket(p: seq<u8>) {
    |p| >= 20 && 20 <= HdrLen(p) <= |p|
  }

  function Header(p: seq<u8>): (h: seq<u8>)
    requires IsPacket(p)
    ensures |h| == HdrLen(p) == HdrLen(h) && h[9] == p[9] && h[16..20] == p[16..20]
  {
    p[..HdrLen(p)]
  }

  function Payload(p: seq<u8>): (b: seq<u8>)
    requires IsPacket(p)
    ensures Header(p) + b == p
  {
    assert Header(p) + p[HdrLen(p)..] == p;
    p[HdrLen(p)..]
  }

  /** Bytes written over a stretch of a buffer. */
  function Put(p: seq<u8>, i: nat, bs: seq<u8>): (r: seq<u8>)
    requires i + |bs| <= |p|
    ensures |r| == |p|
  {
    p[..i] + bs + p[i + |bs|..]
  }

  function Little(w: u16): (bs: seq<u8>) { [w % 256, w / 256] }

  function Big(w: u16): (bs: seq<u8>) { [w / 256, w % 256] }

  function Ntohs(hi: u8, lo: u8): (w: u16) { 256 * hi + lo }

  /** A 16-bit field that a small change has carried over one end. */
  function Wrapped(x: int): (w: u16)
    requires -0x1_0000 <= x < 0x2_0000
  {
    if x < 0 then x + 0x1_0000 else if x < 0x1_0000 then x else x - 0x1_0000
  }

  function Word(lo: u8, hi: u8): (w: u16) { 256 * hi + lo }

  function Words(bs: seq<u8>): (ws: seq<u16>)
    ensures |ws| == |bs| / 2
  {
    seq(|bs| / 2, i requires 0 <= i < |bs| / 2 => Word(bs[2 * i], bs[2 * i + 1]))
  }

  /** A block with the checksum written at byte i, computed as if there were zeros. */
  function Checked(h: seq<u8>, i: nat): (r: seq<u8>)
    requires i + 2 <= |h|
    ensures |r| == |h|
  {
    Put(h, i, Little(Checksum(Words(Put(h, i, [0, 0])))))
  }

  /** ip_send_check on the header of a packet. */
  function Sealed(p: seq<u8>): (r: seq<u8>)
    requires IsPacket(p)
    ensures |r| == |p|
  {
    Checked(Header(p), 10) + Payload(p)
  }

  /** htons(ntohs(tot_len) + d). */
  function TotalLen(hi: u8, lo: u8, d: int): (bs: seq<u8>)
    requires -8 <= d <= 8
    ensures |bs| == 2
  {
    Big(Wrapped(Ntohs(hi, lo) + d))
  }

  /** The total length field, changed by d. */
  function Resized(h: seq<u8>, d: int): (r: seq<u8>)
    requires |h| >= 4 && -8 <= d <= 8
    ensures |r| == |h|
  {
    Put(h, 2, TotalLen(h[2], h[3], d))
  }

  /** The eight bytes put between header and payload: protocol, flags, checksum, destination. */
  function MinHdr(protocol: u8, daddr: seq<u8>): (r: seq<u8>)
    requires |daddr| == 4
    ensures |r| == 8
  {
    Checked([protocol, 0, 0, 0] + daddr, 2)
  }

  /** ip_pkt_encapsulate's outer header, before an id is chosen for a packet that has none. */
  function OuterHdr(h: seq<u8>, dest: seq<u8>): (r: seq<u8>)
    requires 20 <= |h| && |dest| == 4
    ensures |r| == |h|
  {
    Checked(Resized(Put(Put(h, 16, dest), 9, [IPPROTO_MIPE]), 8), 10)
  }

  function WithId(h: seq<u8>, id: u16): (r: seq<u8>)
    requires 20 <= |h|
    ensures |r| == |h|
  {
    if h[4] == 0 && h[5] == 0 then Put(h, 4, Little(id)) else h
  }

  /** ip_pkt_encapsulate. */
  function Encapsulated(p: seq<u8>, dest: seq<u8>, id: u16): (q: seq<u8>)
    requires IsPacket(p) && |dest| == 4
  {
    WithId(OuterHdr(Header(p), dest), id) + MinHdr(p[9], p[16..20]) + Payload(p)
  }

  /** ip_pkt_decapsulate. */
  function Decapsulated(q: seq<u8>): (p: seq<u8>)
    requires IsPacket(q) && HdrLen(q) + 8 <= |q|
  {
    var n := HdrLen(q);
    var h := Put(Put(q[..n], 9, [q[n]]), 16, q[n + 4..n + 8]);
    Checked(Resized(h, -8), 10) + q[n + 8..]
  }

  /** The checksum does not depend on what stood in its place. */
  lemma CheckedIgnoresField(a: seq<u8>, b: seq<u8>, i: nat)
    requires |a| == |b| && i + 2 <= |a| && a[..i] == b[..i] && a[i + 2..] == b[i + 2..]
    ensures Checked(a, i) == Checked(b, i)
  {
    assert Put(a, i, [0, 0]) == Put(b, i, [0, 0]);
  }

  lemma PutAt(p: seq<u8>, i: nat, bs: seq<u8>)
    requires i + |bs| <= |p|
    ensures forall j :: 0 <= j < |p| ==> Put(p, i, bs)[j] == if i <= j < i + |bs| then bs[j - i] else p[j]
  {
  }

  lemma BigAndBack(w: u16, hi: u8, lo: u8)
    ensures Ntohs(Big(w)[0], Big(w)[1]) == w
    ensures Big(Ntohs(hi, lo)) == [hi, lo]
  {
    assert (256 * hi + lo) / 256 == hi && (256 * hi + lo) % 256 == lo;
  }

  lemma ResizeBack(hi: u8, lo: u8)
    ensures var up := TotalLen(hi, lo, 8);
            TotalLen(up[0], up[1], -8) == [hi, lo]
  {
    var w: int := Ntohs(hi, lo);
    BigAndBack(Wrapped(w + 8), hi, lo);
  }

  /** Neither the total length, the protocol, the destination nor the checksum. */
  predicate Kept(j: int) {
    j != 9 && !(16 <= j < 20) && !(2 <= j < 4) && !(10 <= j < 12)
  }

  /** What encapsulation leaves of the header. */
  lemma OuterAt(h: seq<u8>, dest: seq<u8>)
    requires 20 <= |h| && |dest| == 4
    ensures var o := OuterHdr(h, dest);
            && o[2..4] == TotalLen(h[2], h[3], 8) && o[9] == IPPROTO_MIPE && o[16..20] == dest
            && forall j :: 0 <= j < |h| && Kept(j) ==> o[j] == h[j]
  {
    FieldsSet(h, dest);
    var b := Put(Put(h, 16, dest), 9, [IPPROTO_MIPE]);
    ResizedAt(b, 8);
    CheckedAt(Resized(b, 8), 10);
  }

  lemma FieldsSet(h: seq<u8>, dest: seq<u8>)
    requires 20 <= |h| && |dest| == 4
    ensures var b := Put(Put(h, 16, dest), 9, [IPPROTO_MIPE]);
            && b[9] == IPPROTO_MIPE && b[16..20] == dest
            && forall j :: 0 <= j < |h| && j != 9 && !(16 <= j < 20) ==> b[j] == h[j]
  {
    PutAt(h, 16, dest);
    PutAt(Put(h, 16, dest), 9, [IPPROTO_MIPE]);
  }

  lemma ResizedAt(h: seq<u8>, d: int)
    requires |h| >= 4 && -8 <= d <= 8
    ensures Resized(h, d)[2..4] == TotalLen(h[2], h[3], d)
    ensures forall j :: 0 <= j < |h| && !(2 <= j < 4) ==> Resized(h, d)[j] == h[j]
  {
    PutAt(h, 2, TotalLen(h[2], h[3], d));
  }

  lemma CheckedAt(h: seq<u8>, i: nat)
    requires i + 2 <= |h|
    ensures forall j :: 0 <= j < |h| && !(i <= j < i + 2) ==> Checked(h, i)[j] == h[j]
  {
    PutAt(h, i, Little(Checksum(Words(Put(h, i, [0, 0])))));
  }

  lemma WithIdAgrees(h: seq<u8>, o: seq<u8>, id: u16)
    requires 20 <= |h| == |o| && forall j :: 0 <= j < |h| && Kept(j) ==> o[j] == h[j]
    ensures var w, g := WithId(o, id), WithId(h, id);
            && (forall j :: 0 <= j < |h| && Kept(j) ==> w[j] == g[j])
            && w[2..4] == o[2..4] && g[2] == h[2] && g[3] == h[3] && g[9] == h[9] && g[16..20] == h[16..20]
  {
    PutAt(o, 4, Little(id));
    PutAt(h, 4, Little(id));
  }

  /** The header fields that encapsulation overwrote, written back. */
  lemma FieldsRestored(g: seq<u8>, w: seq<u8>)
    requires 20 <= |g| == |w| && w[2..4] == TotalLen(g[2], g[3], 8)
    requires forall j :: 0 <= j < |g| && Kept(j) ==> w[j] == g[j]
    ensures var e := Resized(Put(Put(w, 9, [g[9]]), 16, g[16..20]), -8);
            forall j :: 0 <= j < |g| && !(10 <= j < 12) ==> e[j] == g[j]
  {
    assert w[2] == w[2..4][0] && w[3] == w[2..4][1];
    PutAt(w, 9, [g[9]]);
    var c := Put(w, 9, [g[9]]);
    PutAt(c, 16, g[16..20]);
    var d := Put(c, 16, g[16..20]);
    ResizeBack(g[2], g[3]);
    ResizedAt(d, -8);
    assert Resized(d, -8)[2] == Resized(d, -8)[2..4][0] && Resized(d, -8)[3] == Resized(d, -8)[2..4][1];
  }

  /** What decapsulation makes of the outer header. */
  lemma HeaderRestored(h: seq<u8>, dest: seq<u8>, id: u16)
    requires 20 <= |h| && |dest| == 4
    ensures Checked(Resized(Put(Put(WithId(OuterHdr(h, dest), id), 9, [h[9]]), 16, h[16..20]), -8), 10)
         == Checked(WithId(h, id), 10)
  {
    OuterAt(h, dest);
    var w, g := WithId(OuterHdr(h, dest), id), WithId(h, id);
    WithIdAgrees(h, OuterHdr(h, dest), id);
    FieldsRestored(g, w);
    CheckedIgnoresField(Resized(Put(Put(w, 9, [h[9]]), 16, h[16..20]), -8), g, 10);
  }

  /** An encapsulated packet goes to the gateway as protocol 55 and is eight bytes longer; behind its header stand the
      protocol and the destination it had, and then its payload. Of the header nothing else changes but the checksum,
      and the id if there was none. */
  lemma EncapsulatedFields(p: seq<u8>, dest: seq<u8>, id: u16)
    requires IsPacket(p) && |dest| == 4
    ensures var q, n := Encapsulated(p, dest, id), HdrLen(p);
            && |q| == |p| + 8 && q[9] == IPPROTO_MIPE && q[16..20] == dest && q[2..4] == TotalLen(p[2], p[3], 8)
            && q[n] == p[9] && q[n + 1] == 0 && q[n + 4..n + 8] == p[16..20] && q[n + 8..] == p[n..]
            && (forall j :: 0 <= j < n && Kept(j) && j != 4 && j != 5 ==> q[j] == p[j])
            && q[4..6] == if p[4] == 0 && p[5] == 0 then Little(id) else p[4..6]
  {
    var h := Header(p);
    OuterWithId(h, dest, id);
    MinHdrAt(p[9], p[16..20]);
    ThreeParts(WithId(OuterHdr(h, dest), id), MinHdr(p[9], p[16..20]), Payload(p));
    assert h[4..6] == p[4..6];
  }

  lemma ThreeParts(w: seq<u8>, m: seq<u8>, b: seq<u8>)
    requires |w| >= 20 && |m| == 8
    ensures var q, n := w + m + b, |w|;
            && q[16..20] == w[16..20] && q[2..4] == w[2..4] && q[4..6] == w[4..6] && q[n] == m[0] && q[n + 1] == m[1]
            && q[n + 4..n + 8] == m[4..8] && q[n + 8..] == b && forall j :: 0 <= j < n ==> q[j] == w[j]
  {
  }

  lemma PutAtFour(o: seq<u8>, bs: seq<u8>)
    requires 20 <= |o| && |bs| == 2
    ensures var w := Put(o, 4, bs);
            && w[4..6] == bs && w[2..4] == o[2..4] && w[16..20] == o[16..20] && w[9] == o[9]
            && forall j :: 0 <= j < |o| && j != 4 && j != 5 ==> w[j] == o[j]
  {
    PutAt(o, 4, bs);
  }

  lemma OuterWithId(h: seq<u8>, dest: seq<u8>, id: u16)
    requires 20 <= |h| && |dest| == 4
    ensures var w := WithId(OuterHdr(h, dest), id);
            && w[9] == IPPROTO_MIPE && w[16..20] == dest && w[2..4] == TotalLen(h[2], h[3], 8)
            && (forall j :: 0 <= j < |h| && Kept(j) && j != 4 && j != 5 ==> w[j] == h[j])
            && w[4..6] == if h[4] == 0 && h[5] == 0 then Little(id) else h[4..6]
  {
    OuterAt(h, dest);
    var o := OuterHdr(h, dest);
    assert o[4] == h[4] && o[5] == h[5];
    if o[4] == 0 && o[5] == 0 {
      PutAtFour(o, Little(id));
    } else {
      assert o[4..6] == h[4..6];
    }
  }

  lemma MinHdrAt(protocol: u8, daddr: seq<u8>)
    requires |daddr| == 4
    ensures MinHdr(protocol, daddr)[0] == protocol && MinHdr(protocol, daddr)[4..8] == daddr
    ensures MinHdr(protocol, daddr)[1] == 0
  {
    CheckedAt([protocol, 0, 0, 0] + daddr, 2);
  }

  lemma DecapsulatedParts(w: seq<u8>, m: seq<u8>, b: seq<u8>)
    requires 20 <= |w| == HdrLen(w) && |m| == 8
    ensures IsPacket(w + m + b) && HdrLen(w + m + b) == |w|
    ensures Decapsulated(w + m + b) == Checked(Resized(Put(Put(w, 9, [m[0]]), 16, m[4..8]), -8), 10) + b
  {
    var q, n := w + m + b, |w|;
    assert q[0] == w[0] && q[..n] == w && q[n] == m[0] && q[n + 4..n + 8] == m[4..8] && q[n + 8..] == b;
  }

  lemma WithIdSplits(p: seq<u8>, n: nat, id: u16)
    requires 20 <= n <= |p|
    ensures WithId(p, id)[..n] == WithId(p[..n], id) && WithId(p, id)[n..] == p[n..] && WithId(p, id)[0] == p[0]
  {
    PutAt(p, 4, Little(id));
    PutAt(p[..n], 4, Little(id));
  }

  /** Decapsulation undoes encapsulation: every header field and every byte of payload comes back, with the
      id that was chosen if there was none and with the header checksum computed afresh. */
  lemma RoundTrip(p: seq<u8>, dest: seq<u8>, id: u16)
    requires IsPacket(p) && |dest| == 4
    ensures var q := Encapsulated(p, dest, id);
            && IsPacket(q) && HdrLen(q) == HdrLen(p) && |q| == |p| + 8
            && IsPacket(WithId(p, id)) && Decapsulated(q) == Sealed(WithId(p, id))
  {
    var h := Header(p);
    OuterLength(h, dest, id);
    MinHdrAt(p[9], p[16..20]);
    DecapsulatedParts(WithId(OuterHdr(h, dest), id), MinHdr(p[9], p[16..20]), Payload(p));
    HeaderRestored(h, dest, id);
    SealedParts(p, id);
  }

  lemma OuterLength(h: seq<u8>, dest: seq<u8>, id: u16)
    requires 20 <= |h| && |dest| == 4
    ensures HdrLen(WithId(OuterHdr(h, dest), id)) == HdrLen(h)
  {
    OuterAt(h, dest);
    WithIdSplits(OuterHdr(h, dest), |h|, id);
  }

  lemma SealedParts(p: seq<u8>, id: u16)
    requires IsPacket(p)
    ensures IsPacket(WithId(p, id)) && Sealed(WithId(p, id)) == Checked(WithId(Header(p), id), 10) + Payload(p)
  {
    WithIdSplits(p, HdrLen(p), id);
  }

  /** The id that a packet without one is given shows in the packet that comes back. */
  lemma IdShows(p: seq<u8>, id: u16)
    requires IsPacket(p)
    ensures IsPacket(WithId(p, id)) && (Sealed(WithId(p, id)) == p
            <==> Sealed(p) == p && (p[4] != 0 || p[5] != 0 || id == 0))
  {
    var n, g := HdrLen(p), WithId(p, id);
    WithIdSplits(p, n, id);
    PutAt(p, 4, Little(id));
    CheckedAt(g[..n], 10);
    assert Sealed(g)[4] == g[..n][4] && Sealed(g)[5] == g[..n][5];
    if id == 0 && p[4] == 0 && p[5] == 0 {
      assert g == p;
    }
  }

  /** A packet comes back unchanged exactly when its checksum was right and no new id was given to it. */
  lemma RoundTripIff(p: seq<u8>, dest: seq<u8>, id: u16)
    requires IsPacket(p) && |dest| == 4
    ensures var q := Encapsulated(p, dest, id);
            && IsPacket(q) && HdrLen(q) + 8 <= |q|
            && (Decapsulated(q) == p <==> Sealed(p) == p && (p[4] != 0 || p[5] != 0 || id == 0))
  {
    RoundTrip(p, dest, id);
    IdShows(p, id);
  }

  lemma LittleWord(w: u16)
    ensures Word(Little(w)[0], Little(w)[1]) == w && Little(0) == [0, 0]
  {
  }

  /** A word written into a block. */
  lemma PutWord(h: seq<u8>, k: nat, w: u16)
    requires 2 * k + 2 <= |h|
    ensures Words(Put(h, 2 * k, Little(w))) == Words(h)[..k] + [w] + Words(h)[k + 1..]
  {
    var r := Put(h, 2 * k, Little(w));
    PutAt(h, 2 * k, Little(w));
    LittleWord(w);
    forall j | 0 <= j < |Words(h)|
      ensures Words(r)[j] == if j == k then w else Words(h)[j]
    {
      assert Words(r)[j] == Word(r[2 * j], r[2 * j + 1]);
    }
  }

  function Zeroed(h: seq<u8>, k: nat): (r: seq<u8>)
    requires 2 * k + 2 <= |h|
    ensures |r| == |h|
  {
    Put(h, 2 * k, [0, 0])
  }

  lemma ZeroedWords(h: seq<u8>, k: nat)
    requires 2 * k + 2 <= |h|
    ensures Words(Zeroed(h, k)) == Words(h)[..k] + [0] + Words(h)[k + 1..]
  {
    LittleWord(0);
    PutWord(h, k, 0);
  }

  lemma CheckedWords(h: seq<u8>, k: nat)
    requires 2 * k + 2 <= |h|
    ensures Words(Checked(h, 2 * k)) == Words(h)[..k] + [Checksum(Words(Zeroed(h, k)))] + Words(h)[k + 1..]
  {
    PutWord(h, k, Checksum(Words(Zeroed(h, k))));
  }

  /** The finished encapsulation header sums to zero, as its receiver expects, and so does the outer header
      before an id is chosen. */
  lemma HeadersVerify(h: seq<u8>, dest: seq<u8>, protocol: u8, daddr: seq<u8>)
    requires 20 <= |h| <= 60 && |dest| == 4 && |daddr| == 4
    ensures Checksum(Words(MinHdr(protocol, daddr))) == 0
    ensures Checksum(Words(OuterHdr(h, dest))) == 0
  {
    BlockVerifies([protocol, 0, 0, 0] + daddr, 1);
    BlockVerifies(Resized(Put(Put(h, 16, dest), 9, [IPPROTO_MIPE]), 8), 5);
  }

  lemma BlockVerifies(h: seq<u8>, k: nat)
    requires |h| <= 60 && 2 * k + 2 <= |h|
    ensures Checksum(Words(Checked(h, 2 * k))) == 0
  {
    ZeroedWords(h, k);
    CheckedWords(h, k);
    FinishedSumsToZero(Words(h)[..k], Words(h)[k + 1..]);
  }

  /** A new id is written after the checksum was computed, so the outer header of a packet that had none
      verifies only when the id it is given is a zero of one's complement arithmetic. */
  lemma OuterVerifiesIff(h: seq<u8>, dest: seq<u8>, id: u16)
    requires 20 <= |h| <= 60 && |dest| == 4
    ensures Checksum(Words(WithId(OuterHdr(h, dest), id))) == 0 <==> h[4] != 0 || h[5] != 0 || id == 0 || id == 0xffff
  {
    HeadersVerify(h, dest, 0, [0, 0, 0, 0]);
    OuterAt(h, dest);
    if h[4] == 0 && h[5] == 0 {
      IdReplaced(OuterHdr(h, dest), id);
    }
  }

  lemma IdReplaced(o: seq<u8>, id: u16)
    requires 20 <= |o| <= 60 && o[4] == 0 && o[5] == 0 && Checksum(Words(o)) == 0
    ensures Checksum(Words(WithId(o, id))) == 0 <==> id == 0 || id == 0xffff
  {
    var a, b := Words(o)[..2], Words(o)[3..];
    PutWord(o, 2, id);
    assert Words(o) == a + [0] + b;
    ZeroWordReplaced(a, id, b);
  }

  lemma ZeroWordReplaced(a: seq<u16>, w: u16, b: seq<u16>)
    requires |a| + |b| < 65537 && Checksum(a + [0] + b) == 0
    ensures Checksum(a + [w] + b) == 0 <==> w == 0 || w == 0xffff
  {
    SumMiddle(a, 0, b);
    SumMiddle(a, w, b);
    RegisterHolds(a + [0] + b);
    RegisterHolds(a + [w] + b);
    FullSumPlus(Sum(a) + Sum(b), w);
  }

  lemma FullSumPlus(s: nat, w: u16)
    requires s + w < 0x1_0000_0000 && Folded(s) == 0xffff
    ensures Folded(s + w) == 0xffff <==> w == 0 || w == 0xffff
  {
    TwoFoldsSuffice(s);
    TwoFoldsSuffice(s + w);
    var q := s / 0xffff;
    assert s == 0xffff * q;
    ResidueShift(w, q);
  }

  /** An sk_buff: a buffer and the length of the packet in it. */
  class SkBuff {
    const data: array<u8>
    var len: nat

    ghost predicate Valid()
      reads this, data
    {
      len <= data.Length
    }

    ghost function Contents(): (p: seq<u8>)
      requires Valid()
      reads this, data
    {
      data[..len]
    }

    constructor (size: nat)
      ensures Valid() && len == size == data.Length && fresh(data)
    {
      data := new u8[size](_ => 0);
      len := size;
    }

    /** memcpy of bytes into the packet. */
    method Copy(i: nat, bs: seq<u8>)
      requires Valid() && i + |bs| <= len
      modifies data
      ensures Contents() == Put(old(Contents()), i, bs)
    {
      for j := 0 to |bs|
        invariant forall k :: 0 <= k < data.Length ==> data[k] == if i <= k < i + j then bs[k - i] else old(data[k])
      {
        data[i + j] := bs[j];
      }
    }

    /** The checksum of a block of the packet, written into it. */
    method Check(from: nat, to: nat, i: nat)
      requires Valid() && from <= to <= len && i + 2 <= to - from
      modifies data
      ensures Contents() == Put(old(Contents()), from, Checked(old(Contents())[from..to], i))
    {
      ghost var p := Contents();
      Copy(from + i, [0, 0]);
      ghost var z := Contents();
      var c := SumUp(from, to);
      Copy(from + i, Little(c));
      CheckInPlace(p, z, from, to, i, c);
    }

    method SumUp(from: nat, to: nat) returns (c: u16)
      requires Valid() && from <= to <= len
      ensures c == Checksum(Words(Contents()[from..to]))
    {
      assert data[from..to] == Contents()[from..to];
      c := IpCsum(Words(data[from..to]));
    }

    /** A write into the header a that leaves the rest alone. */
    method CopyHead(i: nat, bs: seq<u8>, ghost a: seq<u8>, ghost r: seq<u8>)
      requires Valid() && Contents() == a + r && i + |bs| <= |a|
      modifies data
      ensures Contents() == Put(a, i, bs) + r
    {
      assert Put(a + r, i, bs) == Put(a, i, bs) + r;
      Copy(i, bs);
    }

    /** ip_send_check. */
    method SendCheck(n: nat, ghost a: seq<u8>, ghost r: seq<u8>)
      requires Valid() && Contents() == a + r && |a| == n >= 20
      modifies data
      ensures Contents() == Checked(a, 10) + r
    {
      assert (a + r)[0..n] == a;
      assert Put(a + r, 0, Checked(a, 10)) == Checked(a, 10) + r;
      Check(0, n, 10);
    }

    /** iph->tot_len = htons(ntohs(iph->tot_len) + d). */
    method Resize(d: int, ghost a: seq<u8>, ghost r: seq<u8>)
      requires Valid() && Contents() == a + r && |a| >= 20 && -8 <= d <= 8
      modifies data
      ensures Contents() == Resized(a, d) + r
    {
      var hi, lo := data[2], data[3];
      assert hi == (a + r)[2] == a[2] && lo == (a + r)[3] == a[3];
      CopyHead(2, TotalLen(hi, lo, d), a, r);
    }

    /** ip_pkt_decapsulate, in place. */
    method Decapsulate()
      requires Valid() && IsPacket(Contents()) && HdrLen(Contents()) + 8 <= len
      modifies this`len, data
      ensures Valid() && Contents() == Decapsulated(old(Contents()))
    {
      ghost var q := Contents();
      assert data[0] == q[0];
      var n := 4 * (data[0] % 16);
      ghost var h, m, b := q[..n], q[n..n + 8], q[n + 8..];
      assert q == h + (m + b) && data[n] == q[n] && data[n + 4..n + 8] == q[n + 4..n + 8];
      var daddr := data[n + 4..n + 8];
      CopyHead(9, [data[n]], h, m + b);
      h := Put(h, 9, [q[n]]);
      CopyHead(16, daddr, h, m + b);
      h := Put(h, 16, daddr);
      CloseGap(n, h, m, b);
      Resize(-8, h, b);
      SendCheck(n, Resized(h, -8), b);
    }

    /** memmove of the payload over the inner header, then skb_trim. */
    method CloseGap(n: nat, ghost h: seq<u8>, ghost m: seq<u8>, ghost b: seq<u8>)
      requires Valid() && Contents() == h + (m + b) && |h| == n && |m| == 8
      modifies this`len, data
      ensures Valid() && Contents() == h + b
    {
      ghost var q := Contents();
      for i := 0 to len - n - 8
        invariant len == |q|
        invariant forall j :: 0 <= j < n ==> data[j] == q[j]
        invariant forall j :: n <= j < n + i ==> data[j] == q[j + 8]
        invariant forall j :: n + i <= j < |q| ==> data[j] == q[j]
      {
        data[n + i] := data[n + 8 + i];
      }
      len := len - 8;
      assert data[..len] == q[..n] + q[n + 8..];
    }
  }

  /** ip_pkt_encapsulate: the copy has the inner header between header and payload. */
  method Encapsulate(skb: SkBuff, dest: seq<u8>, id: u16) returns (nskb: SkBuff)
    requires skb.Valid() && IsPacket(skb.Contents()) && |dest| == 4
    ensures fresh(nskb) && fresh(nskb.data) && nskb.Valid()
    ensures nskb.Contents() == Encapsulated(skb.Contents(), dest, id)
  {
    var p := skb.data[..skb.len];
    nskb := new SkBuff(skb.len + 8);
    var n := HdrLen(p);
    var m := [p[9], 0, 0, 0] + p[16..20];
    Spread(nskb, p[..n], m, p[n..]);
    FillOuter(nskb, n, dest, Header(p), m, Payload(p));
    ChooseId(nskb, id, OuterHdr(Header(p), dest), Checked(m, 2) + Payload(p));
    assert WithId(OuterHdr(Header(p), dest), id) + (Checked(m, 2) + Payload(p))
        == WithId(OuterHdr(Header(p), dest), id) + Checked(m, 2) + Payload(p);
  }

  /** ip_select_ident, for a packet that has no id. */
  method ChooseId(nskb: SkBuff, id: u16, ghost a: seq<u8>, ghost r: seq<u8>)
    requires nskb.Valid() && nskb.Contents() == a + r && |a| >= 20
    modifies nskb.data
    ensures nskb.Contents() == WithId(a, id) + r
  {
    var hi, lo := nskb.data[4], nskb.data[5];
    assert hi == (a + r)[4] == a[4] && lo == (a + r)[5] == a[5];
    if hi == 0 && lo == 0 {
      nskb.CopyHead(4, Little(id), a, r);
    }
  }

  method Spread(nskb: SkBuff, h: seq<u8>, m: seq<u8>, b: seq<u8>)
    requires nskb.Valid() && nskb.len == |h| + |m| + |b|
    modifies nskb.data
    ensures nskb.Contents() == h + m + b
  {
    nskb.Copy(0, h);
    nskb.Copy(|h| + |m|, b);
    nskb.Copy(|h|, m);
    assert nskb.Contents()[..|h|] == h && nskb.Contents()[|h|..|h| + |m|] == m && nskb.Contents()[|h| + |m|..] == b;
  }

  method CheckInner(nskb: SkBuff, n: nat, ghost a: seq<u8>, ghost m: seq<u8>, ghost b: seq<u8>)
    requires nskb.Valid() && nskb.Contents() == a + (m + b) && |a| == n && |m| == 8
    modifies nskb.data
    ensures nskb.Contents() == a + (Checked(m, 2) + b)
  {
    assert (a + (m + b))[n..n + 8] == m;
    assert Put(a + (m + b), n, Checked(m, 2)) == a + (Checked(m, 2) + b);
    nskb.Check(n, n + 8, 2);
  }

  /** The outer header's fields and the two checksums. */
  method FillOuter(nskb: SkBuff, n: nat, dest: seq<u8>, ghost h: seq<u8>, ghost m: seq<u8>, ghost b: seq<u8>)
    requires nskb.Valid() && nskb.Contents() == h + m + b && |h| == n >= 20 && |m| == 8 && |dest| == 4
    modifies nskb.data
    ensures nskb.Contents() == OuterHdr(h, dest) + (Checked(m, 2) + b)
  {
    assert h + m + b == h + (m + b);
    nskb.CopyHead(16, dest, h, m + b);
    ghost var a := Put(h, 16, dest);
    nskb.CopyHead(9, [IPPROTO_MIPE], a, m + b);
    a := Put(a, 9, [IPPROTO_MIPE]);
    nskb.Resize(8, a, m + b);
    a := Resized(a, 8);
    CheckInner(nskb, n, a, m, b);
    nskb.SendCheck(n, a, Checked(m, 2) + b);
  }

  /** A write into a block of the packet is a write into the packet. */
  lemma PutInside(p: seq<u8>, from: nat, to: nat, i: nat, bs: seq<u8>)
    requires from <= to <= |p| && i + |bs| <= to - from
    ensures Put(p, from + i, bs) == Put(p, from, Put(p[from..to], i, bs))
    ensures Put(p, from + i, bs)[from..to] == Put(p[from..to], i, bs)
  {
    var q := p[from..to];
    var l, r := Put(p, from + i, bs), Put(p, from, Put(q, i, bs));
    PutAt(p, from + i, bs);
    PutAt(q, i, bs);
    PutAt(p, from, Put(q, i, bs));
    assert forall j :: 0 <= j < |p| ==> l[j] == r[j];
    assert r[from..to] == Put(q, i, bs);
  }

  /** The second of two writes to one place wins. */
  lemma PutTwice(p: seq<u8>, i: nat, a: seq<u8>, b: seq<u8>)
    requires |a| == |b| && i + |a| <= |p|
    ensures Put(Put(p, i, a), i, b) == Put(p, i, b)
  {
    PutAt(p, i, a);
    PutAt(p, i, b);
    PutAt(Put(p, i, a), i, b);
  }

  lemma CheckInPlace(p: seq<u8>, z: seq<u8>, from: nat, to: nat, i: nat, c: u16)
    requires from <= to <= |p| && i + 2 <= to - from
    requires z == Put(p, from + i, [0, 0]) && c == Checksum(Words(z[from..to]))
    ensures Put(z, from + i, Little(c)) == Put(p, from, Checked(p[from..to], i))
  {
    assert z[from..to] == Put(p[from..to], i, [0, 0]) by { PutInside(p, from, to, i, [0, 0]); }
    assert Put(z, from + i, Little(c)) == Put(p, from + i, Little(c)) by { PutTwice(p, from + i, [0, 0], Little(c)); }
    PutInside(p, from, to, i, Little(c));
  }
}
