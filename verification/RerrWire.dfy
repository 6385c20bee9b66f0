/**
 The RERR message on the wire (section 5.3 of RFC 3561): a four-byte head and eight bytes for each
 unreachable destination. Addresses are stored as they are, on a little-endian host; sequence numbers go
 through htonl.
 */
module RerrWire {
  import opened Words

  type u8 = x: int | 0 <= x < 0x100

  type Udest = (u32, u32)  // address and sequence number

  const AODV_RERR: u8 := 3
  const SEND_BUF_SIZE := 1024

  function Little(x: u32): (bs: seq<u8>)
    ensures |bs| == 4
  {
    var a := x / 0x100;
    var b := a / 0x100;
    [x % 0x100, a % 0x100, b % 0x100, b / 0x100]
  }

  function FromLittle(bs: seq<u8>): (x: u32)
    requires |bs| == 4
  {
    var a: int, b: int, c: int, d: int := bs[0], bs[1], bs[2], bs[3];
    a + 0x100 * (b + 0x100 * (c + 0x100 * d))
  }

  /** htonl, byte by byte. */
  function Big(x: u32): (bs: seq<u8>)
    ensures |bs| == 4
  {
    var l := Little(x);
    [l[3], l[2], l[1], l[0]]
  }

  function FromBig(bs: seq<u8>): (x: u32)
    requires |bs| == 4
  {
    FromLittle([bs[3], bs[2], bs[1], bs[0]])
  }

  function Pair(d: Udest): (bs: seq<u8>)
    ensures |bs| == 8
  {
    Little(d.0) + Big(d.1)
  }

  function Body(ds: seq<Udest>): (bs: seq<u8>)
    ensures |bs| == 8 * |ds|
  {
    if ds == [] then [] else Body(ds[..|ds| - 1]) + Pair(ds[|ds| - 1])
  }

  /** The message about ds; the count is one byte. */
  function Encoded(nodelete: bool, ds: seq<Udest>): (bs: seq<u8>)
    ensures |bs| == 4 + 8 * |ds|
  {
    [AODV_RERR, if nodelete then 1 else 0, 0, |ds| % 0x100] + Body(ds)
  }

  /** RERR_CALC_SIZE, from the count. */
  function CalcSize(count: int): (n: int) { 12 + (count - 1) * 8 }

  function UdestAt(bs: seq<u8>, i: nat): (d: Udest)
    requires 4 + 8 * i + 8 <= |bs|
  {
    (FromLittle(bs[4 + 8 * i..4 + 8 * i + 4]), FromBig(bs[4 + 8 * i + 4..4 + 8 * i + 8]))
  }

  /** What a walk over the first `count` destinations reads. */
  function Decoded(bs: seq<u8>, count: nat): (ds: seq<Udest>)
    requires CalcSize(count) <= |bs|
    ensures |ds| == count
  {
    seq(count, i requires 0 <= i < count => UdestAt(bs, i))
  }

  lemma LittleAndBack(x: u32)
    ensures FromLittle(Little(x)) == x && FromBig(Big(x)) == x
  {
    var l := Little(x);
    assert [l[0], l[1], l[2], l[3]] == l;
  }

  lemma {:induction false} BodyAt(ds: seq<Udest>, i: nat)
    requires i < |ds|
    ensures Body(ds)[8 * i..8 * i + 8] == Pair(ds[i])
  {
    var n := |ds| - 1;
    if i < n {
      BodyAt(ds[..n], i);
      assert Body(ds)[8 * i..8 * i + 8] == Body(ds[..n])[8 * i..8 * i + 8];
    }
  }

  /** Encoding loses nothing: reading back as many destinations as were written gives the same list. */
  lemma DecodeEncode(nodelete: bool, ds: seq<Udest>, rest: seq<u8>)
    ensures Decoded(Encoded(nodelete, ds) + rest, |ds|) == ds
  {
    var bs := Encoded(nodelete, ds) + rest;
    forall i | 0 <= i < |ds|
      ensures UdestAt(bs, i) == ds[i]
    {
      BodyAt(ds, i);
      var p := Pair(ds[i]);
      assert bs[4 + 8 * i..4 + 8 * i + 8] == Body(ds)[8 * i..8 * i + 8];
      assert bs[4 + 8 * i..4 + 8 * i + 4] == p[..4] == Little(ds[i].0);
      assert bs[4 + 8 * i + 4..4 + 8 * i + 8] == p[4..] == Big(ds[i].1);
      LittleAndBack(ds[i].0);
      LittleAndBack(ds[i].1);
    }
  }

  /** Four digits in base 256, most significant first. */
  function Number(a: int, b: int, c: int, d: int): (x: int) { ((a * 0x100 + b) * 0x100 + c) * 0x100 + d }

  /** Where things are in the message: the type, the flag, the count, and for each destination four bytes of address
      as the host has it and four of its number in network order. */
  lemma Layout(nodelete: bool, ds: seq<Udest>, i: nat)
    requires i < |ds| < 0x100
    ensures var bs, at := Encoded(nodelete, ds), 4 + 8 * i;
            && bs[0] == AODV_RERR && bs[1] == (if nodelete then 1 else 0) && bs[2] == 0 && bs[3] == |ds|
            && ds[i].0 == Number(bs[at + 3], bs[at + 2], bs[at + 1], bs[at])
            && ds[i].1 == Number(bs[at + 4], bs[at + 5], bs[at + 6], bs[at + 7])
  {
    var bs, at, p := Encoded(nodelete, ds), 4 + 8 * i, Pair(ds[i]);
    BodyAt(ds, i);
    var q := bs[at..at + 8];
    assert q == Body(ds)[8 * i..8 * i + 8] == p;
    assert bs[at] == q[0] && bs[at + 1] == q[1] && bs[at + 2] == q[2] && bs[at + 3] == q[3];
    assert bs[at + 4] == q[4] && bs[at + 5] == q[5] && bs[at + 6] == q[6] && bs[at + 7] == q[7];
    LittleAndBack(ds[i].0);
    LittleAndBack(ds[i].1);
    assert Little(ds[i].0) == p[..4] && Big(ds[i].1) == p[4..];
  }

  /** A message about ds fits the send buffer exactly when it has at most 127 destinations. */
  lemma FitsIff(nodelete: bool, ds: seq<Udest>)
    ensures |Encoded(nodelete, ds)| <= SEND_BUF_SIZE <==> |ds| <= 127
    ensures |Encoded(nodelete, ds)| == CalcSize(|ds|)
  {
  }

  /** The buffer starts with the message about ds. */
  ghost predicate Holds(buf: array<u8>, nodelete: bool, ds: seq<Udest>)
    reads buf
  {
    |Encoded(nodelete, ds)| <= buf.Length && buf[..|Encoded(nodelete, ds)|] == Encoded(nodelete, ds)
  }

  method Write(buf: array<u8>, at: nat, bs: seq<u8>)
    requires at + |bs| <= buf.Length
    modifies buf
    ensures buf[..] == old(buf[..at]) + bs + old(buf[at + |bs|..])
  {
    for i := 0 to |bs|
      invariant forall j :: 0 <= j < buf.Length ==> buf[j] == if at <= j < at + i then bs[j - at] else old(buf[j])
    {
      buf[at + i] := bs[i];
    }
  }

  /** rerr_create in the shared send buffer. */
  method Create(buf: array<u8>, nodelete: bool, dest: Udest)
    requires buf.Length == SEND_BUF_SIZE
    modifies buf
    ensures Holds(buf, nodelete, [dest])
  {
    for i := 0 to buf.Length
      invariant forall j :: 0 <= j < i ==> buf[j] == 0
    {
      buf[i] := 0;
    }
    Write(buf, 0, [AODV_RERR, if nodelete then 1 else 0, 0, 1]);
    Write(buf, 4, Little(dest.0));
    Write(buf, 8, Big(dest.1));
    assert [dest][..0] == [];
    assert buf[..12] == [AODV_RERR, if nodelete then 1 else 0, 0, 1] + Pair(dest);
  }

  /** rerr_add_udest. */
  method AddUdest(buf: array<u8>, dest: Udest, ghost nodelete: bool, ghost ds: seq<Udest>)
    requires buf.Length == SEND_BUF_SIZE && Holds(buf, nodelete, ds) && 1 <= |ds| < 127
    modifies buf
    ensures Holds(buf, nodelete, ds + [dest])
  {
    HeadOf(buf, nodelete, ds);
    var at := CalcSize(buf[3]);
    ghost var bs := Encoded(nodelete, ds);
    Write(buf, at, Little(dest.0));
    Write(buf, at + 4, Big(dest.1));
    assert buf[..at + 8] == bs + Pair(dest);
    buf[3] := (buf[3] + 1) % 0x100;
    assert (ds + [dest])[..|ds|] == ds;
    assert buf[..at + 8] == Encoded(nodelete, ds + [dest]);
  }

  /** The walk of rerr_process: the length check, then the loop that counts dest_count down. Nothing beyond
      RERR_CALC_SIZE bytes is read, and nothing but dest_count is written. */
  method Walk(buf: array<u8>, len: nat) returns (ok: bool, nodelete: bool, ds: seq<Udest>)
    requires len <= buf.Length && 4 <= buf.Length
    modifies buf
    ensures ok <==> len >= CalcSize(old(buf[3]))
    ensures ok ==> nodelete == (old(buf[1]) % 2 == 1) && buf[3] == 0
    ensures ok ==> ds == Decoded(old(buf[..CalcSize(buf[3])]), old(buf[3]))
    ensures !ok ==> ds == [] && buf[..] == old(buf[..])
    ensures forall i :: 0 <= i < buf.Length && i != 3 ==> buf[i] == old(buf[i])
  {
    nodelete, ds := buf[1] % 2 == 1, [];
    ghost var count := buf[3];
    ghost var msg := buf[..];
    if len < CalcSize(buf[3]) {
      return false, nodelete, [];
    }
    var at := 4;
    while buf[3] != 0
      invariant buf[3] + |ds| == count && at == 4 + 8 * |ds|
      invariant forall i :: 0 <= i < buf.Length && i != 3 ==> buf[i] == msg[i]
      invariant ds == Decoded(msg[..CalcSize(count)], count)[..|ds|]
      decreases buf[3]
    {
      assert buf[at..at + 4] == msg[..CalcSize(count)][at..at + 4];
      assert buf[at + 4..at + 8] == msg[..CalcSize(count)][at + 4..at + 8];
      var d := (FromLittle(buf[at..at + 4]), FromBig(buf[at + 4..at + 8]));
      assert d == UdestAt(msg[..CalcSize(count)], |ds|);
      ds := ds + [d];
      at := at + 8;
      buf[3] := buf[3] - 1;
    }
    return true, nodelete, ds;
  }

  /** rerr_create, then rerr_add_udest for each further destination. */
  method Build(buf: array<u8>, nodelete: bool, ds: seq<Udest>)
    requires buf.Length == SEND_BUF_SIZE && 1 <= |ds| <= 127
    modifies buf
    ensures Holds(buf, nodelete, ds)
  {
    Create(buf, nodelete, ds[0]);
    assert ds[..1] == [ds[0]];
    for i := 1 to |ds|
      invariant Holds(buf, nodelete, ds[..i])
    {
      AddUdest(buf, ds[i], nodelete, ds[..i]);
      assert ds[..i + 1] == ds[..i] + [ds[i]];
    }
    assert ds[..|ds|] == ds;
  }

  /** A RERR that was built here is read there as it was meant, for every list of up to 127 destinations. */
  method RoundTrip(buf: array<u8>, nodelete: bool, ds: seq<Udest>) returns (ok: bool, n: bool, back: seq<Udest>)
    requires buf.Length == SEND_BUF_SIZE && 1 <= |ds| <= 127
    modifies buf
    ensures ok && n == nodelete && back == ds
  {
    Build(buf, nodelete, ds);
    ghost var bs := Encoded(nodelete, ds);
    HeadOf(buf, nodelete, ds);
    DecodeEncode(nodelete, ds, []);
    assert bs + [] == bs;
    ok, n, back := Walk(buf, CalcSize(|ds|));
  }

  lemma HeadOf(buf: array<u8>, nodelete: bool, ds: seq<Udest>)
    requires Holds(buf, nodelete, ds) && |ds| <= 127
    ensures buf.Length >= 4 && buf[3] == |ds| && buf[1] == if nodelete then 1 else 0
  {
    var bs := Encoded(nodelete, ds);
    assert buf[..|bs|][3] == bs[3] && buf[..|bs|][1] == bs[1];
  }
}
