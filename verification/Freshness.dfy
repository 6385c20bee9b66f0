/**
 What every handler of one node keeps: no stored route is ever replaced by an older or, at the same
 sequence number, a longer one, and every new next hop is backed by the message that brought it.
 */
module Freshness {
  import opened Words
  import opened Params
  import opened RouteSpec
  import opened AodvSpec

  /** Entry e' is at least as fresh as e. A stored 0 means "unknown" and promises nothing. */
  predicate Fresher(e: Entry, e': Entry) {
    || e.seqno == 0
    || e'.seqno > e.seqno
    || (e'.seqno == e.seqno && (e.valid ==> e'.valid && e'.hops <= e.hops))
  }

  /** A VALID route (s, h) is at least as fresh as e. */
  predicate NoWorse(e: Entry, s: u32, h: nat) {
    e.seqno == 0 || s > e.seqno || (s == e.seqno && (e.valid ==> h <= e.hops))
  }

  ghost predicate Improves(t: Table, t': Table) {
    forall d :: d in t.entries ==> d in t'.entries && Fresher(t.entries[d], t'.entries[d])
  }

  /** The net sequence number: an invalidated entry counts as one less than what it stores. */
  function NetSeqno(e: Entry): (s: int) {
    if e.valid || e.seqno == 0 then e.seqno else e.seqno - 1
  }

  lemma ImprovesTransitive(t: Table, t1: Table, t2: Table)
    requires Improves(t, t1) && Improves(t1, t2)
    ensures Improves(t, t2)
  {
    forall d | d in t.entries
      ensures d in t2.entries && Fresher(t.entries[d], t2.entries[d])
    {
      assert Fresher(t.entries[d], t1.entries[d]) && Fresher(t1.entries[d], t2.entries[d]);
    }
  }

  /** The table knows a route to d that beats (s, h): newer, or as new, usable and shorter. */
  predicate Ahead(t: Table, d: Addr, s: int, h: int) {
    d in t.entries
    && (t.entries[d].seqno > s || (t.entries[d].seqno == s && t.entries[d].valid && t.entries[d].hops < h))
  }

  lemma AheadIsStable(t: Table, t': Table, d: Addr, s: int, h: int)
    requires Ahead(t, d, s, h) && Improves(t, t') && s >= 1
    ensures Ahead(t', d, s, h)
  {
    assert Fresher(t.entries[d], t'.entries[d]);
  }

  // ----- operations that only take routes away ---------------------------------------------

  /** e' is e, or e invalidated with a larger sequence number. */
  predicate Fades(e: Entry, e': Entry) {
    e'.hops == e.hops && e'.next == e.next
    && if e'.valid == e.valid then e'.seqno == e.seqno
       else e.valid && (e.seqno == 0 || e'.seqno > e.seqno)
  }

  ghost predicate Decays(t: Table, t': Table) {
    t'.entries.Keys == t.entries.Keys && t'.buckets == t.buckets
    && forall d :: d in t.entries ==> Fades(t.entries[d], t'.entries[d])
  }

  /** Sequence numbers below 2^31, where the signed comparison is the plain one. */
  ghost predicate Small(t: Table) {
    forall d :: d in t.entries ==> t.entries[d].seqno < 0x8000_0000
  }

  /** Routes are at least a hop long, and one whose number is unknown is a neighbour's. */
  ghost predicate Sound(t: Table) {
    |t.buckets| == TABLE_SIZE && forall d :: d in t.entries ==> LongEnough(t.entries[d])
  }

  predicate LongEnough(e: Entry) {
    e.hops >= 1 && (e.seqno == 0 ==> e.hops == 1)
  }

  /** The same for VALID entries only: what stays true in the middle of a handler. */
  ghost predicate SmallValid(t: Table) {
    forall d :: d in t.entries && t.entries[d].valid ==> t.entries[d].seqno < 0x8000_0000
  }

  /** Freshness in the usual terms, from one state of a table to a later one. */
  lemma ImprovesMeansFresh(t: Table, t': Table, d: Addr)
    requires Improves(t, t') && d in t.entries && LongEnough(t.entries[d])
    ensures d in t'.entries
    ensures NetSeqno(t'.entries[d]) >= NetSeqno(t.entries[d])
    ensures var e, e' := t.entries[d], t'.entries[d];
            LongEnough(e') && e.valid && e'.valid && NetSeqno(e') == NetSeqno(e) ==> e'.hops <= e.hops
  {
    assert Fresher(t.entries[d], t'.entries[d]);
  }

  lemma DecaysTransitive(t: Table, t1: Table, t2: Table)
    requires Decays(t, t1) && Decays(t1, t2)
    ensures Decays(t, t2)
  {
    forall d | d in t.entries
      ensures Fades(t.entries[d], t2.entries[d])
    {
      assert Fades(t.entries[d], t1.entries[d]) && Fades(t1.entries[d], t2.entries[d]);
    }
  }

  lemma DecaysKeeps(t: Table, t': Table)
    requires Decays(t, t')
    ensures Improves(t, t')
    ensures Sound(t) ==> Sound(t')
    ensures SmallValid(t) ==> SmallValid(t')
  {
    forall d | d in t.entries
      ensures Fresher(t.entries[d], t'.entries[d])
      ensures t'.entries[d].hops == t.entries[d].hops && (t'.entries[d].seqno == 0 ==> t.entries[d].seqno == 0)
      ensures t'.entries[d].valid ==> t.entries[d].valid && t'.entries[d].seqno == t.entries[d].seqno
    {
      assert Fades(t.entries[d], t'.entries[d]);
    }
  }

  lemma PutDecays(t: Table, d: Addr, e: Entry)
    requires d in t.entries && Fades(t.entries[d], e)
    ensures Decays(t, Put(t, d, e))
  {
  }

  lemma LinkBreakDecays(t: Table, now: int, d: Addr)
    requires d in t.entries && SmallValid(t)
    ensures Decays(t, LinkBreakSpec(t, now, d).0)
  {
    if t.entries[d].hops == 1 {
      var t1 := InvalidateSpec(t, now, d);
      var e := t1.entries[d];
      CascadeShape(ClearPrecursorsSpec(t1, d), now, d, Flatten(t.buckets), Report(NoRerr, d, e.seqno, e.precs));
    }
  }

  /** t' is t with a VALID route to d installed and other routes at most taken away. */
  ghost predicate Installs(t: Table, t': Table, d: Addr, next: Addr, hops: nat, seqno: u32) {
    && t'.entries.Keys == t.entries.Keys + {d} && |t'.buckets| == |t.buckets|
    && t'.entries[d].valid && t'.entries[d].next == next
    && t'.entries[d].hops == hops && t'.entries[d].seqno == seqno
    && forall a :: a in t.entries && a != d ==> Fades(t.entries[a], t'.entries[a])
  }

  lemma FinishInstalls(t: Table, t2: Table, now: int, d: Addr, next: Addr, hops: nat, seqno: u32, lifetime: u32,
                       unidir: bool)
    requires d in t.entries && Decays(t, t2)
    ensures Installs(t, Put(t2, d, UpdatedEntry(t2.entries[d], now, next, hops, seqno, lifetime, true, unidir)),
                     d, next, hops, seqno)
  {
    var e := UpdatedEntry(t2.entries[d], now, next, hops, seqno, lifetime, true, unidir);
    assert e.valid && e.next == next && e.hops == hops && e.seqno == seqno;
  }

  lemma UpdateInstalls(t: Table, now: int, d: Addr, next: Addr, hops: nat, seqno: u32, lifetime: u32, unidir: bool)
    requires d in t.entries && SmallValid(t)
    ensures Installs(t, UpdateSpec(t, now, d, next, hops, seqno, lifetime, true, unidir).0, d, next, hops, seqno)
  {
    var t1 := AnnounceSpec(t, d, next, true);
    assert Decays(t, t1);
    var breaks := hops > 1 && t1.entries[d].hops == 1;
    var t2 := if breaks then LinkBreakSpec(t1, now, d).0 else t1;
    if breaks {
      LinkBreakDecays(t1, now, d);
      DecaysTransitive(t, t1, t2);
    }
    FinishInstalls(t, t2, now, d, next, hops, seqno, lifetime, unidir);
  }

  lemma InsertInstalls(t: Table, now: int, d: Addr, next: Addr, hops: nat, seqno: u32, lifetime: u32)
    requires d !in t.entries && |t.buckets| == TABLE_SIZE
    ensures Installs(t, InsertSpec(t, now, d, next, hops, seqno, lifetime, true, false), d, next, hops, seqno)
  {
  }

  lemma InstallsKeeps(t: Table, t': Table, d: Addr, next: Addr, hops: nat, seqno: u32)
    requires Installs(t, t', d, next, hops, seqno)
    requires d in t.entries ==> Fresher(t.entries[d], t'.entries[d])
    ensures Improves(t, t')
    ensures Sound(t) && hops >= 1 && (seqno == 0 ==> hops == 1) ==> Sound(t')
    ensures SmallValid(t) && seqno < 0x8000_0000 ==> SmallValid(t')
  {
    forall a | a in t.entries
      ensures Fresher(t.entries[a], t'.entries[a])
    {
      assert a != d ==> Fades(t.entries[a], t'.entries[a]);
    }
    forall a | a in t'.entries && a != d
      ensures t'.entries[a].hops == t.entries[a].hops && (t'.entries[a].seqno == 0 ==> t.entries[a].seqno == 0)
      ensures t'.entries[a].valid ==> t.entries[a].valid && t'.entries[a].seqno == t.entries[a].seqno
    {
      assert Fades(t.entries[a], t'.entries[a]);
    }
  }

  // ----- edges and packets ---------------------------------------------------------------------

  predicate SameRoute(e: Entry, e': Entry) {
    e.valid && e'.valid && e'.seqno == e.seqno && e'.next == e.next && e'.hops == e.hops
  }

  /** The packet offers a route to d with sequence number s, h hops long at the receiver. */
  predicate Offers(p: Packet, d: Addr, s: int, h: int) {
    match p.msg
    case RreqMsg(m) => m.orig == d && m.origSeqno == s && m.hopcnt + 1 == h
    case RrepMsg(m) => m.dest == d && m.destSeqno == s && m.hopcnt + 1 == h
    case _ => false
  }

  /** Where a VALID route of t' comes from: it was there, its next hop is the destination itself,
      or p offered it. */
  ghost predicate EdgesFrom(t: Table, t': Table, p: Packet) {
    forall d :: d in t'.entries && t'.entries[d].valid ==>
      || (d in t.entries && SameRoute(t.entries[d], t'.entries[d]))
      || t'.entries[d].next == d
      || (t'.entries[d].next == p.src && Offers(p, d, t'.entries[d].seqno, t'.entries[d].hops))
  }

  /** What one handler that looks at packet p does to the table. */
  ghost predicate Step(t: Table, t': Table, p: Packet) {
    Sound(t') && SmallValid(t') && Improves(t, t') && EdgesFrom(t, t', p)
  }

  lemma StepThenDecay(t: Table, t1: Table, t2: Table, p: Packet)
    requires Step(t, t1, p) && Decays(t1, t2)
    ensures Step(t, t2, p)
  {
    DecaysKeeps(t1, t2);
    ImprovesTransitive(t, t1, t2);
    forall d | d in t2.entries && t2.entries[d].valid
      ensures SameRoute(t1.entries[d], t2.entries[d])
    {
      assert Fades(t1.entries[d], t2.entries[d]);
    }
  }

  lemma StepReflexive(t: Table, p: Packet)
    requires Sound(t) && Small(t)
    ensures Step(t, t, p)
  {
  }

  lemma InstallsEdges(t: Table, t': Table, d: Addr, next: Addr, hops: nat, seqno: u32, p: Packet)
    requires Installs(t, t', d, next, hops, seqno) && next == p.src && Offers(p, d, seqno, hops)
    ensures EdgesFrom(t, t', p)
  {
    forall a | a in t'.entries && t'.entries[a].valid && a != d
      ensures SameRoute(t.entries[a], t'.entries[a])
    {
      assert Fades(t.entries[a], t'.entries[a]);
    }
  }

  /** What follows for a route taken from packet p. */
  lemma InstalledRoute(t: Table, t': Table, d: Addr, hops: nat, seqno: u32, p: Packet)
    requires Sound(t) && Small(t) && hops >= 1 && 1 <= seqno < 0x8000_0000
    requires Installs(t, t', d, p.src, hops, seqno) && Offers(p, d, seqno, hops)
    requires d in t.entries ==> NoWorse(t.entries[d], seqno, hops)
    ensures Step(t, t', p)
    ensures Ahead(t', d, seqno, hops + 1)
  {
    InstallsKeeps(t, t', d, p.src, hops, seqno);
    InstallsEdges(t, t', d, p.src, hops, seqno, p);
  }

  /** A route from packet p, no worse than the stored one, is installed. */
  lemma UpdateStep(t: Table, now: int, d: Addr, hops: nat, seqno: u32, lifetime: u32, unidir: bool, p: Packet)
    requires Sound(t) && Small(t) && hops >= 1 && 1 <= seqno < 0x8000_0000
    requires d in t.entries && Offers(p, d, seqno, hops) && NoWorse(t.entries[d], seqno, hops)
    ensures var t' := UpdateSpec(t, now, d, p.src, hops, seqno, lifetime, true, unidir).0;
            Step(t, t', p) && Ahead(t', d, seqno, hops + 1) && t'.entries[d].hops == hops
  {
    UpdateInstalls(t, now, d, p.src, hops, seqno, lifetime, unidir);
    InstalledRoute(t, UpdateSpec(t, now, d, p.src, hops, seqno, lifetime, true, unidir).0, d, hops, seqno, p);
  }

  lemma InsertStep(t: Table, now: int, d: Addr, hops: nat, seqno: u32, lifetime: u32, p: Packet)
    requires Sound(t) && Small(t) && hops >= 1 && 1 <= seqno < 0x8000_0000
    requires d !in t.entries && Offers(p, d, seqno, hops)
    ensures var t' := InsertSpec(t, now, d, p.src, hops, seqno, lifetime, true, false);
            Step(t, t', p) && Ahead(t', d, seqno, hops + 1) && t'.entries[d].hops == hops
  {
    InsertInstalls(t, now, d, p.src, hops, seqno, lifetime);
    InstalledRoute(t, InsertSpec(t, now, d, p.src, hops, seqno, lifetime, true, false), d, hops, seqno, p);
  }

  /** What every packet a node sends promises about the sender's own table. */
  predicate PacketOk(t: Table, p: Packet) {
    match p.msg
    case RreqMsg(m) =>
      !m.gratuitous && m.origSeqno >= 1 && (m.orig == p.src || Ahead(t, m.orig, m.origSeqno, m.hopcnt + 1))
    case RrepMsg(m) =>
      m.destSeqno >= 1 && (m.dest == p.src || Ahead(t, m.dest, m.destSeqno, m.hopcnt + 1))
    case RerrMsg(m) => !m.noDelete
    case RrepAckMsg => true
  }

  ghost predicate AllOk(self: Addr, t: Table, out: seq<Packet>) {
    forall p :: p in out ==> p.src == self && PacketOk(t, p)
  }

  lemma AllOkJoin(self: Addr, t: Table, a: seq<Packet>, b: seq<Packet>)
    requires AllOk(self, t, a) && AllOk(self, t, b)
    ensures AllOk(self, t, a + b)
  {
  }

  lemma RerrsAreOk(self: Addr, t: Table, dr: Draft)
    ensures AllOk(self, t, LinkBreakPackets(self, dr))
  {
  }

  lemma RerrsAndAcksOk(self: Addr, t: Table, dr: Draft, asked: bool, next: Addr)
    ensures AllOk(self, t, LinkBreakPackets(self, dr) + Acks(self, asked, next))
  {
  }

  lemma PacketOkIsStable(t: Table, t': Table, p: Packet)
    requires PacketOk(t, p) && Improves(t, t')
    ensures PacketOk(t', p)
  {
    match p.msg
    case RreqMsg(m) => if m.orig != p.src { AheadIsStable(t, t', m.orig, m.origSeqno, m.hopcnt + 1); }
    case RrepMsg(m) => if m.dest != p.src { AheadIsStable(t, t', m.dest, m.destSeqno, m.hopcnt + 1); }
    case _ =>
  }

  lemma BreakUnidirDecays(t: Table, now: int, rev: Addr)
    requires rev in t.entries && SmallValid(t)
    ensures Decays(t, BreakUnidir(t, now, rev).0)
  {
    var e := t.entries[rev];
    if e.valid && e.unidir && e.next in t.entries && t.entries[e.next].valid && !t.entries[e.next].ackUsed {
      var t0 := Put(t, e.next, t.entries[e.next].(unidir := true));
      PutDecays(t, e.next, t.entries[e.next].(unidir := true));
      LinkBreakDecays(t0, now, e.next);
      var t1 := LinkBreakSpec(t0, now, e.next).0;
      DecaysTransitive(t, t0, t1);
      PutDecays(t1, e.next, t1.entries[e.next].(ackUsed := true));
      DecaysTransitive(t, t1, Put(t1, e.next, t1.entries[e.next].(ackUsed := true)));
    }
  }

  lemma LinkPrecursorsDecays(t: Table, rev: Addr, fwd: Addr)
    requires rev in t.entries && fwd in t.entries
    ensures Decays(t, LinkPrecursors(t, rev, fwd))
  {
  }

  lemma RrepSendDecays(n: NodeState, now: int, m: Rrep, rev: Addr, fwd: Addr, hasFwd: bool)
    requires rev in n.table.entries && (hasFwd ==> fwd in n.table.entries)
    requires SmallValid(n.table)
    ensures Decays(n.table, RrepSend(n, now, m, rev, fwd, hasFwd).0.table)
  {
    BreakUnidirDecays(n.table, now, rev);
    if hasFwd {
      var t := BreakUnidir(n.table, now, rev).0;
      LinkPrecursorsDecays(t, rev, fwd);
      DecaysTransitive(n.table, t, LinkPrecursors(t, rev, fwd));
    }
  }

  lemma RrepSendFades(n: NodeState, now: int, m: Rrep, rev: Addr, fwd: Addr, hasFwd: bool)
    requires rev in n.table.entries && (hasFwd ==> fwd in n.table.entries)
    requires SmallValid(n.table)
    requires m.destSeqno >= 1 && (m.dest == n.self || Ahead(n.table, m.dest, m.destSeqno, m.hopcnt + 1))
    ensures var (n', out) := RrepSend(n, now, m, rev, fwd, hasFwd);
            Decays(n.table, n'.table) && n'.self == n.self && n'.hostSeq == n.hostSeq && AllOk(n.self, n'.table, out)
  {
    RrepSendDecays(n, now, m, rev, fwd, hasFwd);
    var t' := RrepSend(n, now, m, rev, fwd, hasFwd).0.table;
    DecaysKeeps(n.table, t');
    if m.dest != n.self {
      AheadIsStable(n.table, t', m.dest, m.destSeqno, m.hopcnt + 1);
    }
  }

  // ----- the handlers --------------------------------------------------------------------------

  lemma HearNeighborKeeps(n: NodeState, now: int, p: Packet)
    requires Sound(n.table) && Small(n.table)
    ensures var n1 := HearNeighbor(n, now, p.src);
            && Sound(n1.table) && Small(n1.table) && Improves(n.table, n1.table) && EdgesFrom(n.table, n1.table, p)
            && n1.table.entries.Keys == n.table.entries.Keys + {p.src}
            && n1.self == n.self && n1.hostSeq == n.hostSeq
  {
    var t := n.table;
    if p.src in t.entries && !t.entries[p.src].unidir {
      UpdateInstalls(t, now, p.src, p.src, 1, t.entries[p.src].seqno, ACTIVE_ROUTE_TIMEOUT, false);
    }
  }

  /** The rule "accept a RREQ" keeps freshness, and refusing it means already being ahead. */
  lemma ReverseTableKeeps(t: Table, now: int, m: Rreq, p: Packet)
    requires Sound(t) && Small(t) && 1 <= m.origSeqno < 0x8000_0000
    requires p.msg == RreqMsg(m)
    ensures var t1 := ReverseTable(t, now, m, p.src).0;
            && Step(t, t1, p)
            && Ahead(t1, m.orig, m.origSeqno, m.hopcnt + 2)
  {
    var hops := m.hopcnt + 1;
    if m.orig !in t.entries {
      InsertStep(t, now, m.orig, hops, m.origSeqno, ReverseLifetime(hops), p);
    } else {
      var e := t.entries[m.orig];
      RreqRule(e, m.origSeqno, hops);
      if AcceptRreq(e, m.origSeqno, hops) {
        UpdateStep(t, now, m.orig, hops, m.origSeqno, ReverseLifetime(hops), e.unidir, p);
      } else {
        StepReflexive(t, p);
      }
    }
  }

  /** The rule "accept a RREQ" never accepts a worse route, and refusing means already being ahead. */
  lemma RreqRule(e: Entry, s: u32, h: nat)
    requires e.seqno < 0x8000_0000 && 1 <= s < 0x8000_0000
    ensures AcceptRreq(e, s, h) ==> NoWorse(e, s, h)
    ensures !AcceptRreq(e, s, h) ==> e.seqno > s || (e.seqno == s && e.valid && e.hops < h + 1)
  {
  }

  lemma AnswerOrForwardKeeps(n: NodeState, now: int, m: Rreq, len: int, ttl: int)
    requires Sound(n.table) && SmallValid(n.table) && m.orig in n.table.entries
    requires !m.gratuitous && m.origSeqno >= 1 && Ahead(n.table, m.orig, m.origSeqno, m.hopcnt + 2)
    requires 1 <= n.hostSeq < 0x8000_0000 && m.destSeqno < 0x8000_0000
    ensures var (n', out) := AnswerOrForward(n, now, m, len, ttl);
            && Decays(n.table, n'.table) && n'.self == n.self && n'.hostSeq >= n.hostSeq
            && AllOk(n.self, n'.table, out)
  {
    var t := n.table;
    if m.dest == n.self {
      var n1 := n.(hostSeq := AnswerSeqno(n.hostSeq, m.destSeqno));
      RrepSendFades(n1, now, Rrep(0, n.self, n1.hostSeq, m.orig, MY_ROUTE_TIMEOUT, false), m.orig, 0, false);
    } else if m.dest in t.entries && t.entries[m.dest].valid && !m.destOnly
              && t.entries[m.dest].seqno != 0
              && AsSigned(t.entries[m.dest].seqno) >= AsSigned(m.destSeqno) {
      var f := t.entries[m.dest];
      var life := Wrap(DiffMs(f.deadline - now));
      RrepSendFades(n, now, Rrep(f.hops, m.dest, f.seqno, m.orig, life, false), m.orig, m.dest, true);
    }
  }

  lemma RreqKeeps(n: NodeState, now: int, m: Rreq, len: int, p: Packet)
    requires Sound(n.table) && Small(n.table) && 1 <= n.hostSeq < 0x8000_0000
    requires !m.gratuitous && 1 <= m.origSeqno < 0x8000_0000 && m.destSeqno < 0x8000_0000
    requires p.msg == RreqMsg(m)
    ensures var (n', out) := RreqProcess(n, now, m, len, p.src, p.ttl);
            && Step(n.table, n'.table, p)
            && n'.self == n.self && n'.hostSeq >= n.hostSeq && AllOk(n.self, n'.table, out)
            && n'.table.entries.Keys <= n.table.entries.Keys + {m.orig}
            && (n.self !in n.table.entries ==> n.self !in n'.table.entries)
  {
    if m.orig == n.self || len < RREQ_SIZE || p.src in n.blacklist || (m.orig, m.id) in n.records {
      StepReflexive(n.table, p);
    } else {
      ReverseTableKeeps(n.table, now, m, p);
      var (n1, dr) := ReverseRoute(n, now, m, p.src);
      AnswerOrForwardKeeps(n1, now, m, len, p.ttl);
      var (n2, out) := AnswerOrForward(n1, now, m, len, p.ttl);
      StepThenDecay(n.table, n1.table, n2.table, p);
      RerrsAreOk(n.self, n2.table, dr);
      AllOkJoin(n.self, n2.table, LinkBreakPackets(n.self, dr), out);
    }
  }

  /** The one branch of the RREP rule that can make a route worse: the RT_UNIDIR flag lets a longer
      route of equal sequence number replace a VALID one. */
  predicate UnidirDowngrade(t: Table, m: Rrep) {
    m.dest in t.entries
    && var e := t.entries[m.dest];
       e.valid && e.unidir && e.seqno == m.destSeqno && m.hopcnt + 1 > e.hops
  }

  /** Accepting a RREP keeps the stored route fresh exactly outside that branch. */
  lemma RrepRuleKeepsFreshIff(t: Table, m: Rrep)
    requires Small(t) && 1 <= m.destSeqno < 0x8000_0000
    requires m.dest in t.entries && AcceptRrep(t.entries[m.dest], m.destSeqno, m.hopcnt + 1)
    ensures NoWorse(t.entries[m.dest], m.destSeqno, m.hopcnt + 1) <==> !UnidirDowngrade(t, m)
  {
  }

  lemma ForwardTableKeeps(t: Table, now: int, m: Rrep, p: Packet)
    requires Sound(t) && Small(t) && 1 <= m.destSeqno < 0x8000_0000
    requires p.msg == RrepMsg(m) && !UnidirDowngrade(t, m)
    ensures var (t1, dr, accepted) := ForwardTable(t, now, m, p.src);
            && Step(t, t1, p)
            && (accepted ==> Ahead(t1, m.dest, m.destSeqno, t1.entries[m.dest].hops + 1))
  {
    var hops := m.hopcnt + 1;
    if m.dest !in t.entries {
      InsertStep(t, now, m.dest, hops, m.destSeqno, m.lifetime, p);
    } else if AcceptRrep(t.entries[m.dest], m.destSeqno, hops) {
      UpdateStep(t, now, m.dest, hops, m.destSeqno, m.lifetime, t.entries[m.dest].unidir, p);
    } else {
      StepReflexive(t, p);
    }
  }

  lemma AskForAckDecays(t: Table, next: Addr)
    ensures Decays(t, AskForAck(t, next).0)
  {
  }

  lemma RrepForwardFades(n: NodeState, now: int, m: Rrep, len: int, rev: Addr, fwd: Addr, ttl: int)
    requires rev in n.table.entries && fwd in n.table.entries && m.dest == fwd && m.destSeqno >= 1
    requires Ahead(n.table, fwd, m.destSeqno, n.table.entries[fwd].hops + 1)
    ensures var (n', out) := RrepForward(n, now, m, len, rev, fwd, ttl);
            Decays(n.table, n'.table) && n'.self == n.self && n'.hostSeq == n.hostSeq && AllOk(n.self, n'.table, out)
  {
    var next := n.table.entries[rev].next;
    var t1 := AskForAck(n.table, next).0;
    AskForAckDecays(n.table, next);
    assert Fades(n.table.entries[fwd], t1.entries[fwd]);
    LinkPrecursorsDecays(t1, rev, fwd);
    var t2 := LinkPrecursors(t1, rev, fwd);
    DecaysTransitive(n.table, t1, t2);
    var t3 := UpdateTimeoutSpec(t2, now, rev, ACTIVE_ROUTE_TIMEOUT);
    PutDecays(t2, rev, t3.entries[rev]);
    DecaysTransitive(n.table, t2, t3);
    DecaysKeeps(n.table, t3);
    AheadIsStable(n.table, t3, fwd, m.destSeqno, n.table.entries[fwd].hops + 1);
  }

  /** Acknowledging and forwarding an accepted RREP only takes routes away. */
  lemma RrepRestKeeps(t: Table, n: NodeState, now: int, m: Rrep, len: int, p: Packet, hadRev: bool, dr: Draft)
    requires Step(t, n.table, p) && m.destSeqno >= 1 && m.dest in n.table.entries
    requires Ahead(n.table, m.dest, m.destSeqno, n.table.entries[m.dest].hops + 1)
    requires hadRev ==> m.orig in n.table.entries
    ensures var (n', out) := RrepRest(n, now, m, len, p.ttl, hadRev, dr);
            && Step(t, n'.table, p) && n'.self == n.self && n'.hostSeq == n.hostSeq && AllOk(n.self, n'.table, out)
            && n'.table.entries.Keys == n.table.entries.Keys
  {
    if m.orig != n.self && hadRev && n.table.entries[m.orig].valid {
      var _, _ := RrepRestOnward(t, n, now, m, len, p, dr);
    } else {
      RerrsAndAcksOk(n.self, n.table, dr, m.ack, n.table.entries[m.dest].next);
    }
  }

  lemma RrepRestForwards(n: NodeState, now: int, m: Rrep, len: int, ttl: int, dr: Draft,
                         n1: NodeState, fw: seq<Packet>)
    requires m.dest in n.table.entries && m.orig in n.table.entries
    requires m.orig != n.self && n.table.entries[m.orig].valid
    requires (n1, fw) == RrepForward(n, now, m.(ack := false), len, m.orig, m.dest, ttl - 1)
    ensures RrepRest(n, now, m, len, ttl, true, dr)
            == (n1, LinkBreakPackets(n.self, dr) + Acks(n.self, m.ack, n.table.entries[m.dest].next) + fw)
  {
  }

  lemma RrepRestOnward(t: Table, n: NodeState, now: int, m: Rrep, len: int, p: Packet, dr: Draft)
    returns (n': NodeState, out: seq<Packet>)
    requires Step(t, n.table, p) && m.destSeqno >= 1 && m.dest in n.table.entries && m.orig in n.table.entries
    requires Ahead(n.table, m.dest, m.destSeqno, n.table.entries[m.dest].hops + 1)
    requires m.orig != n.self && n.table.entries[m.orig].valid
    ensures RrepRest(n, now, m, len, p.ttl, true, dr) == (n', out)
    ensures Step(t, n'.table, p) && n'.self == n.self && n'.hostSeq == n.hostSeq && AllOk(n.self, n'.table, out)
    ensures n'.table.entries.Keys == n.table.entries.Keys
  {
    var n1, fw := RrepOnwardKeeps(t, n, now, m, len, p, dr);
    RrepRestForwards(n, now, m, len, p.ttl, dr, n1, fw);
    n', out := n1, LinkBreakPackets(n.self, dr) + Acks(n.self, m.ack, n.table.entries[m.dest].next) + fw;
  }

  /** The RREP goes on along the VALID route to its originator. */
  lemma RrepOnwardKeeps(t: Table, n: NodeState, now: int, m: Rrep, len: int, p: Packet, dr: Draft)
    returns (n1: NodeState, fw: seq<Packet>)
    requires Step(t, n.table, p) && m.destSeqno >= 1 && m.dest in n.table.entries && m.orig in n.table.entries
    requires Ahead(n.table, m.dest, m.destSeqno, n.table.entries[m.dest].hops + 1)
    ensures (n1, fw) == RrepForward(n, now, m.(ack := false), len, m.orig, m.dest, p.ttl - 1)
    ensures Step(t, n1.table, p) && n1.self == n.self && n1.hostSeq == n.hostSeq
    ensures AllOk(n.self, n1.table, LinkBreakPackets(n.self, dr) + Acks(n.self, m.ack, n.table.entries[m.dest].next)
            + fw)
    ensures n1.table.entries.Keys == n.table.entries.Keys
  {
    var m1 := m.(ack := false);
    RrepForwardFades(n, now, m1, len, m.orig, m.dest, p.ttl - 1);
    var r := RrepForward(n, now, m1, len, m.orig, m.dest, p.ttl - 1);
    n1, fw := r.0, r.1;
    StepThenDecay(t, n.table, n1.table, p);
    var next := n.table.entries[m.dest].next;
    RerrsAndAcksOk(n.self, n1.table, dr, m.ack, next);
    AllOkJoin(n.self, n1.table, LinkBreakPackets(n.self, dr) + Acks(n.self, m.ack, next), fw);
  }

  lemma RrepKeeps(n: NodeState, now: int, m: Rrep, len: int, p: Packet)
    requires Sound(n.table) && Small(n.table) && 1 <= m.destSeqno < 0x8000_0000
    requires p.msg == RrepMsg(m) && !UnidirDowngrade(n.table, m)
    ensures var (n', out) := RrepProcess(n, now, m, len, p.src, p.ttl);
            && Step(n.table, n'.table, p)
            && n'.self == n.self && n'.hostSeq == n.hostSeq && AllOk(n.self, n'.table, out)
            && (n.self !in n.table.entries ==> n.self !in n'.table.entries)
  {
    if len < RREP_SIZE || m.dest == n.self {
      StepReflexive(n.table, p);
    } else {
      ForwardTableKeeps(n.table, now, m, p);
      var (t1, dr, accepted) := ForwardTable(n.table, now, m, p.src);
      var n1 := n.(table := t1);
      if !accepted {
        StepReflexive(n.table, p);
      } else {
        RrepRestKeeps(n.table, n1, now, m, len, p, m.orig in n.table.entries, dr);
      }
    }
  }

  /** A listed pair that would lower the net sequence number of the route it takes down: the stored
      number is not below the listed one, yet passes the test. */
  predicate EqualHit(t: Table, src: Addr, d: Addr, s: u32) {
    RerrHits(t, src, d, s) && t.entries[d].seqno == s && s != 0
  }

  ghost predicate RerrStrict(t: Table, src: Addr, m: Rerr) {
    forall k :: 0 <= k < |m.dests| ==> !EqualHit(t, src, m.dests[k].0, m.dests[k].1)
  }

  /** Taking down a route on a RERR keeps it fresh exactly when the listed number is strictly newer
      (or nothing was known). */
  lemma RerrKeepsFreshIff(t: Table, src: Addr, d: Addr, s: u32, e': Entry)
    requires Small(t) && s < 0x8000_0000 && RerrHits(t, src, d, s)
    requires !e'.valid && e'.seqno == s
    ensures Fresher(t.entries[d], e') <==> !EqualHit(t, src, d, s)
  {
  }

  lemma {:induction false} RerrWalkDecays(t: Table, now: int, src: Addr, work: seq<(Addr, u32)>, dr: Draft)
    requires SmallValid(t)
    requires forall k :: 0 <= k < |work| ==> work[k].1 < 0x8000_0000 && !EqualHit(t, src, work[k].0, work[k].1)
    ensures Decays(t, RerrWalk(t, now, false, src, work, dr).0)
    decreases work
  {
    if work != [] {
      var d, s, rest := work[0].0, work[0].1, work[1..];
      assert work == [(d, s)] + rest;
      RerrWalkStep(t, now, false, src, d, s, rest, dr);
      var (t1, dr1) := RerrStep(t, now, false, src, d, s, dr);
      assert !EqualHit(t, src, d, s);
      RerrStepDecays(t, now, src, d, s, dr);
      forall k | 0 <= k < |rest|
        ensures rest[k].1 < 0x8000_0000 && !EqualHit(t1, src, rest[k].0, rest[k].1)
      {
        assert rest[k] == work[k + 1];
        assert rest[k].0 in t.entries ==> Fades(t.entries[rest[k].0], t1.entries[rest[k].0]);
      }
      RerrWalkDecays(t1, now, src, rest, dr1);
      DecaysTransitive(t, t1, RerrWalk(t1, now, false, src, rest, dr1).0);
    }
  }

  lemma RerrStepDecays(t: Table, now: int, src: Addr, d: Addr, s: u32, dr: Draft)
    requires SmallValid(t) && s < 0x8000_0000 && !EqualHit(t, src, d, s)
    ensures var t1 := RerrStep(t, now, false, src, d, s, dr).0;
            Decays(t, t1) && SmallValid(t1)
  {
    var t1 := RerrStep(t, now, false, src, d, s, dr).0;
    if RerrHits(t, src, d, s) {
      assert t1.entries == t.entries[d := t1.entries[d]];
    }
  }

  lemma RerrKeeps(n: NodeState, now: int, m: Rerr, len: int, p: Packet)
    requires Sound(n.table) && Small(n.table) && !m.noDelete && RerrStrict(n.table, p.src, m)
    requires forall k :: 0 <= k < |m.dests| ==> m.dests[k].1 < 0x8000_0000
    ensures var (n', out) := RerrProcess(n, now, m, len, p.src);
            && Step(n.table, n'.table, p) && n'.self == n.self && n'.hostSeq == n.hostSeq
            && n'.table.entries.Keys == n.table.entries.Keys && AllOk(n.self, n'.table, out)
  {
    StepReflexive(n.table, p);
    RerrWalkDecays(n.table, now, p.src, m.dests, NoRerr);
    StepThenDecay(n.table, n.table, RerrWalk(n.table, now, false, p.src, m.dests, NoRerr).0, p);
  }

  lemma AckKeeps(n: NodeState, p: Packet)
    requires Sound(n.table) && Small(n.table)
    ensures var n' := AckProcess(n, p.src);
            && Step(n.table, n'.table, p) && n'.self == n.self && n'.hostSeq == n.hostSeq
            && n'.table.entries.Keys == n.table.entries.Keys
  {
    StepReflexive(n.table, p);
    StepThenDecay(n.table, n.table, AckProcess(n, p.src).table, p);
  }

  /** Two handlers, one after the other, looking at the same packet. */
  lemma StepsCompose(t: Table, t1: Table, t2: Table, p: Packet)
    requires Improves(t, t1) && EdgesFrom(t, t1, p) && Step(t1, t2, p)
    ensures Step(t, t2, p)
  {
    ImprovesTransitive(t, t1, t2);
  }

  // ----- timers and local events -----------------------------------------------------------------

  lemma HoldIfKnownDecays(t: Table, now: int, d: Addr)
    ensures Decays(t, HoldIfKnown(t, now, d))
  {
  }

  lemma DiscoverDecays(n: NodeState, now: int, d: Addr)
    requires 1 <= n.hostSeq < 0x8000_0000
    ensures var (n', out) := Discover(n, now, d);
            Decays(n.table, n'.table) && n'.self == n.self && n'.hostSeq >= n.hostSeq && AllOk(n.self, n'.table, out)
  {
    HoldIfKnownDecays(n.table, now, d);
  }

  lemma DiscoveryTimeoutDecays(n: NodeState, now: int, d: Addr)
    requires 1 <= n.hostSeq < 0x8000_0000 && d in n.table.seeks
    ensures var (n', out) := DiscoveryTimeout(n, now, d);
            Decays(n.table, n'.table) && n'.self == n.self && n'.hostSeq >= n.hostSeq && AllOk(n.self, n'.table, out)
  {
    HoldIfKnownDecays(n.table, now, d);
  }

  lemma ExpireDecays(t: Table, now: int, d: Addr)
    requires d in t.entries && SmallValid(t)
    ensures Decays(t, ExpireSpec(t, now, d).0)
  {
    if t.entries[d].hops == 1 {
      LinkBreakDecays(t, now, d);
    }
  }
}
