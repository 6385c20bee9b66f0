/**
 How fast sequence numbers grow: no event raises the largest number in the network by more than one. So
 the limit of 2^31 is out of reach of any run of fewer events than what is left to it.
 */
module Growth {
  import opened Words
  import opened Params
  import opened RouteSpec
  import opened AodvSpec
  import opened Network

  ghost predicate Capped(t: Table, k: int) {
    (forall d :: d in t.entries ==> t.entries[d].seqno <= k) && SeeksCapped(t.seeks, k)
  }

  ghost predicate SeeksCapped(seeks: map<Addr, Seek>, k: int) {
    forall d :: d in seeks ==> seeks[d].seqno <= k
  }

  /** In the middle of a handler the routes it has invalidated may already be one higher. */
  ghost predicate Rising(t: Table, k: int) {
    (forall d :: d in t.entries ==> t.entries[d].seqno <= if t.entries[d].valid then k else k + 1)
    && SeeksCapped(t.seeks, k)
  }

  predicate ListCapped(dests: seq<(Addr, u32)>, k: int) {
    forall j :: 0 <= j < |dests| ==> dests[j].1 <= k
  }

  predicate DraftCapped(dr: Draft, k: int) {
    dr.Draft? ==> ListCapped(dr.dests, k)
  }

  predicate PacketCapped(p: Packet, k: int) {
    match p.msg
    case RreqMsg(m) => m.origSeqno <= k && m.destSeqno <= k
    case RrepMsg(m) => m.destSeqno <= k
    case RerrMsg(m) => ListCapped(m.dests, k)
    case RrepAckMsg => true
  }

  ghost predicate OutCapped(out: seq<Packet>, k: int) {
    forall p :: p in out ==> PacketCapped(p, k)
  }

  /** What a handler started at k leaves behind. */
  ghost predicate Left(n: NodeState, out: seq<Packet>, k: int) {
    Rising(n.table, k) && n.hostSeq <= k + 1 && OutCapped(out, k + 1)
  }

  lemma {:induction false} CascadeRises(t: Table, now: int, broken: Addr, work: seq<Addr>, dr: Draft, k: int)
    requires Rising(t, k) && DraftCapped(dr, k + 1)
    ensures var (t', dr') := Cascade(t, now, broken, work, dr);
            Rising(t', k) && DraftCapped(dr', k + 1)
    decreases work
  {
    if work != [] {
      var u := work[0];
      if u in t.entries && t.entries[u].valid && t.entries[u].next == broken && u != broken {
        var t1 := InvalidateSpec(t, now, u);
        var e := t1.entries[u];
        CascadeRises(ClearPrecursorsSpec(t1, u), now, broken, work[1..], Report(dr, u, e.seqno, e.precs), k);
      } else {
        CascadeRises(t, now, broken, work[1..], dr, k);
      }
    }
  }

  lemma LinkBreakRises(t: Table, now: int, d: Addr, k: int)
    requires d in t.entries && Rising(t, k)
    ensures var (t', dr) := LinkBreakSpec(t, now, d);
            Rising(t', k) && DraftCapped(dr, k + 1)
  {
    if t.entries[d].hops == 1 {
      var t1 := InvalidateSpec(t, now, d);
      var e := t1.entries[d];
      CascadeRises(ClearPrecursorsSpec(t1, d), now, d, Flatten(t.buckets), Report(NoRerr, d, e.seqno, e.precs), k);
    }
  }

  lemma UpdateRises(t: Table, now: int, d: Addr, next: Addr, hops: nat, seqno: u32, life: u32, unidir: bool, k: int)
    requires d in t.entries && Rising(t, k) && seqno <= k
    ensures var (t', dr) := UpdateSpec(t, now, d, next, hops, seqno, life, true, unidir);
            Rising(t', k) && DraftCapped(dr, k + 1)
  {
    LinkBreakRises(AnnounceSpec(t, d, next, true), now, d, k);
  }

  lemma HearNeighborRises(n: NodeState, now: int, src: Addr, k: nat)
    requires |n.table.buckets| == TABLE_SIZE && Capped(n.table, k)
    ensures Rising(HearNeighbor(n, now, src).table, k)
  {
    if src in n.table.entries {
      UpdateRises(n.table, now, src, src, 1, n.table.entries[src].seqno, ACTIVE_ROUTE_TIMEOUT, false, k);
    }
  }

  lemma BreakUnidirRises(t: Table, now: int, rev: Addr, k: int)
    requires rev in t.entries && Rising(t, k)
    ensures var (t', dr) := BreakUnidir(t, now, rev);
            Rising(t', k) && DraftCapped(dr, k + 1)
  {
    var d := t.entries[rev].next;
    if d in t.entries {
      LinkBreakRises(Put(t, d, t.entries[d].(unidir := true)), now, d, k);
    }
  }

  lemma LinkRises(t: Table, rev: Addr, fwd: Addr, k: int)
    requires rev in t.entries && fwd in t.entries && Rising(t, k)
    ensures Rising(LinkPrecursors(t, rev, fwd), k)
  {
  }

  lemma RrepSendRises(n: NodeState, now: int, m: Rrep, rev: Addr, fwd: Addr, hasFwd: bool, k: int)
    requires rev in n.table.entries && (hasFwd ==> fwd in n.table.entries)
    requires Rising(n.table, k) && n.hostSeq <= k + 1 && m.destSeqno <= k + 1
    ensures var (n', out) := RrepSend(n, now, m, rev, fwd, hasFwd);
            Left(n', out, k)
  {
    BreakUnidirRises(n.table, now, rev, k);
    if hasFwd {
      LinkRises(BreakUnidir(n.table, now, rev).0, rev, fwd, k);
    }
    RrepSendSays(n, now, m, rev, fwd, hasFwd, k);
  }

  lemma RrepSendSays(n: NodeState, now: int, m: Rrep, rev: Addr, fwd: Addr, hasFwd: bool, k: int)
    requires rev in n.table.entries && (hasFwd ==> fwd in n.table.entries) && m.destSeqno <= k + 1
    requires DraftCapped(BreakUnidir(n.table, now, rev).1, k + 1)
    ensures OutCapped(RrepSend(n, now, m, rev, fwd, hasFwd).1, k + 1)
  {
  }

  lemma FromTableRises(n: NodeState, now: int, m: Rreq, k: int)
    requires m.orig in n.table.entries && m.dest in n.table.entries && Rising(n.table, k) && n.hostSeq <= k + 1
    ensures var (n', out) := FromTable(n, now, m);
            Left(n', out, k)
  {
    var f := n.table.entries[m.dest];
    var life := Wrap(DiffMs(f.deadline - now));
    var rrep := Rrep(f.hops, m.dest, f.seqno, m.orig, life, false);
    RrepSendRises(n, now, rrep, m.orig, m.dest, true, k);
    if m.gratuitous {
      var n1 := RrepSend(n, now, rrep, m.orig, m.dest, true).0;
      var b := n1.table.entries[m.orig];
      RrepSendRises(n1, now, Rrep(b.hops, m.orig, b.seqno, m.dest, life, false), m.dest, m.orig, true, k);
    }
  }

  lemma AnswerRises(n: NodeState, now: int, m: Rreq, len: int, ttl: int, k: int)
    requires m.orig in n.table.entries && Rising(n.table, k) && n.hostSeq <= k
    requires m.origSeqno <= k && m.destSeqno <= k
    ensures var (n', out) := AnswerOrForward(n, now, m, len, ttl);
            Left(n', out, k)
  {
    if m.dest == n.self {
      var n1 := n.(hostSeq := AnswerSeqno(n.hostSeq, m.destSeqno));
      RrepSendRises(n1, now, Rrep(0, n.self, n1.hostSeq, m.orig, MY_ROUTE_TIMEOUT, false), m.orig, 0, false, k);
    } else if m.dest in n.table.entries {
      FromTableRises(n, now, m, k);
    }
  }

  lemma ReverseTableRises(t: Table, now: int, m: Rreq, src: Addr, k: int)
    requires |t.buckets| == TABLE_SIZE && Rising(t, k) && m.origSeqno <= k
    ensures var (t', dr) := ReverseTable(t, now, m, src);
            Rising(t', k) && DraftCapped(dr, k + 1)
  {
    if m.orig in t.entries {
      UpdateRises(t, now, m.orig, src, m.hopcnt + 1, m.origSeqno, ReverseLifetime(m.hopcnt + 1),
                  t.entries[m.orig].unidir, k);
    }
  }

  lemma RreqRises(n: NodeState, now: int, m: Rreq, len: int, src: Addr, ttl: int, k: int)
    requires |n.table.buckets| == TABLE_SIZE && Rising(n.table, k) && n.hostSeq <= k
    requires m.origSeqno <= k && m.destSeqno <= k
    ensures var (n', out) := RreqProcess(n, now, m, len, src, ttl);
            Left(n', out, k)
  {
    ReverseTableRises(n.table, now, m, src, k);
    AnswerRises(ReverseRoute(n, now, m, src).0, now, m, len, ttl, k);
  }

  lemma RrepForwardRises(n: NodeState, now: int, m: Rrep, len: int, rev: Addr, fwd: Addr, ttl: int, k: int)
    requires rev in n.table.entries && fwd in n.table.entries
    requires Rising(n.table, k) && n.hostSeq <= k && m.destSeqno <= k
    ensures var (n', out) := RrepForward(n, now, m, len, rev, fwd, ttl);
            Left(n', out, k)
  {
    var t := AskForAck(n.table, n.table.entries[rev].next).0;
    assert Rising(t, k);
    LinkRises(t, rev, fwd, k);
    ProlongRises(LinkPrecursors(t, rev, fwd), now, rev, ACTIVE_ROUTE_TIMEOUT, k);
  }

  lemma ProlongRises(t: Table, now: int, d: Addr, lifetime: u32, k: int)
    requires d in t.entries
    ensures Rising(t, k) ==> Rising(UpdateTimeoutSpec(t, now, d, lifetime), k)
    ensures Capped(t, k) ==> Capped(UpdateTimeoutSpec(t, now, d, lifetime), k)
  {
  }

  lemma ForwardTableRises(t: Table, now: int, m: Rrep, src: Addr, k: int)
    requires |t.buckets| == TABLE_SIZE && Rising(t, k) && m.destSeqno <= k
    ensures var (t', dr, _) := ForwardTable(t, now, m, src);
            Rising(t', k) && DraftCapped(dr, k + 1)
  {
    if m.dest in t.entries {
      UpdateRises(t, now, m.dest, src, m.hopcnt + 1, m.destSeqno, m.lifetime, t.entries[m.dest].unidir, k);
    }
  }

  lemma RrepRestRises(n: NodeState, now: int, m: Rrep, len: int, ttl: int, hadRev: bool, dr: Draft, k: int)
    requires m.dest in n.table.entries && (hadRev ==> m.orig in n.table.entries)
    requires Rising(n.table, k) && n.hostSeq <= k && m.destSeqno <= k && DraftCapped(dr, k + 1)
    ensures var (n', out) := RrepRest(n, now, m, len, ttl, hadRev, dr);
            Left(n', out, k)
  {
    var out := LinkBreakPackets(n.self, dr) + Acks(n.self, m.ack, n.table.entries[m.dest].next);
    assert OutCapped(out, k + 1);
    if hadRev {
      RrepForwardRises(n, now, m.(ack := false), len, m.orig, m.dest, ttl - 1, k);
    }
  }

  lemma RrepRises(n: NodeState, now: int, m: Rrep, len: int, src: Addr, ttl: int, k: int)
    requires |n.table.buckets| == TABLE_SIZE && Rising(n.table, k) && n.hostSeq <= k && m.destSeqno <= k
    ensures var (n', out) := RrepProcess(n, now, m, len, src, ttl);
            Left(n', out, k)
  {
    ForwardTableRises(n.table, now, m, src, k);
    var (t, dr, accepted) := ForwardTable(n.table, now, m, src);
    if accepted {
      RrepRestRises(n.(table := t), now, m, len, ttl, m.orig in n.table.entries, dr, k);
    }
  }

  lemma RerrStepRises(t: Table, now: int, noDelete: bool, src: Addr, d: Addr, s: u32, dr: Draft, k: int)
    requires Rising(t, k) && s <= k && DraftCapped(dr, k)
    ensures var (t', dr') := RerrStep(t, now, noDelete, src, d, s, dr);
            Rising(t', k) && DraftCapped(dr', k)
  {
  }

  lemma {:induction false} RerrWalkRises(t: Table, now: int, noDelete: bool, src: Addr, work: seq<(Addr, u32)>,
                                         dr: Draft, k: int)
    requires Rising(t, k) && ListCapped(work, k) && DraftCapped(dr, k)
    ensures var (t', dr') := RerrWalk(t, now, noDelete, src, work, dr);
            Rising(t', k) && DraftCapped(dr', k)
    decreases work
  {
    if work != [] {
      var (t1, dr1) := RerrStep(t, now, noDelete, src, work[0].0, work[0].1, dr);
      RerrStepRises(t, now, noDelete, src, work[0].0, work[0].1, dr, k);
      RerrWalkRises(t1, now, noDelete, src, work[1..], dr1, k);
    }
  }

  lemma DispatchedRises(n: NodeState, now: int, p: Packet, k: int)
    requires |n.table.buckets| == TABLE_SIZE && Rising(n.table, k) && n.hostSeq <= k && PacketCapped(p, k)
    ensures var (n', out) := Dispatched(n, now, p);
            Left(n', out, k)
  {
    match p.msg
    case RreqMsg(m) => RreqRises(n, now, m, p.len, p.src, p.ttl, k);
    case RrepMsg(m) => RrepRises(n, now, m, p.len, p.src, p.ttl, k);
    case RerrMsg(m) => RerrWalkRises(n.table, now, m.noDelete, p.src, m.dests, NoRerr, k);
    case RrepAckMsg =>
  }

  lemma AskRises(n: NodeState, now: int, d: Addr, seqno: u32, ttl: int, s: Seek, k: nat)
    requires Capped(n.table, k) && n.hostSeq <= k && seqno <= k && s.seqno <= k
    ensures var (n', out) := Ask(n.(table := HoldIfKnown(n.table, now, d)), d, seqno, ttl, s);
            Left(n', out, k)
  {
    if d in n.table.entries {
      ProlongRises(n.table, now, d, 2 * NET_TRAVERSAL_TIME, k);
    }
  }

  lemma UnsolicitedRises(n: NodeState, now: int, src: Addr, dst: Addr, k: nat)
    requires Capped(n.table, k) && n.hostSeq <= k
    ensures var (n', out) := UnsolicitedRerr(n, now, src, dst);
            Left(n', out, k)
  {
    if dst in n.table.entries {
      ProlongRises(n.table, now, dst, DELETE_PERIOD, k);
    }
  }

  lemma RouteTimeoutRises(n: NodeState, now: int, d: Addr, k: nat)
    requires |n.table.buckets| == TABLE_SIZE && d in n.table.entries && Capped(n.table, k) && n.hostSeq <= k
    ensures var (n', out) := RouteTimeout(n, now, d);
            Left(n', out, k)
  {
    LinkBreakRises(n.table, now, d, k);
  }

  /** One event at one node. */
  lemma ReactRises(n: NodeState, now: int, a: Action, k: nat)
    requires |n.table.buckets| == TABLE_SIZE && Ready(n, a)
    requires Capped(n.table, k) && n.hostSeq <= k && (a.Deliver? ==> PacketCapped(a.p, k))
    ensures var (n', out) := React(n, now, a);
            Left(n', out, k)
  {
    match a
    case Deliver(p, _) =>
      HearNeighborRises(n, now, p.src, k);
      DispatchedRises(HearNeighbor(n, now, p.src), now, p, k);
    case Seek(_, d) =>
      var known := d in n.table.entries;
      var seqno := if known then n.table.entries[d].seqno else 0;
      var ttl := if known then n.table.entries[d].hops + TTL_INCREMENT else TTL_START;
      AskRises(n, now, d, seqno, ttl, RouteSpec.Seek(seqno, ttl, 1), k);
    case SeekFires(_, d) =>
      var s := n.table.seeks[d];
      var ttl := if s.ttl < TTL_THRESHOLD then s.ttl + TTL_INCREMENT else NET_DIAMETER;
      AskRises(n, now, d, s.seqno, ttl, s.(ttl := ttl, count := s.count + 1), k);
    case DataWithoutRoute(_, src, dst) => UnsolicitedRises(n, now, src, dst, k);
    case RouteFires(_, d) => RouteTimeoutRises(n, now, d, k);
    case _ =>
  }

  /** No number in the network is above k. */
  ghost predicate AtMost(net: Net, k: int) {
    && (forall i :: i in net.nodes ==> Capped(net.nodes[i].table, k) && net.nodes[i].hostSeq <= k)
    && forall p :: p in net.soup ==> PacketCapped(p, k)
  }

  lemma StepRises(net: Net, ev: Event, k: nat)
    requires AtMost(net, k) && Enabled(net, ev.action)
    ensures AtMost(NetStep(net, ev), k + 1)
  {
    var i := Site(ev.action);
    ReactRises(net.nodes[i], ev.now, ev.action, k);
    var (n', out) := React(net.nodes[i], ev.now, ev.action);
    CommitRises(net, i, n', out, k);
  }

  lemma CommitRises(net: Net, i: Addr, n: NodeState, out: seq<Packet>, k: nat)
    requires AtMost(net, k) && Left(n, out, k)
    ensures AtMost(Commit(net, i, n, out), k + 1)
  {
    assert Capped(n.table, k + 1);
    forall p | p in Commit(net, i, n, out).soup
      ensures PacketCapped(p, k + 1)
    {
      assert p in net.soup ==> PacketCapped(p, k);
    }
  }

  /** However the events fall, a run of n of them raises the largest number by at most n. */
  lemma {:induction false} RunRises(net: Net, evs: seq<Event>, k: nat)
    requires AtMost(net, k) && Happens(net, evs)
    ensures AtMost(Outcome(net, evs), k + |evs|)
    decreases evs
  {
    if evs != [] {
      StepRises(net, evs[0], k);
      RunRises(NetStep(net, evs[0]), evs[1..], k + 1);
    }
  }

  /** So every run of fewer than 2^31 - k events keeps all numbers below 2^31. */
  lemma ShortRunsFit(net: Net, evs: seq<Event>, k: nat)
    requires AtMost(net, k) && Happens(net, evs) && k + |evs| < 0x8000_0000
    ensures Fits(Outcome(net, evs))
  {
    RunRises(net, evs, k);
    AtMostFits(Outcome(net, evs), k + |evs|);
  }

  lemma AtMostFits(net: Net, k: nat)
    requires AtMost(net, k) && k < 0x8000_0000
    ensures Fits(net)
  {
    forall p | p in net.soup
      ensures PacketSmall(p)
    {
      assert PacketCapped(p, k);
    }
  }

  lemma {:induction false} ShortRunsMeet(net: Net, evs: seq<Event>, xs: set<Assumption>, k: nat)
    requires AtMost(net, k) && RunsMeeting(net, evs, xs - {SmallNumbers}) && k + |evs| < 0x8000_0000
    ensures RunsMeeting(net, evs, xs)
    decreases evs
  {
    if evs != [] {
      AtMostFits(net, k);
      StepRises(net, evs[0], k);
      ShortRunsMeet(NetStep(net, evs[0]), evs[1..], xs, k + 1);
    }
  }

  /** Loop freedom without the assumption on numbers, for every run of fewer than 2^31 - k events from own
      numbers of at most k. */
  lemma ShortRunsAreLoopFree(net: Net, evs: seq<Event>, k: nat)
    requires Initial(net) && AtMost(net, k) && k + |evs| < 0x8000_0000
    requires RunsMeeting(net, evs, ALL - {SmallNumbers})
    ensures LoopFree(Outcome(net, evs))
  {
    ShortRunsMeet(net, evs, ALL, k);
    RunsMeetsAll(net, evs);
    LoopFreedom(net, evs);
  }
}
