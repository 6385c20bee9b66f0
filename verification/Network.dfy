/**
 Any number of AODV nodes and the packets that were ever sent. A packet may be delivered late, any
 number of times, to any of its addressees, or never, so loss, reordering, mobility and the
 daemon's own send limits are covered. Timers fire at any time.
 */
module Network {
  import opened Words
  import opened RouteSpec
  import opened AodvSpec
  import opened Freshness

  datatype Net = Net(nodes: map<Addr, NodeState>, soup: set<Packet>)

  datatype Action =
    | Deliver(p: Packet, to: Addr)
    | Seek(at: Addr, dest: Addr)
    | SeekFires(at: Addr, dest: Addr)
    | DataWithoutRoute(at: Addr, src: Addr, dst: Addr)
    | RouteFires(at: Addr, dest: Addr)
    | AckFires(at: Addr, dest: Addr)
    | RecordFires(at: Addr, orig: Addr, id: u32)
    | BlacklistFires(at: Addr, dest: Addr)

  datatype Event = Event(now: int, action: Action)

  function Site(a: Action): (i: Addr) {
    if a.Deliver? then a.to else a.at
  }

  predicate Ready(n: NodeState, a: Action) {
    match a
    case Deliver(p, to) => to != p.src && (p.dst == to || p.dst == BROADCAST)
    case SeekFires(_, d) => d in n.table.seeks
    case RouteFires(_, d) => d in n.table.entries && n.table.entries[d].armed
    case AckFires(_, d) => d in n.table.entries && n.table.entries[d].ackUsed
    case _ => true
  }

  predicate Enabled(net: Net, a: Action) {
    && Site(a) in net.nodes && |net.nodes[Site(a)].table.buckets| == TABLE_SIZE
    && (a.Deliver? ==> a.p in net.soup)
    && Ready(net.nodes[Site(a)], a)
  }

  function React(n: NodeState, now: int, a: Action): (r: (NodeState, seq<Packet>))
    requires |n.table.buckets| == TABLE_SIZE
    requires a.SeekFires? ==> a.dest in n.table.seeks
    requires a.RouteFires? || a.AckFires? ==> a.dest in n.table.entries
  {
    match a
    case Deliver(p, _) => Receive(n, now, p)
    case Seek(_, d) => Discover(n, now, d)
    case SeekFires(_, d) => DiscoveryTimeout(n, now, d)
    case DataWithoutRoute(_, src, dst) => UnsolicitedRerr(n, now, src, dst)
    case RouteFires(_, d) => RouteTimeout(n, now, d)
    case AckFires(_, d) => (AckTimeout(n, d), [])
    case RecordFires(_, orig, id) => (n.(records := n.records - {(orig, id)}), [])
    case BlacklistFires(_, d) => (n.(blacklist := n.blacklist - {d}), [])
  }

  function Commit(net: Net, i: Addr, n: NodeState, out: seq<Packet>): (net': Net) {
    Net(net.nodes[i := n], net.soup + set p | p in out)
  }

  function NetStep(net: Net, ev: Event): (net': Net)
    requires Enabled(net, ev.action)
  {
    var i := Site(ev.action);
    var (n, out) := React(net.nodes[i], ev.now, ev.action);
    Commit(net, i, n, out)
  }

  /** Every event can happen; nothing else is assumed of the run. */
  ghost predicate Happens(net: Net, evs: seq<Event>)
    decreases evs
  {
    evs == [] || (Enabled(net, evs[0].action) && Happens(NetStep(net, evs[0]), evs[1..]))
  }

  ghost function Outcome(net: Net, evs: seq<Event>): (net': Net)
    requires Happens(net, evs)
    decreases evs
  {
    if evs == [] then net else Outcome(NetStep(net, evs[0]), evs[1..])
  }

  /** Nothing has been sent. */
  predicate Silent(net: Net) {
    net.soup == {} && forall i :: i in net.nodes ==> net.nodes[i].self == i
  }

  // ----- the assumptions -------------------------------------------------------------------------

  predicate RerrSmall(m: Rerr) {
    forall k :: 0 <= k < |m.dests| ==> m.dests[k].1 < 0x8000_0000
  }

  predicate PacketSmall(p: Packet) {
    match p.msg
    case RreqMsg(m) => m.origSeqno < 0x8000_0000 && m.destSeqno < 0x8000_0000
    case RrepMsg(m) => m.destSeqno < 0x8000_0000
    case RerrMsg(m) => RerrSmall(m)
    case RrepAckMsg => true
  }

  /** Every sequence number in the network is below 2^31. */
  ghost predicate Fits(net: Net) {
    (forall i :: i in net.nodes ==> Small(net.nodes[i].table) && net.nodes[i].hostSeq < 0x8000_0000)
    && forall p :: p in net.soup ==> PacketSmall(p)
  }

  /** The packet avoids the two branches that can make a stored route worse: a longer RREP over a
      unidirectional route, and a RERR listing the very number that is stored. */
  ghost predicate Harmless(t: Table, p: Packet) {
    match p.msg
    case RrepMsg(m) => !UnidirDowngrade(t, m)
    case RerrMsg(m) => RerrStrict(t, p.src, m)
    case _ => true
  }

  /** ... and no entry is deleted. A packet is judged by the table after its sender was heard. */
  ghost predicate Admissible(net: Net, ev: Event)
    requires Enabled(net, ev.action)
  {
    var n := net.nodes[Site(ev.action)];
    && Fits(net)
    && (ev.action.Deliver? ==> Harmless(HearNeighbor(n, ev.now, ev.action.p.src).table, ev.action.p))
    && (ev.action.RouteFires? ==> n.table.entries[ev.action.dest].handler == ExpireHandler)
  }

  /** The four assumptions on events, one by one. */
  datatype Assumption = SmallNumbers | NoEqualRerr | NoUnidirDowngrade | NoDeletion

  ghost predicate Meets(net: Net, ev: Event, x: Assumption)
    requires Enabled(net, ev.action)
  {
    var n, a := net.nodes[Site(ev.action)], ev.action;
    match x
    case SmallNumbers => Fits(net)
    case NoEqualRerr =>
      a.Deliver? && a.p.msg.RerrMsg? ==> RerrStrict(HearNeighbor(n, ev.now, a.p.src).table, a.p.src, a.p.msg.rerr)
    case NoUnidirDowngrade =>
      a.Deliver? && a.p.msg.RrepMsg? ==> !UnidirDowngrade(HearNeighbor(n, ev.now, a.p.src).table, a.p.msg.rrep)
    case NoDeletion => a.RouteFires? ==> n.table.entries[a.dest].handler == ExpireHandler
  }

  lemma AdmissibleMeetsAll(net: Net, ev: Event)
    requires Enabled(net, ev.action)
    ensures Admissible(net, ev) <==> forall x :: x in ALL ==> Meets(net, ev, x)
  {
    if forall x :: x in ALL ==> Meets(net, ev, x) {
      assert Meets(net, ev, SmallNumbers) && Meets(net, ev, NoEqualRerr);
      assert Meets(net, ev, NoUnidirDowngrade) && Meets(net, ev, NoDeletion);
    }
  }

  /** Every event can happen and meets the assumptions in xs. */
  ghost predicate RunsMeeting(net: Net, evs: seq<Event>, xs: set<Assumption>)
    ensures RunsMeeting(net, evs, xs) ==> Happens(net, evs)
    decreases evs
  {
    evs == []
    || (Enabled(net, evs[0].action) && (forall x :: x in xs ==> Meets(net, evs[0], x))
        && RunsMeeting(NetStep(net, evs[0]), evs[1..], xs))
  }

  const ALL: set<Assumption> := {SmallNumbers, NoEqualRerr, NoUnidirDowngrade, NoDeletion}

  ghost predicate Runs(net: Net, evs: seq<Event>)
    decreases evs
  {
    evs == []
    || (Enabled(net, evs[0].action) && Admissible(net, evs[0]) && Runs(NetStep(net, evs[0]), evs[1..]))
  }

  ghost function Final(net: Net, evs: seq<Event>): (net': Net)
    requires Runs(net, evs)
    decreases evs
  {
    if evs == [] then net else Final(NetStep(net, evs[0]), evs[1..])
  }

  lemma {:induction false} RunsMeetsAll(net: Net, evs: seq<Event>)
    ensures Runs(net, evs) <==> RunsMeeting(net, evs, ALL)
    ensures Runs(net, evs) ==> Final(net, evs) == Outcome(net, evs)
    decreases evs
  {
    if evs != [] && Enabled(net, evs[0].action) {
      AdmissibleMeetsAll(net, evs[0]);
      RunsMeetsAll(NetStep(net, evs[0]), evs[1..]);
    }
  }

  /** No node has heard anything, and every own sequence number is at least 1. */
  ghost predicate Initial(net: Net) {
    net.soup == {}
    && forall i :: i in net.nodes ==>
         && net.nodes[i].self == i
         && IsEmpty(net.nodes[i].table)
         && net.nodes[i].hostSeq >= 1
  }

  // ----- loops -------------------------------------------------------------------------------------

  /** Node i forwards data for d to node j. */
  predicate Hop(net: Net, d: Addr, i: Addr, j: Addr) {
    i in net.nodes && d in net.nodes[i].table.entries
    && net.nodes[i].table.entries[d].valid && net.nodes[i].table.entries[d].next == j
  }

  ghost predicate Path(net: Net, d: Addr, p: seq<Addr>) {
    |p| >= 2 && forall k :: 0 <= k < |p| - 1 ==> Hop(net, d, p[k], p[k + 1])
  }

  ghost predicate LoopFree(net: Net) {
    forall d, p :: Path(net, d, p) ==> p[0] != p[|p| - 1]
  }

  // ----- the invariant -----------------------------------------------------------------------------

  ghost predicate NodeOk(n: NodeState, i: Addr) {
    n.self == i && n.hostSeq >= 1 && Sound(n.table) && i !in n.table.entries
  }

  /** A VALID route leads to its destination directly, or to a node that is strictly ahead. */
  ghost predicate EdgeOk(net: Net, d: Addr, e: Entry) {
    e.next == d || (e.seqno >= 1 && e.next in net.nodes && Ahead(net.nodes[e.next].table, d, e.seqno, e.hops))
  }

  ghost predicate EdgesOk(net: Net, t: Table) {
    forall d :: d in t.entries && t.entries[d].valid ==> EdgeOk(net, d, t.entries[d])
  }

  ghost predicate SoupOk(net: Net) {
    forall p :: p in net.soup ==> p.src in net.nodes && PacketOk(net.nodes[p.src].table, p)
  }

  ghost predicate Inv(net: Net) {
    (forall i :: i in net.nodes ==> NodeOk(net.nodes[i], i) && EdgesOk(net, net.nodes[i].table))
    && SoupOk(net)
  }

  lemma InitialInv(net: Net)
    requires Initial(net)
    ensures Inv(net)
  {
  }

  /** One node moved as a handler moves it; the others stand still. */
  lemma CommitKeepsInv(net: Net, i: Addr, n: NodeState, out: seq<Packet>, p: Packet)
    requires Inv(net) && i in net.nodes && NodeOk(n, i)
    requires Step(net.nodes[i].table, n.table, p) && AllOk(i, n.table, out)
    requires p.msg.RrepAckMsg? || (p in net.soup && p.src != i)
    ensures Inv(Commit(net, i, n, out))
  {
    var net' := Commit(net, i, n, out);
    forall j | j in net.nodes
      ensures EdgesOk(net', net'.nodes[j].table)
    {
      EdgesMove(net, net', j, i, p);
    }
    forall q | q in net'.soup
      ensures q.src in net'.nodes && PacketOk(net'.nodes[q.src].table, q)
    {
      if q in net.soup && q.src == i {
        PacketOkIsStable(net.nodes[i].table, n.table, q);
      }
    }
  }

  lemma EdgesMove(net: Net, net': Net, j: Addr, i: Addr, p: Packet)
    requires Inv(net) && i in net.nodes && j in net.nodes && net'.nodes.Keys == net.nodes.Keys
    requires forall k :: k in net.nodes && k != i ==> net'.nodes[k] == net.nodes[k]
    requires Step(net.nodes[i].table, net'.nodes[i].table, p)
    requires p.msg.RrepAckMsg? || (p in net.soup && p.src != i)
    ensures EdgesOk(net', net'.nodes[j].table)
  {
    var t, t' := net.nodes[j].table, net'.nodes[j].table;
    forall d | d in t'.entries && t'.entries[d].valid && t'.entries[d].next != d
      ensures EdgeOk(net', d, t'.entries[d])
    {
      var e := t'.entries[d];
      assert d in t.entries && t.entries[d].valid ==> EdgeOk(net, d, t.entries[d]);
      if j == i && !(d in t.entries && SameRoute(t.entries[d], e)) {
        assert e.next == p.src && Offers(p, d, e.seqno, e.hops);
        assert PacketOk(net.nodes[p.src].table, p);
      } else if e.next == i {
        AheadIsStable(net.nodes[i].table, net'.nodes[i].table, d, e.seqno, e.hops);
      }
    }
  }

  const NoOffer := Packet(0, 0, 0, 0, RrepAckMsg)

  /** A handler that only takes routes away, and says nothing new about routes. */
  lemma DecayKeepsInv(net: Net, i: Addr, n: NodeState, out: seq<Packet>)
    requires Inv(net) && Fits(net) && i in net.nodes && n.self == i && n.hostSeq >= 1
    requires Decays(net.nodes[i].table, n.table) && AllOk(i, n.table, out)
    ensures Inv(Commit(net, i, n, out)) && Improves(net.nodes[i].table, n.table)
  {
    var t := net.nodes[i].table;
    StepReflexive(t, NoOffer);
    StepThenDecay(t, t, n.table, NoOffer);
    CommitKeepsInv(net, i, n, out, NoOffer);
  }

  lemma DeliverKeepsInv(net: Net, ev: Event)
    requires Inv(net) && Enabled(net, ev.action) && Admissible(net, ev) && ev.action.Deliver?
    ensures Inv(NetStep(net, ev)) && Improves(net.nodes[Site(ev.action)].table,
            NetStep(net, ev).nodes[Site(ev.action)].table)
  {
    var p, i := ev.action.p, ev.action.to;
    var n := net.nodes[i];
    HearNeighborKeeps(n, ev.now, p);
    var n1 := HearNeighbor(n, ev.now, p.src);
    assert PacketOk(net.nodes[p.src].table, p) && PacketSmall(p);
    var (n2, out) := Receive(n, ev.now, p);
    match p.msg {
      case RreqMsg(m) => RreqKeeps(n1, ev.now, m, p.len, p);
      case RrepMsg(m) => RrepKeeps(n1, ev.now, m, p.len, p);
      case RerrMsg(m) => RerrKeeps(n1, ev.now, m, p.len, p);
      case RrepAckMsg => AckKeeps(n1, p);
    }
    StepsCompose(n.table, n1.table, n2.table, p);
    CommitKeepsInv(net, i, n2, out, p);
  }

  lemma QuietKeepsInv(net: Net, ev: Event)
    requires Inv(net) && Enabled(net, ev.action) && Admissible(net, ev) && !ev.action.Deliver?
    ensures Inv(NetStep(net, ev)) && Improves(net.nodes[Site(ev.action)].table,
            NetStep(net, ev).nodes[Site(ev.action)].table)
  {
    var a := ev.action;
    var i := Site(a);
    var n := net.nodes[i];
    match a {
      case Seek(_, d) => DiscoverDecays(n, ev.now, d);
      case SeekFires(_, d) => DiscoveryTimeoutDecays(n, ev.now, d);
      case DataWithoutRoute(_, src, dst) =>
      case RouteFires(_, d) => ExpireDecays(n.table, ev.now, d);
      case AckFires(_, d) =>
      case RecordFires(_, _, _) =>
      case BlacklistFires(_, _) =>
    }
    var (n', out) := React(n, ev.now, a);
    DecayKeepsInv(net, i, n', out);
  }

  lemma StepKeepsInv(net: Net, ev: Event)
    requires Inv(net) && Enabled(net, ev.action) && Admissible(net, ev)
    ensures Inv(NetStep(net, ev)) && AllImprove(net, NetStep(net, ev))
  {
    if ev.action.Deliver? { DeliverKeepsInv(net, ev); } else { QuietKeepsInv(net, ev); }
    forall i | i in net.nodes && i != Site(ev.action)
      ensures Improves(net.nodes[i].table, NetStep(net, ev).nodes[i].table)
    {
    }
  }

  ghost predicate AllImprove(net: Net, net': Net) {
    net'.nodes.Keys == net.nodes.Keys
    && forall i :: i in net.nodes ==> Improves(net.nodes[i].table, net'.nodes[i].table)
  }

  lemma {:induction false} RunKeepsInv(net: Net, evs: seq<Event>)
    requires Inv(net) && Runs(net, evs)
    ensures Inv(Final(net, evs)) && AllImprove(net, Final(net, evs))
    decreases evs
  {
    if evs != [] {
      var net1, net2 := NetStep(net, evs[0]), Final(net, evs);
      StepKeepsInv(net, evs[0]);
      RunKeepsInv(net1, evs[1..]);
      forall i | i in net.nodes
        ensures Improves(net.nodes[i].table, net2.nodes[i].table)
      {
        ImprovesTransitive(net.nodes[i].table, net1.nodes[i].table, net2.nodes[i].table);
      }
    }
  }

  predicate UsesRoute(net: Net, d: Addr, i: Addr) {
    i in net.nodes && d in net.nodes[i].table.entries && net.nodes[i].table.entries[d].valid
  }

  /** Along next hops the stored route gets strictly newer, or as new and strictly shorter. */
  lemma {:induction false} PathClimbs(net: Net, d: Addr, p: seq<Addr>)
    requires Inv(net) && Path(net, d, p)
    requires UsesRoute(net, d, p[0]) && UsesRoute(net, d, p[|p| - 1])
    ensures var first, last := net.nodes[p[0]].table.entries[d], net.nodes[p[|p| - 1]].table.entries[d];
            last.seqno > first.seqno || (last.seqno == first.seqno && last.hops < first.hops)
    decreases p
  {
    assert Hop(net, d, p[0], p[1]);
    if |p| > 2 {
      assert Hop(net, d, p[1], p[2]);
    }
    var e := net.nodes[p[0]].table.entries[d];
    assert EdgeOk(net, d, e) && NodeOk(net.nodes[p[1]], p[1]);
    assert Ahead(net.nodes[p[1]].table, d, e.seqno, e.hops);
    if |p| > 2 {
      forall k | 0 <= k < |p[1..]| - 1
        ensures Hop(net, d, p[1..][k], p[1..][k + 1])
      {
        assert Hop(net, d, p[k + 1], p[k + 2]);
      }
      PathClimbs(net, d, p[1..]);
    }
  }

  lemma InvLoopFree(net: Net)
    requires Inv(net)
    ensures LoopFree(net)
  {
    forall d, p | Path(net, d, p)
      ensures p[0] != p[|p| - 1]
    {
      assert Hop(net, d, p[0], p[1]);
      if p[0] == p[|p| - 1] {
        PathClimbs(net, d, p);
      }
    }
  }

  /** Loop freedom: in every state of every admissible run, no destination's next hops form a cycle. */
  lemma LoopFreedom(net: Net, evs: seq<Event>)
    requires Initial(net) && Runs(net, evs)
    ensures LoopFree(Final(net, evs))
  {
    InitialInv(net);
    RunKeepsInv(net, evs);
    InvLoopFree(Final(net, evs));
  }

  /** Freshness over runs: from any reached state on, an entry is never lost, its net sequence number
      never falls, and while it is VALID at the same number its hop count never grows. */
  lemma FreshnessOverRuns(net: Net, before: seq<Event>, after: seq<Event>, i: Addr, d: Addr)
    requires Initial(net) && Runs(net, before) && Runs(Final(net, before), after)
    requires i in net.nodes && i in Final(net, before).nodes && d in Final(net, before).nodes[i].table.entries
    ensures var net1, net2 := Final(net, before), Final(Final(net, before), after);
            && i in net2.nodes && d in net2.nodes[i].table.entries
            && var e, e' := net1.nodes[i].table.entries[d], net2.nodes[i].table.entries[d];
               && NetSeqno(e') >= NetSeqno(e)
               && (e.valid && e'.valid && NetSeqno(e') == NetSeqno(e) ==> e'.hops <= e.hops)
  {
    InitialInv(net);
    RunKeepsInv(net, before);
    RunKeepsInv(Final(net, before), after);
    ImprovesMeansFresh(Final(net, before).nodes[i].table, Final(Final(net, before), after).nodes[i].table, d);
  }

  /** Neither flag whose branch would lower sequence numbers or answer twice. */
  predicate Plain(p: Packet) {
    (p.msg.RerrMsg? ==> !p.msg.rerr.noDelete) && (p.msg.RreqMsg? ==> !p.msg.rreq.gratuitous)
  }

  ghost predicate AllPlain(out: seq<Packet>) {
    forall p :: p in out ==> Plain(p)
  }

  lemma RreqPlain(n: NodeState, now: int, m: Rreq, len: int, src: Addr, ttl: int)
    requires |n.table.buckets| == TABLE_SIZE && !m.gratuitous
    ensures AllPlain(RreqProcess(n, now, m, len, src, ttl).1)
  {
    if !(m.orig == n.self || len < RREQ_SIZE || src in n.blacklist || (m.orig, m.id) in n.records) {
      var (n1, dr) := ReverseRoute(n, now, m, src);
      assert AllPlain(AnswerOrForward(n1, now, m, len, ttl).1);
    }
  }

  lemma RrepPlain(n: NodeState, now: int, m: Rrep, len: int, src: Addr, ttl: int)
    requires |n.table.buckets| == TABLE_SIZE
    ensures AllPlain(RrepProcess(n, now, m, len, src, ttl).1)
  {
  }

  lemma DispatchedPlain(n: NodeState, now: int, p: Packet)
    requires |n.table.buckets| == TABLE_SIZE && Plain(p)
    ensures AllPlain(Dispatched(n, now, p).1)
  {
    match p.msg
    case RreqMsg(m) => RreqPlain(n, now, m, p.len, p.src, p.ttl);
    case RrepMsg(m) => RrepPlain(n, now, m, p.len, p.src, p.ttl);
    case RerrMsg(m) =>
    case RrepAckMsg =>
  }

  lemma ReactPlain(n: NodeState, now: int, a: Action)
    requires |n.table.buckets| == TABLE_SIZE && Ready(n, a) && (a.Deliver? ==> Plain(a.p))
    ensures AllPlain(React(n, now, a).1)
  {
    if a.Deliver? {
      DispatchedPlain(HearNeighbor(n, now, a.p.src), now, a.p);
    }
  }

  lemma {:induction false} RunStaysPlain(net: Net, evs: seq<Event>)
    requires Happens(net, evs) && forall p :: p in net.soup ==> Plain(p)
    ensures forall p :: p in Outcome(net, evs).soup ==> Plain(p)
    decreases evs
  {
    if evs != [] {
      ReactPlain(net.nodes[Site(evs[0].action)], evs[0].now, evs[0].action);
      RunStaysPlain(NetStep(net, evs[0]), evs[1..]);
    }
  }

  /** The daemon's own messages never carry the flags whose branches would break the invariant: in every run
      from silence, whatever the nodes' numbers and tables. */
  lemma NoDeleteAndGratuitousNeverSet(net: Net, evs: seq<Event>, p: Packet)
    requires net.soup == {} && Happens(net, evs) && p in Outcome(net, evs).soup
    ensures p.msg.RerrMsg? ==> !p.msg.rerr.noDelete
    ensures p.msg.RreqMsg? ==> !p.msg.rreq.gratuitous
  {
    RunStaysPlain(net, evs);
  }
}
