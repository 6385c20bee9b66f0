/**
 Whole runs of the daemon: what holds over all runs of table operations holds for the routing table of every
 node, whatever packets arrive and whenever timers fire.
 */
module DaemonRuns {
  import opened Words
  import opened Params
  import opened RouteSpec
  import opened AodvSpec
  import opened Network
  import opened TableRuns
  import opened KernelMirror
  import opened LifeCycle
  import opened RouteErrors
  import opened HandlerRuns

  /** `ops` leads from t to t' and does as claimed. */
  ghost predicate Comes(t: Table, ops: seq<Timed>, t': Table, c: Claims) {
    RunAllowed(t, ops) && Run(t, ops) == t' && Start(t', c) && forall x :: x in ops ==> Fine(x.op, c)
  }

  /** A discovery is noted after `ops`. */
  lemma ThenAsk(t: Table, ops: seq<Timed>, t1: Table, now: int, d: Addr, s: Seek, c: Claims)
    requires Leads(t, ops, t1, c)
    ensures Comes(t, ops + [Timed(now, Op.Ask(d, s))], t1.(seeks := t1.seeks[d := s]), c)
  {
    var more := [Timed(now, Op.Ask(d, s))];
    assert more[1..] == [] && RunAllowed(Do(t1, now, Op.Ask(d, s)), []);
    RunAppend(t, ops, more);
  }

  // ----- one event -----------------------------------------------------------------------------------------

  function SeekOps(n: NodeState, now: int, d: Addr): (ops: seq<Timed>) {
    if d in n.table.seeks then []
    else HoldOps(n.table, now, d) + [Timed(now, Op.Ask(d, Discover(n, now, d).0.table.seeks[d]))]
  }

  lemma SeekLeads(n: NodeState, now: int, d: Addr, c: Claims)
    requires Start(n.table, c)
    ensures Comes(n.table, SeekOps(n, now, d), Discover(n, now, d).0.table, c)
  {
    if d !in n.table.seeks {
      HoldLeads(n.table, now, d, c);
      ThenAsk(n.table, HoldOps(n.table, now, d), HoldIfKnown(n.table, now, d), now, d,
              Discover(n, now, d).0.table.seeks[d], c);
    }
  }

  function SeekFiresOps(n: NodeState, now: int, d: Addr): (ops: seq<Timed>)
    requires d in n.table.seeks
  {
    if n.table.seeks[d].count < RREQ_RETRIES
    then HoldOps(n.table, now, d) + [Timed(now, Op.Ask(d, DiscoveryTimeout(n, now, d).0.table.seeks[d]))]
    else [Timed(now, GiveUp(d))]
  }

  lemma SeekFiresLeads(n: NodeState, now: int, d: Addr, c: Claims)
    requires Start(n.table, c) && d in n.table.seeks
    ensures Comes(n.table, SeekFiresOps(n, now, d), DiscoveryTimeout(n, now, d).0.table, c)
  {
    if n.table.seeks[d].count < RREQ_RETRIES {
      HoldLeads(n.table, now, d, c);
      ThenAsk(n.table, HoldOps(n.table, now, d), HoldIfKnown(n.table, now, d), now, d,
              DiscoveryTimeout(n, now, d).0.table.seeks[d], c);
    } else {
      One(n.table, now, GiveUp(d), c);
    }
  }

  /** The operations an event performs on the node's table, in order. */
  function ReactOps(n: NodeState, now: int, a: Action): (ops: seq<Timed>)
    requires |n.table.buckets| == TABLE_SIZE && Ready(n, a)
  {
    match a
    case Deliver(p, _) => ReceiveOps(n, now, p)
    case Seek(_, d) => SeekOps(n, now, d)
    case SeekFires(_, d) => SeekFiresOps(n, now, d)
    case DataWithoutRoute(_, _, dst) => UnsolicitedRerrOps(n.table, now, dst)
    case RouteFires(_, d) => RouteTimeoutOps(n.table, now, d)
    case AckFires(_, d) => [Timed(now, Mark(d, n.table.entries[d].unidir, false))]
    case _ => []
  }

  lemma ReactLeads(n: NodeState, now: int, a: Action, c: Claims)
    requires Start(n.table, c) && Ready(n, a) && (a.Deliver? ==> Claimed(a.p, c))
    ensures Comes(n.table, ReactOps(n, now, a), React(n, now, a).0.table, c)
  {
    match a
    case Deliver(p, _) => ReceiveLeads(n, now, p, c);
    case Seek(_, d) => SeekLeads(n, now, d, c);
    case SeekFires(_, d) => SeekFiresLeads(n, now, d, c);
    case DataWithoutRoute(_, src, dst) => UnsolicitedRerrLeads(n, now, src, dst, c);
    case RouteFires(_, d) => RouteTimeoutLeads(n, now, d, c);
    case AckFires(_, d) => One(n.table, now, Mark(d, n.table.entries[d].unidir, false), c);
    case _ => Stay(n.table, c);
  }

  // ----- one node ----------------------------------------------------------------------------------------

  ghost predicate NodeRuns(n: NodeState, evs: seq<Event>)
    decreases evs
  {
    |n.table.buckets| == TABLE_SIZE
    && (evs == [] || (Ready(n, evs[0].action) && NodeRuns(React(n, evs[0].now, evs[0].action).0, evs[1..])))
  }

  ghost function NodeAfter(n: NodeState, evs: seq<Event>): (n': NodeState)
    requires NodeRuns(n, evs)
    ensures |n'.table.buckets| == TABLE_SIZE
    decreases evs
  {
    if evs == [] then n else NodeAfter(React(n, evs[0].now, evs[0].action).0, evs[1..])
  }

  /** The operations of all the events, in order. */
  ghost function NodeOps(n: NodeState, evs: seq<Event>): (ops: seq<Timed>)
    requires NodeRuns(n, evs)
    decreases evs
  {
    if evs == [] then []
    else ReactOps(n, evs[0].now, evs[0].action) + NodeOps(React(n, evs[0].now, evs[0].action).0, evs[1..])
  }

  /** What is claimed of every packet that the node receives. */
  predicate AllClaimed(evs: seq<Event>, c: Claims) {
    forall ev :: ev in evs && ev.action.Deliver? ==> Claimed(ev.action.p, c)
  }

  lemma {:induction false} NodeLeads(n: NodeState, evs: seq<Event>, c: Claims)
    requires Start(n.table, c) && NodeRuns(n, evs) && AllClaimed(evs, c)
    ensures Comes(n.table, NodeOps(n, evs), NodeAfter(n, evs).table, c)
    decreases evs
  {
    if evs != [] {
      var n1 := React(n, evs[0].now, evs[0].action).0;
      ReactLeads(n, evs[0].now, evs[0].action, c);
      NodeLeads(n1, evs[1..], c);
      RunAppend(n.table, ReactOps(n, evs[0].now, evs[0].action), NodeOps(n1, evs[1..]));
    }
  }

  /** After any run of a node that started with an empty table, whatever it received: the table is what its
      handlers' own operations make of it, a map in 64 buckets with an exact size; num_active is short by the
      number of those operations that broke their own link; every timer has the right handler. */
  lemma DaemonTable(n: NodeState, evs: seq<Event>)
    requires IsEmpty(n.table) && NodeRuns(n, evs)
    ensures var t, ops := NodeAfter(n, evs).table, NodeOps(n, evs);
            && RunAllowed(n.table, ops) && Run(n.table, ops) == t
            && Indexed(t) && AllFit(t) && PrecursorsFit(t, false)
            && t.numActive + SlipCount(n.table, ops) == |Valids(t)|
  {
    NodeLeads(n, evs, NOTHING);
    CountersOverRuns(n.table, NodeOps(n, evs));
    RunKeepsFit(n.table, NodeOps(n, evs));
    PrecursorsOverRuns(n.table, NodeOps(n, evs), false);
  }

  /** Every timer of a routing entry is running after any run in which each RREQ received has come at most 69
      hops and each RREP's lifetime is one a timer accepts. */
  lemma TimersRun(n: NodeState, evs: seq<Event>)
    requires IsEmpty(n.table) && NodeRuns(n, evs)
    requires forall ev :: ev in evs && ev.action.Deliver? ==> InRange(ev.action.p)
    ensures AllArmed(NodeAfter(n, evs).table)
  {
    var c := Claims(false, true);
    NodeLeads(n, evs, c);
    LifetimesNeverStop(n.table, NodeOps(n, evs));
    RunArmed(n.table, NodeOps(n, evs));
  }

  /** Every packet comes from an address. */
  predicate FromHosts(evs: seq<Event>) {
    forall ev :: ev in evs && ev.action.Deliver? ==> ev.action.p.src != 0
  }

  /** If no packet came from the address 0, the kernel holds the VALID routes less those lost when one of the
      handlers' operations broke its own link, and precursors are addresses. */
  lemma DaemonKernel(n: NodeState, evs: seq<Event>)
    requires IsEmpty(n.table) && NodeRuns(n, evs) && FromHosts(evs)
    ensures var t, ops := NodeAfter(n, evs).table, NodeOps(n, evs);
            && RunAllowed(n.table, ops) && AllNamed(ops) && Run(n.table, ops) == t
            && t.kernel == ValidRoutes(t) - LostOver(n.table, ops, {})
            && PrecursorsOk(t) && WalkOk(t)
  {
    var ops := NodeOps(n, evs);
    NodeLeads(n, evs, Claims(true, false));
    KernelMirrorOverRuns(n.table, ops);
    PrecursorsOverRuns(n.table, ops, true);
    CountersOverRuns(n.table, ops);
    IndexedWalk(Run(n.table, ops));
  }

  // ----- which packets break their own link --------------------------------------------------------------

  /** The stored route is a VALID one-hop route, and a longer one is taken for it. */
  predicate Slipping(e: Entry, hops: nat) {
    e.valid && e.hops == 1 && hops > 1
  }

  /** The packet is accepted over such a route. */
  predicate SlipsOn(n: NodeState, p: Packet) {
    match p.msg
    case RreqMsg(m) => PassesFilters(n, m, p.len, p.src) && ReverseSlips(n.table, m)
    case RrepMsg(m) => p.len >= RREP_SIZE && m.dest != n.self && ForwardSlips(n.table, m)
    case _ => false
  }

  predicate ReverseSlips(t: Table, m: Rreq) {
    m.orig in t.entries && AcceptRreq(t.entries[m.orig], m.origSeqno, m.hopcnt + 1)
    && Slipping(t.entries[m.orig], m.hopcnt + 1)
  }

  predicate ForwardSlips(t: Table, m: Rrep) {
    m.dest in t.entries && AcceptRrep(t.entries[m.dest], m.destSeqno, m.hopcnt + 1)
    && Slipping(t.entries[m.dest], m.hopcnt + 1)
  }

  /** ... judged by the table after its sender was heard. */
  predicate SlippingPacket(n: NodeState, now: int, p: Packet)
    requires |n.table.buckets| == TABLE_SIZE
  {
    SlipsOn(HearNeighbor(n, now, p.src), p)
  }

  predicate NoUpdates(ops: seq<Timed>) {
    forall x :: x in ops ==> !x.op.Update?
  }

  lemma {:induction false} NoUpdatesNoSlips(t: Table, ops: seq<Timed>)
    requires RunAllowed(t, ops) && NoUpdates(ops)
    ensures SlipCount(t, ops) == 0
    decreases ops
  {
    if ops != [] {
      assert !ops[0].op.Update?;
      NoUpdatesNoSlips(Do(t, ops[0].now, ops[0].op), ops[1..]);
    }
  }

  lemma {:induction false} SlipCountAppend(t: Table, ops: seq<Timed>, more: seq<Timed>)
    requires RunAllowed(t, ops) && RunAllowed(Run(t, ops), more)
    ensures RunAllowed(t, ops + more) && SlipCount(t, ops + more) == SlipCount(t, ops) + SlipCount(Run(t, ops), more)
    decreases ops
  {
    RunAppend(t, ops, more);
    if ops == [] {
      assert ops + more == more;
    } else {
      assert (ops + more)[1..] == ops[1..] + more;
      SlipCountAppend(Do(t, ops[0].now, ops[0].op), ops[1..], more);
    }
  }

  lemma {:induction false} RerrWalkNoUpdates(t: Table, now: int, noDelete: bool, src: Addr, work: seq<(Addr, u32)>)
    ensures NoUpdates(RerrWalkOps(t, now, noDelete, src, work))
    decreases work
  {
    if work != [] {
      RerrWalkNoUpdates(RerrStep(t, now, noDelete, src, work[0].0, work[0].1, NoRerr).0, now, noDelete, src, work[1..]);
    }
  }

  lemma OneSlips(t: Table, x: Timed)
    requires |t.buckets| == TABLE_SIZE && Allowed(t, x.op)
    ensures RunAllowed(t, [x]) && SlipCount(t, [x]) == if Slips(t, x.op) then 1 else 0
  {
    assert [x][1..] == [];
    DoKeepsBuckets(t, x.now, x.op);
    assert RunAllowed(Do(t, x.now, x.op), []) && SlipCount(Do(t, x.now, x.op), []) == 0;
  }

  lemma HearNeighborNoSlips(n: NodeState, now: int, src: Addr)
    requires |n.table.buckets| == TABLE_SIZE
    ensures var ops := HearNeighborOps(n.table, now, src);
            && RunAllowed(n.table, ops) && SlipCount(n.table, ops) == 0
            && Run(n.table, ops) == HearNeighbor(n, now, src).table
  {
    HearNeighborLeads(n, now, src, NOTHING);
    var ops := HearNeighborOps(n.table, now, src);
    if ops != [] {
      OneSlips(n.table, ops[0]);
      assert ops == [ops[0]];
    }
  }

  lemma ReverseTableSlips(t: Table, now: int, m: Rreq, src: Addr)
    requires |t.buckets| == TABLE_SIZE
    ensures var ops := ReverseTableOps(t, now, m, src);
            RunAllowed(t, ops) && SlipCount(t, ops) == if ReverseSlips(t, m) then 1 else 0
  {
    var ops := ReverseTableOps(t, now, m, src);
    if ops != [] {
      OneSlips(t, ops[0]);
      assert ops == [ops[0]];
    }
  }

  lemma ForwardTableSlips(t: Table, now: int, m: Rrep, src: Addr)
    requires |t.buckets| == TABLE_SIZE
    ensures var ops := ForwardTableOps(t, now, m, src);
            RunAllowed(t, ops) && SlipCount(t, ops) == if ForwardSlips(t, m) then 1 else 0
  {
    var ops := ForwardTableOps(t, now, m, src);
    if ops != [] {
      OneSlips(t, ops[0]);
      assert ops == [ops[0]];
    }
  }

  lemma RreqSlips(n: NodeState, now: int, m: Rreq, len: int, src: Addr)
    requires |n.table.buckets| == TABLE_SIZE && PassesFilters(n, m, len, src)
    ensures var ops := RreqOps(n, now, m, len, src);
            RunAllowed(n.table, ops) && SlipCount(n.table, ops) == if ReverseSlips(n.table, m) then 1 else 0
  {
    var first, n1 := ReverseTableOps(n.table, now, m, src), ReverseRoute(n, now, m, src).0;
    ReverseTableLeads(n.table, now, m, src, NOTHING);
    ReverseTableSlips(n.table, now, m, src);
    AnswerSlips(n1, now, m);
    SlipCountAppend(n.table, first, AnswerOps(n1, now, m));
  }

  lemma AnswerSlips(n: NodeState, now: int, m: Rreq)
    requires |n.table.buckets| == TABLE_SIZE && m.orig in n.table.entries
    ensures RunAllowed(n.table, AnswerOps(n, now, m)) && SlipCount(n.table, AnswerOps(n, now, m)) == 0
  {
    AnswerLeads(n, now, m, 0, 0, NOTHING);
    if m.dest == n.self {
      RrepSendNoUpdates(n.table, now, m.orig, 0, false);
    } else if Knows(n, m) {
      FromTableNoUpdates(n, now, m);
    }
    NoUpdatesNoSlips(n.table, AnswerOps(n, now, m));
  }

  lemma RrepSendNoUpdates(t: Table, now: int, rev: Addr, fwd: Addr, hasFwd: bool)
    requires rev in t.entries && (hasFwd ==> fwd in t.entries)
    ensures NoUpdates(RrepSendOps(t, now, rev, fwd, hasFwd))
  {
  }

  lemma FromTableNoUpdates(n: NodeState, now: int, m: Rreq)
    requires m.orig in n.table.entries && m.dest in n.table.entries
    ensures NoUpdates(FromTableOps(n, now, m))
  {
    RrepSendNoUpdates(n.table, now, m.orig, m.dest, true);
    if m.gratuitous {
      RrepSendNoUpdates(FromTable(n, now, m.(gratuitous := false)).0.table, now, m.dest, m.orig, true);
    }
  }

  lemma RrepForwardSlips(n: NodeState, now: int, m: Rrep)
    requires |n.table.buckets| == TABLE_SIZE && m.orig in n.table.entries && m.dest in n.table.entries
    ensures var ops := RrepForwardOps(n.table, now, m.orig, m.dest);
            RunAllowed(n.table, ops) && SlipCount(n.table, ops) == 0
  {
    RrepForwardLeads(n, now, m, 0, m.orig, m.dest, 0, NOTHING);
    NoUpdatesNoSlips(n.table, RrepForwardOps(n.table, now, m.orig, m.dest));
  }

  lemma RrepSlips(n: NodeState, now: int, m: Rrep, len: int, src: Addr)
    requires |n.table.buckets| == TABLE_SIZE && len >= RREP_SIZE && m.dest != n.self
    ensures var ops := RrepOps(n, now, m, len, src);
            RunAllowed(n.table, ops) && SlipCount(n.table, ops) == if ForwardSlips(n.table, m) then 1 else 0
  {
    var (t, _, accepted) := ForwardTable(n.table, now, m, src);
    if accepted {
      var first := ForwardTableOps(n.table, now, m, src);
      ForwardTableLeads(n.table, now, m, src, NOTHING);
      ForwardTableSlips(n.table, now, m, src);
      if m.orig != n.self && m.orig in n.table.entries && t.entries[m.orig].valid {
        RrepForwardSlips(n.(table := t), now, m);
        SlipCountAppend(n.table, first, RrepForwardOps(t, now, m.orig, m.dest));
      } else {
        assert first + [] == first;
      }
    }
  }

  lemma DispatchedSlips(n: NodeState, now: int, p: Packet)
    requires |n.table.buckets| == TABLE_SIZE
    ensures RunAllowed(n.table, DispatchedOps(n, now, p))
    ensures SlipCount(n.table, DispatchedOps(n, now, p)) == if SlipsOn(n, p) then 1 else 0
  {
    match p.msg
    case RreqMsg(m) =>
      if PassesFilters(n, m, p.len, p.src) {
        RreqSlips(n, now, m, p.len, p.src);
      }
    case RrepMsg(m) =>
      if p.len >= RREP_SIZE && m.dest != n.self {
        RrepSlips(n, now, m, p.len, p.src);
      }
    case _ => OthersDoNotSlip(n, now, p);
  }

  lemma OthersDoNotSlip(n: NodeState, now: int, p: Packet)
    requires |n.table.buckets| == TABLE_SIZE && (p.msg.RerrMsg? || p.msg.RrepAckMsg?)
    ensures RunAllowed(n.table, DispatchedOps(n, now, p)) && SlipCount(n.table, DispatchedOps(n, now, p)) == 0
  {
    DispatchedLeads(n, now, p, NOTHING);
    if p.msg.RerrMsg? {
      RerrWalkNoUpdates(n.table, now, p.msg.rerr.noDelete, p.src, p.msg.rerr.dests);
    }
    NoUpdatesNoSlips(n.table, DispatchedOps(n, now, p));
  }

  lemma ReceiveSlips(n: NodeState, now: int, p: Packet)
    requires |n.table.buckets| == TABLE_SIZE
    ensures RunAllowed(n.table, ReceiveOps(n, now, p))
    ensures SlipCount(n.table, ReceiveOps(n, now, p)) == if SlippingPacket(n, now, p) then 1 else 0
  {
    var n1 := HearNeighbor(n, now, p.src);
    HearNeighborNoSlips(n, now, p.src);
    DispatchedSlips(n1, now, p);
    SlipCountAppend(n.table, HearNeighborOps(n.table, now, p.src), DispatchedOps(n1, now, p));
  }

  /** An event breaks its own link at most once, and does so if and only if it is the arrival of a RREQ or RREP
      that puts a longer route in the place of a VALID one-hop route. */
  lemma SlipsIff(n: NodeState, now: int, a: Action)
    requires |n.table.buckets| == TABLE_SIZE && Ready(n, a)
    ensures RunAllowed(n.table, ReactOps(n, now, a))
    ensures SlipCount(n.table, ReactOps(n, now, a)) == if a.Deliver? && SlippingPacket(n, now, a.p) then 1 else 0
  {
    if a.Deliver? {
      ReceiveSlips(n, now, a.p);
    } else {
      ReactLeads(n, now, a, NOTHING);
      NoUpdatesNoSlips(n.table, ReactOps(n, now, a));
    }
  }

  /** How many packets of the run did so. */
  ghost function SlippingPackets(n: NodeState, evs: seq<Event>): (k: nat)
    requires NodeRuns(n, evs)
    decreases evs
  {
    if evs == [] then 0
    else
      var ev := evs[0];
      (if ev.action.Deliver? && SlippingPacket(n, ev.now, ev.action.p) then 1 else 0)
      + SlippingPackets(React(n, ev.now, ev.action).0, evs[1..])
  }

  lemma {:induction false} SlipsAreSlippingPackets(n: NodeState, evs: seq<Event>)
    requires NodeRuns(n, evs)
    ensures RunAllowed(n.table, NodeOps(n, evs))
    ensures SlipCount(n.table, NodeOps(n, evs)) == SlippingPackets(n, evs)
    decreases evs
  {
    if evs != [] {
      var n1 := React(n, evs[0].now, evs[0].action).0;
      ReactLeads(n, evs[0].now, evs[0].action, NOTHING);
      SlipsIff(n, evs[0].now, evs[0].action);
      SlipsAreSlippingPackets(n1, evs[1..]);
      SlipCountAppend(n.table, ReactOps(n, evs[0].now, evs[0].action), NodeOps(n1, evs[1..]));
    }
  }

  /** After any run, whatever the node received, num_active is the number of VALID routes less the number of
      packets that put a longer route in the place of a VALID one-hop route. */
  lemma ActiveCount(n: NodeState, evs: seq<Event>)
    requires IsEmpty(n.table) && NodeRuns(n, evs)
    ensures NodeAfter(n, evs).table.numActive == |Valids(NodeAfter(n, evs).table)| - SlippingPackets(n, evs)
  {
    DaemonTable(n, evs);
    SlipsAreSlippingPackets(n, evs);
  }

  // ----- the network -------------------------------------------------------------------------------------

  /** What the handlers rely on. */
  ghost predicate TableOk(t: Table) { Indexed(t) && AllFit(t) && PrecursorsFit(t, false) }

  lemma ReactKeepsTable(n: NodeState, now: int, a: Action)
    requires TableOk(n.table) && Ready(n, a)
    ensures TableOk(React(n, now, a).0.table)
  {
    var ops := ReactOps(n, now, a);
    ReactLeads(n, now, a, NOTHING);
    RunKeepsIndex(n.table, ops);
    RunKeepsFit(n.table, ops);
    PrecursorsOverRuns(n.table, ops, false);
  }

  /** In every run of any number of nodes every node's table stays so. */
  lemma {:induction false} NetworkTables(net: Net, evs: seq<Event>)
    requires Happens(net, evs) && forall i :: i in net.nodes ==> TableOk(net.nodes[i].table)
    ensures forall i :: i in Outcome(net, evs).nodes ==> TableOk(Outcome(net, evs).nodes[i].table)
    decreases evs
  {
    if evs != [] {
      ReactKeepsTable(net.nodes[Site(evs[0].action)], evs[0].now, evs[0].action);
      NetworkTables(NetStep(net, evs[0]), evs[1..]);
    }
  }
}
