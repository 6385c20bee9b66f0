/**
 How often a node asks for a destination, whatever else happens to it in the meantime.
 */
module Discovery {
  import opened Words
  import opened Params
  import opened RouteSpec
  import opened AodvSpec
  import opened Network
  import opened TableRuns
  import opened LifeCycle
  import opened HandlerRuns
  import opened DaemonRuns
  import Flood

  /** p is a request of the node's own for d. */
  predicate OwnRequest(self: Addr, p: Packet, d: Addr) {
    p.msg.RreqMsg? && p.msg.rreq.orig == self && p.msg.rreq.dest == d
  }

  function Requests(self: Addr, out: seq<Packet>, d: Addr): (k: nat) {
    if out == [] then 0 else (if OwnRequest(self, out[0], d) then 1 else 0) + Requests(self, out[1..], d)
  }

  lemma {:induction false} NoRequests(self: Addr, out: seq<Packet>, d: Addr)
    requires forall p :: p in out ==> !OwnRequest(self, p, d)
    ensures Requests(self, out, d) == 0
  {
    if out != [] {
      NoRequests(self, out[1..], d);
    }
  }

  /** Operations other than Ask only end discoveries. */
  lemma {:induction false} RunSeeks(t: Table, ops: seq<Timed>, d: Addr)
    requires RunAllowed(t, ops) && forall x :: x in ops ==> !x.op.Ask?
    ensures d in Run(t, ops).seeks ==> d in t.seeks && Run(t, ops).seeks[d] == t.seeks[d]
    decreases ops
  {
    if ops != [] {
      assert !ops[0].op.Ask?;
      DoSeeks(t, ops[0].now, ops[0].op, d);
      RunSeeks(Do(t, ops[0].now, ops[0].op), ops[1..], d);
    }
  }

  lemma DoSeeks(t: Table, now: int, op: Op, d: Addr)
    requires |t.buckets| == TABLE_SIZE && Allowed(t, op) && !op.Ask?
    ensures d in Do(t, now, op).seeks ==> d in t.seeks && Do(t, now, op).seeks[d] == t.seeks[d]
  {
    match op
    case Update(e, next, _, _, _, _) => LinkBreakCounts(AnnounceSpec(t, e, next, true), now, e);
    case LinkBreak(e) => LinkBreakCounts(t, now, e);
    case _ =>
  }

  /** The event is about a discovery. */
  predicate AboutSeek(a: Action) { a.Seek? || a.SeekFires? }

  lemma QuietEvent(n: NodeState, now: int, a: Action, d: Addr)
    requires |n.table.buckets| == TABLE_SIZE && Ready(n, a) && !AboutSeek(a)
    ensures var (n', out) := React(n, now, a);
            && n'.self == n.self && Requests(n.self, out, d) == 0
            && (d in n'.table.seeks ==> d in n.table.seeks && n'.table.seeks[d] == n.table.seeks[d])
  {
    var (n', out) := React(n, now, a);
    var ops := ReactOps(n, now, a);
    match a {
      case Deliver(p, _) => ReceiveLeads(n, now, p, NOTHING);
      case DataWithoutRoute(_, src, dst) => UnsolicitedRerrLeads(n, now, src, dst, NOTHING);
      case RouteFires(_, e) => RouteTimeoutLeads(n, now, e, NOTHING);
      case AckFires(_, e) => One(n.table, now, Mark(e, n.table.entries[e].unidir, false), NOTHING);
      case _ => Stay(n.table, NOTHING);
    }
    RunSeeks(n.table, ops, d);
    Flood.ReactFloods(n, now, a);
    NoOwnRequest(n, now, a, d);
    NoRequests(n.self, out, d);
  }

  lemma NoOwnRequest(n: NodeState, now: int, a: Action, d: Addr)
    requires |n.table.buckets| == TABLE_SIZE && Ready(n, a) && !AboutSeek(a)
    ensures forall p :: p in React(n, now, a).1 ==> !OwnRequest(n.self, p, d)
  {
    if a.Deliver? {
      Flood.ReactFloods(n, now, a);
    }
  }

  /** The node goes on seeking d throughout. */
  ghost predicate Seeks(n: NodeState, evs: seq<Event>, d: Addr)
    decreases evs
  {
    && |n.table.buckets| == TABLE_SIZE && d in n.table.seeks
    && (evs == [] || (Ready(n, evs[0].action) && Seeks(React(n, evs[0].now, evs[0].action).0, evs[1..], d)))
  }

  /** The node's own requests for d. */
  ghost function Asked(n: NodeState, evs: seq<Event>, d: Addr): (k: nat)
    requires Seeks(n, evs, d)
    decreases evs
  {
    if evs == [] then 0
    else
      var (n1, out) := React(n, evs[0].now, evs[0].action);
      Requests(n.self, out, d) + Asked(n1, evs[1..], d)
  }

  ghost function After(n: NodeState, evs: seq<Event>, d: Addr): (n': NodeState)
    requires Seeks(n, evs, d)
    ensures d in n'.table.seeks
    decreases evs
  {
    if evs == [] then n else After(React(n, evs[0].now, evs[0].action).0, evs[1..], d)
  }

  /** What a retry makes of a discovery: the ring is widened. */
  function Retried(s: Seek): (s': Seek) {
    s.(ttl := if s.ttl < TTL_THRESHOLD then s.ttl + TTL_INCREMENT else NET_DIAMETER, count := s.count + 1)
  }

  function RetriedBy(s: Seek, k: nat): (s': Seek)
    decreases k
  {
    if k == 0 then s else RetriedBy(Retried(s), k - 1)
  }

  lemma {:induction false} RetriedTwice(s: Seek, j: nat, k: nat)
    ensures RetriedBy(RetriedBy(s, j), k) == RetriedBy(s, j + k)
    ensures RetriedBy(s, j).count == s.count + j
    decreases j
  {
    if j > 0 {
      RetriedTwice(Retried(s), j - 1, k);
    }
  }

  lemma SeekEvent(n: NodeState, now: int, a: Action, d: Addr)
    requires |n.table.buckets| == TABLE_SIZE && Ready(n, a) && AboutSeek(a)
    requires d in n.table.seeks && d in React(n, now, a).0.table.seeks && n.table.seeks[d].count <= RREQ_RETRIES
    ensures var (n', out) := React(n, now, a);
            && n'.self == n.self && n'.table.seeks[d].count <= RREQ_RETRIES
            && n'.table.seeks[d] == RetriedBy(n.table.seeks[d], Requests(n.self, out, d))
  {
    var out := React(n, now, a).1;
    if out != [] {
      assert out[1..] == [];
    }
    assert RetriedBy(n.table.seeks[d], 1) == RetriedBy(Retried(n.table.seeks[d]), 0);
  }

  /** While a discovery lasts, whatever else the node hears or does, it changes by one retry for each further
      request, and its counter, which counts requests, never exceeds RREQ_RETRIES. */
  lemma {:induction false} CounterCounts(n: NodeState, evs: seq<Event>, d: Addr)
    requires Seeks(n, evs, d) && n.table.seeks[d].count <= RREQ_RETRIES
    ensures After(n, evs, d).table.seeks[d] == RetriedBy(n.table.seeks[d], Asked(n, evs, d))
    ensures After(n, evs, d).table.seeks[d].count <= RREQ_RETRIES
    decreases evs
  {
    if evs != [] {
      var a := evs[0].action;
      if AboutSeek(a) {
        SeekEvent(n, evs[0].now, a, d);
      } else {
        QuietEvent(n, evs[0].now, a, d);
      }
      var (n1, out) := React(n, evs[0].now, a);
      CounterCounts(n1, evs[1..], d);
      RetriedTwice(n.table.seeks[d], Requests(n.self, out, d), Asked(n1, evs[1..], d));
    }
  }

  /** A discovery starts with one request, which carries what the discovery remembers: the number last known, and
      a ttl of two more than the distance last known. */
  lemma StartsWithOne(n: NodeState, now: int, d: Addr)
    requires d !in n.table.seeks
    ensures var (n', out) := Discover(n, now, d);
            && d in n'.table.seeks && n'.table.seeks[d].count == 1 == Requests(n.self, out, d)
            && |out| == 1 && AsksAs(out[0], n, n'.table.seeks[d], d) && Counted(n, n')
            && var known := d in n.table.entries;
               && n'.table.seeks[d].seqno == (if known then n.table.entries[d].seqno else 0)
               && n'.table.seeks[d].ttl == (if known then n.table.entries[d].hops + TTL_INCREMENT else TTL_START)
  {
    assert Discover(n, now, d).1[1..] == [];
  }

  /** p asks for d as the discovery says, under the node's next id and with its next number. */
  predicate AsksAs(p: Packet, n: NodeState, s: Seek, d: Addr) {
    && OwnRequest(n.self, p, d) && p.ttl == s.ttl && p.msg.rreq.destSeqno == s.seqno && p.msg.rreq.id == n.rreqId
    && p.src == n.self && p.dst == BROADCAST && p.len == RREQ_SIZE && p.msg.rreq.hopcnt == 0
    && p.msg.rreq.origSeqno == SeqnoIncr(n.hostSeq)
  }

  /** The id and the own number have been used up. */
  predicate Counted(n: NodeState, n': NodeState) {
    n'.hostSeq == SeqnoIncr(n.hostSeq) && n'.rreqId == Wrap(n.rreqId + 1)
  }

  /** The event sends a request for d. */
  predicate AsksFor(n: NodeState, a: Action, d: Addr)
    requires Ready(n, a)
  {
    (a.Seek? && a.dest == d && d !in n.table.seeks)
    || (a.SeekFires? && a.dest == d && n.table.seeks[d].count < RREQ_RETRIES)
  }

  /** With each request a VALID route to the destination is held for twice NET_TRAVERSAL_TIME, up to a millisecond, and
      no other route changes. */
  lemma AskingHolds(n: NodeState, now: int, a: Action, d: Addr)
    requires |n.table.buckets| == TABLE_SIZE && Ready(n, a) && AsksFor(n, a, d)
    ensures var t, t' := n.table, React(n, now, a).0.table;
            && t'.entries.Keys == t.entries.Keys
            && (forall e :: e in t.entries && (e != d || !t.entries[e].valid) ==> t'.entries[e] == t.entries[e])
            && (d in t.entries && t.entries[d].valid ==>
                  && t'.entries[d].deadline > now + 1000 * 2 * NET_TRAVERSAL_TIME - 1000
                  && t'.entries[d].deadline >= t.entries[d].deadline)
  {
    if d in n.table.entries {
      HoldsFor(n.table, now, d);
    }
  }

  lemma HoldsFor(t: Table, now: int, d: Addr)
    requires d in t.entries
    ensures var t' := HoldRoute(t, now, d);
            && t'.entries.Keys == t.entries.Keys
            && (forall e :: e in t.entries && (e != d || !t.entries[e].valid) ==> t'.entries[e] == t.entries[e])
            && (t.entries[d].valid ==>
                  && t'.entries[d].deadline > now + 1000 * 2 * NET_TRAVERSAL_TIME - 1000
                  && t'.entries[d].deadline >= t.entries[d].deadline)
  {
    ProlongedDeadline(t, now, d, 2 * NET_TRAVERSAL_TIME);
    HeldLongEnough(t.entries[d].deadline - now);
  }

  lemma HeldLongEnough(left: int)
    ensures DiffMs(left) >= 2 * NET_TRAVERSAL_TIME ==> left >= 1000 * 2 * NET_TRAVERSAL_TIME
  {
  }

  /** From its first request on, over any run of events at the node, a discovery makes at most RREQ_RETRIES
      requests, the first included: 2, that is one retry. */
  lemma DiscoveryAsksTwice(n: NodeState, now: int, d: Addr, evs: seq<Event>)
    requires d !in n.table.seeks && Seeks(Discover(n, now, d).0, evs, d)
    ensures var n1 := Discover(n, now, d).0;
            && 1 + Asked(n1, evs, d) <= RREQ_RETRIES
            && After(n1, evs, d).table.seeks[d] == RetriedBy(n1.table.seeks[d], Asked(n1, evs, d))
  {
    StartsWithOne(n, now, d);
    var n1 := Discover(n, now, d).0;
    CounterCounts(n1, evs, d);
    RetriedTwice(n1.table.seeks[d], Asked(n1, evs, d), 0);
  }

  /** A discovery's timer gives it up, without a further request, exactly when all requests have been made;
      otherwise it repeats the request, further exactly if the last one did not span the network. */
  lemma GivesUpIff(n: NodeState, now: int, d: Addr)
    requires d in n.table.seeks
    ensures var (n', out) := DiscoveryTimeout(n, now, d);
            var s := n.table.seeks[d];
            && (d !in n'.table.seeks <==> s.count >= RREQ_RETRIES)
            && (d !in n'.table.seeks ==> out == [])
            && (d in n'.table.seeks ==>
                  && Counted(n, n') && |out| == 1 && n'.table.seeks[d] == Retried(s) && AsksAs(out[0], n, Retried(s), d)
                  && (out[0].ttl > s.ttl <==> s.ttl < NET_DIAMETER))
  {
  }
}
