/**
 What ends a discovery: a route to its destination that is taken, whoever brings it, or its own timer; nothing else.
 */
module DiscoveryEnds {
  import opened Words
  import opened Params
  import opened RouteSpec
  import opened AodvSpec
  import opened Network
  import opened TableRuns
  import opened HandlerRuns
  import opened DaemonRuns
  import opened Discovery
  import opened RrepOutcomes

  /** The pending discoveries after one table operation: an insertion or update, which leaves its route VALID, ends
      that of its destination, and no other operation on routes ends any. */
  lemma DoSeeksExactly(t: Table, now: int, op: Op)
    requires |t.buckets| == TABLE_SIZE && Allowed(t, op)
    ensures op.Insert? || op.Update? ==>
              Do(t, now, op).entries[op.d].valid && Do(t, now, op).seeks == t.seeks - {op.d}
    ensures op.Ask? ==> Do(t, now, op).seeks == t.seeks[op.d := op.seek]
    ensures op.GiveUp? ==> Do(t, now, op).seeks == t.seeks - {op.d}
    ensures !op.Insert? && !op.Update? && !op.Ask? && !op.GiveUp? ==> Do(t, now, op).seeks == t.seeks
  {
    match op
    case Update(d, next, _, _, _, _) => LinkBreakCounts(AnnounceSpec(t, d, next, true), now, d);
    case LinkBreak(d) => LinkBreakCounts(t, now, d);
    case _ =>
  }

  // ----- the parts of the handlers -------------------------------------------------------------------------

  /** Hearing a packet from src gives a route to it. */
  predicate Heard(t: Table, src: Addr) { src !in t.entries || !t.entries[src].unidir }

  lemma HearNeighborSeeks(n: NodeState, now: int, src: Addr)
    requires |n.table.buckets| == TABLE_SIZE
    ensures HearNeighbor(n, now, src).table.seeks == n.table.seeks - if Heard(n.table, src) then {src} else {}
  {
    if src in n.table.entries && !n.table.entries[src].unidir {
      DoSeeksExactly(n.table, now,
                     Update(src, src, 1, n.table.entries[src].seqno, ACTIVE_ROUTE_TIMEOUT, false));
    }
  }

  /** The request brings a route to its originator. */
  predicate RouteTaken(t: Table, m: Rreq) {
    m.orig !in t.entries || AcceptRreq(t.entries[m.orig], m.origSeqno, m.hopcnt + 1)
  }

  lemma ReverseSeeks(t: Table, now: int, m: Rreq, src: Addr)
    requires |t.buckets| == TABLE_SIZE
    ensures ReverseTable(t, now, m, src).0.seeks == t.seeks - if RouteTaken(t, m) then {m.orig} else {}
  {
    if m.orig in t.entries && RouteTaken(t, m) {
      DoSeeksExactly(t, now, Update(m.orig, src, m.hopcnt + 1, m.origSeqno, ReverseLifetime(m.hopcnt + 1),
                                    t.entries[m.orig].unidir));
    }
  }

  lemma ForwardSeeks(n: NodeState, now: int, m: Rrep, len: int, src: Addr)
    requires |n.table.buckets| == TABLE_SIZE && len >= RREP_SIZE && m.dest != n.self
    ensures ForwardTable(n.table, now, m, src).0.seeks
            == n.table.seeks - if Accepted(n, m, len) then {m.dest} else {}
  {
    if m.dest in n.table.entries && Accepted(n, m, len) {
      DoSeeksExactly(n.table, now, Update(m.dest, src, m.hopcnt + 1, m.destSeqno, m.lifetime,
                                          n.table.entries[m.dest].unidir));
    }
  }

  lemma BreakUnidirSeeks(t: Table, now: int, rev: Addr)
    requires rev in t.entries
    ensures BreakUnidir(t, now, rev).0.seeks == t.seeks
  {
    if Breaks(t, rev) {
      var d := t.entries[rev].next;
      LinkBreakCounts(Put(t, d, t.entries[d].(unidir := true)), now, d);
    }
  }

  lemma RrepSendSeeks(n: NodeState, now: int, m: Rrep, rev: Addr, fwd: Addr, hasFwd: bool)
    requires rev in n.table.entries && (hasFwd ==> fwd in n.table.entries)
    ensures RrepSend(n, now, m, rev, fwd, hasFwd).0.table.seeks == n.table.seeks
  {
    BreakUnidirSeeks(n.table, now, rev);
  }

  lemma AnswerSeeks(n: NodeState, now: int, m: Rreq, len: int, ttl: int)
    requires m.orig in n.table.entries
    ensures AnswerOrForward(n, now, m, len, ttl).0.table.seeks == n.table.seeks
  {
    if m.dest == n.self {
      BreakUnidirSeeks(n.table, now, m.orig);
    } else if Knows(n, m) {
      BreakUnidirSeeks(n.table, now, m.orig);
      if m.gratuitous {
        BreakUnidirSeeks(FromTable(n, now, m.(gratuitous := false)).0.table, now, m.dest);
      }
    }
  }

  lemma {:induction false} RerrSeeks(t: Table, now: int, noDelete: bool, src: Addr, work: seq<(Addr, u32)>, dr: Draft)
    ensures RerrWalk(t, now, noDelete, src, work, dr).0.seeks == t.seeks
    decreases work
  {
    if work != [] {
      var (t1, dr1) := RerrStep(t, now, noDelete, src, work[0].0, work[0].1, dr);
      RerrSeeks(t1, now, noDelete, src, work[1..], dr1);
    }
  }

  // ----- which events end a discovery ------------------------------------------------------------------------

  /** Node n, which has heard the sender already, takes a route to d from this packet. */
  predicate Brings(n: NodeState, p: Packet, d: Addr) {
    match p.msg
    case RreqMsg(m) => PassesFilters(n, m, p.len, p.src) && RouteTaken(n.table, m) && d == m.orig
    case RrepMsg(m) => Accepted(n, m, p.len) && d == m.dest
    case _ => false
  }

  predicate Ends(n: NodeState, now: int, a: Action, d: Addr)
    requires |n.table.buckets| == TABLE_SIZE && Ready(n, a)
  {
    match a
    case Deliver(p, _) => (p.src == d && Heard(n.table, d)) || Brings(HearNeighbor(n, now, p.src), p, d)
    case SeekFires(_, e) => e == d && n.table.seeks[d].count >= RREQ_RETRIES
    case _ => false
  }

  lemma RreqSeeks(n: NodeState, now: int, m: Rreq, len: int, src: Addr, ttl: int)
    requires |n.table.buckets| == TABLE_SIZE && PassesFilters(n, m, len, src)
    ensures RreqProcess(n, now, m, len, src, ttl).0.table.seeks
            == n.table.seeks - if RouteTaken(n.table, m) then {m.orig} else {}
  {
    ReverseSeeks(n.table, now, m, src);
    AnswerSeeks(ReverseRoute(n, now, m, src).0, now, m, len, ttl);
  }

  lemma DispatchedSeeks(n: NodeState, now: int, p: Packet, d: Addr)
    requires |n.table.buckets| == TABLE_SIZE
    ensures d in Dispatched(n, now, p).0.table.seeks <==> d in n.table.seeks && !Brings(n, p, d)
  {
    match p.msg
    case RreqMsg(m) =>
      if PassesFilters(n, m, p.len, p.src) {
        RreqSeeks(n, now, m, p.len, p.src, p.ttl);
      }
    case RrepMsg(m) =>
      if p.len >= RREP_SIZE && m.dest != n.self {
        ForwardSeeks(n, now, m, p.len, p.src);
      }
    case RerrMsg(m) => RerrSeeks(n.table, now, m.noDelete, p.src, m.dests, NoRerr);
    case RrepAckMsg =>
  }

  /** A pending discovery ends with an event if and only if that brings a route to its destination which is taken,
      by a packet from it, a RREQ from it or a RREP about it, or is the last firing of its own timer. */
  lemma DiscoveryEndsIff(n: NodeState, now: int, a: Action, d: Addr)
    requires |n.table.buckets| == TABLE_SIZE && Ready(n, a) && d in n.table.seeks
    ensures d !in React(n, now, a).0.table.seeks <==> Ends(n, now, a, d)
  {
    match a
    case Deliver(p, _) =>
      HearNeighborSeeks(n, now, p.src);
      DispatchedSeeks(HearNeighbor(n, now, p.src), now, p, d);
    case RouteFires(_, e) =>
      if n.table.entries[e].handler.ExpireHandler? && n.table.entries[e].hops == 1 {
        LinkBreakCounts(n.table, now, e);
      }
    case SeekFires(_, e) => GivesUpIff(n, now, e);
    case _ =>
  }

  ghost predicate NeverEnds(n: NodeState, evs: seq<Event>, d: Addr)
    requires NodeRuns(n, evs)
    decreases evs
  {
    evs == []
    || (!Ends(n, evs[0].now, evs[0].action, d) && NeverEnds(React(n, evs[0].now, evs[0].action).0, evs[1..], d))
  }

  /** Over every run of a node a discovery lasts throughout if and only if no such event occurs. */
  lemma {:induction false} LastsIff(n: NodeState, evs: seq<Event>, d: Addr)
    requires NodeRuns(n, evs) && d in n.table.seeks
    ensures Seeks(n, evs, d) <==> NeverEnds(n, evs, d)
    decreases evs
  {
    if evs != [] {
      var n1 := React(n, evs[0].now, evs[0].action).0;
      DiscoveryEndsIff(n, evs[0].now, evs[0].action, d);
      if d in n1.table.seeks {
        LastsIff(n1, evs[1..], d);
      }
    }
  }
}
