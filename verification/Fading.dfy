/**
 How long a routing entry lasts that nobody renews: until its deadline as a VALID one, and DELETE_PERIOD more as
 an INVALID one, up to how late timers fire.
 */
module Fading {
  import opened Words
  import opened Params
  import opened RouteSpec
  import opened AodvSpec
  import opened Network
  import opened Clock
  import opened TableRuns
  import opened HandlerRuns
  import opened DaemonRuns

  const PERIOD := 1000 * DELETE_PERIOD  // microseconds

  /** The entry for d runs out by `expiry` if VALID and by `end` if not. */
  ghost predicate Fades(t: Table, d: Addr, expiry: int, end: int) {
    d in t.entries ==>
      t.entries[d].armed && t.entries[d].deadline <= if t.entries[d].valid then expiry else end
  }

  predicate IsValid(t: Table, d: Addr) { d in t.entries && t.entries[d].valid }

  /** The operation may make the entry for d last longer. */
  predicate Renews(t: Table, op: Op, d: Addr) {
    op.d == d && (op.Insert? || op.Update? || (op.Prolong? && IsValid(t, d)))
  }

  lemma BrokenFades(t: Table, now: int, t': Table, d: Addr, expiry: int, end: int)
    requires Fades(t, d, expiry, end) && AllKeptOrBroken(t, now, t') && BrokenOnlyIfValid(t, t')
    requires IsValid(t, d) ==> now + PERIOD <= end
    ensures Fades(t', d, expiry, end) && (IsValid(t', d) ==> IsValid(t, d))
  {
    if d in t.entries {
      assert KeptOrBroken(t.entries[d], now, t'.entries[d]);
    }
  }

  /** A link break leaves INVALID entries alone but for their precursors. */
  ghost predicate BrokenOnlyIfValid(t: Table, t': Table) {
    forall a :: a in t.entries && a in t'.entries && !t.entries[a].valid ==>
      t'.entries[a].deadline == t.entries[a].deadline && !t'.entries[a].valid
  }

  lemma LinkBreakSparesInvalid(t: Table, now: int, d: Addr)
    requires d in t.entries
    ensures BrokenOnlyIfValid(t, LinkBreakSpec(t, now, d).0)
  {
    if t.entries[d].hops == 1 {
      var t1 := InvalidateSpec(t, now, d);
      var e := t1.entries[d];
      CascadeShape(ClearPrecursorsSpec(t1, d), now, d, Flatten(t.buckets), Report(NoRerr, d, e.seqno, e.precs));
    }
  }

  lemma LinkBreakFades(t: Table, now: int, b: Addr, d: Addr, expiry: int, end: int)
    requires b in t.entries && Fades(t, d, expiry, end) && (IsValid(t, d) ==> now + PERIOD <= end)
    ensures var t' := LinkBreakSpec(t, now, b).0;
            Fades(t', d, expiry, end) && (IsValid(t', d) ==> IsValid(t, d))
  {
    LinkBreakShape(t, now, b);
    LinkBreakSparesInvalid(t, now, b);
    BrokenFades(t, now, LinkBreakSpec(t, now, b).0, d, expiry, end);
  }

  /** An update of another entry may break the link that d uses. */
  lemma UpdateFades(t: Table, now: int, op: Op, d: Addr, expiry: int, end: int)
    requires |t.buckets| == TABLE_SIZE && Allowed(t, op) && op.Update? && op.d != d
    requires Fades(t, d, expiry, end) && (IsValid(t, d) ==> now + PERIOD <= end)
    ensures Fades(Do(t, now, op), d, expiry, end) && (IsValid(Do(t, now, op), d) ==> IsValid(t, d))
  {
    var t1 := AnnounceSpec(t, op.d, op.next, true);
    assert t1.entries == t.entries;
    if op.hops > 1 && t1.entries[op.d].hops == 1 {
      LinkBreakFades(t1, now, op.d, d, expiry, end);
    }
  }

  lemma DoFades(t: Table, now: int, op: Op, d: Addr, expiry: int, end: int)
    requires |t.buckets| == TABLE_SIZE && Allowed(t, op) && !Renews(t, op, d)
    requires Fades(t, d, expiry, end) && (IsValid(t, d) ==> now + PERIOD <= end)
    ensures Fades(Do(t, now, op), d, expiry, end) && (IsValid(Do(t, now, op), d) ==> IsValid(t, d))
  {
    match op
    case Update(_, _, _, _, _, _) => UpdateFades(t, now, op, d, expiry, end);
    case LinkBreak(b) => LinkBreakFades(t, now, b, d, expiry, end);
    case _ =>
  }

  /** All at one time, and none renews the entry for d; `live` says whether prolonging it would. */
  predicate Harmless(ops: seq<Timed>, now: int, d: Addr, live: bool) {
    forall x :: x in ops ==>
      x.now == now && (x.op.d == d ==> !x.op.Insert? && !x.op.Update? && (x.op.Prolong? ==> !live))
  }

  lemma {:induction false} RunFades(t: Table, ops: seq<Timed>, now: int, d: Addr, live: bool, expiry: int, end: int)
    requires RunAllowed(t, ops) && Harmless(ops, now, d, live) && (IsValid(t, d) ==> live)
    requires Fades(t, d, expiry, end) && (IsValid(t, d) ==> now + PERIOD <= end)
    ensures Fades(Run(t, ops), d, expiry, end)
    decreases ops
  {
    if ops != [] {
      assert ops[0] in ops;
      DoFades(t, now, ops[0].op, d, expiry, end);
      RunFades(Do(t, now, ops[0].op), ops[1..], now, d, live, expiry, end);
    }
  }

  // ----- which events renew an entry -----------------------------------------------------------------------

  /** What may make node n's entry for d last longer: to hear d, a RREQ from it, a RREP about it or for it, and, while
      the entry is VALID, a discovery of d or data for it. */
  predicate Renewed(n: NodeState, a: Action, d: Addr) {
    match a
    case Deliver(p, _) => p.src == d || Concerns(p.msg, d)
    case Seek(_, dest) => dest == d && IsValid(n.table, d)
    case SeekFires(_, dest) => dest == d && IsValid(n.table, d)
    case DataWithoutRoute(_, _, dst) => dst == d && IsValid(n.table, d)
    case _ => false
  }

  predicate Concerns(m: Msg, d: Addr) {
    match m
    case RreqMsg(q) => q.orig == d
    case RrepMsg(r) => r.dest == d || r.orig == d
    case _ => false
  }

  lemma RrepSendHarmless(t: Table, now: int, rev: Addr, fwd: Addr, hasFwd: bool, d: Addr, live: bool)
    requires rev in t.entries && (hasFwd ==> fwd in t.entries)
    ensures Harmless(RrepSendOps(t, now, rev, fwd, hasFwd), now, d, live)
  {
  }

  lemma AnswerHarmless(n: NodeState, now: int, m: Rreq, d: Addr, live: bool)
    requires m.orig in n.table.entries
    ensures Harmless(AnswerOps(n, now, m), now, d, live)
  {
    if m.dest == n.self {
      RrepSendHarmless(n.table, now, m.orig, 0, false, d, live);
    } else if Knows(n, m) {
      RrepSendHarmless(n.table, now, m.orig, m.dest, true, d, live);
      if m.gratuitous {
        RrepSendHarmless(FromTable(n, now, m.(gratuitous := false)).0.table, now, m.dest, m.orig, true, d, live);
      }
    }
  }

  lemma RreqHarmless(n: NodeState, now: int, m: Rreq, len: int, src: Addr, d: Addr, live: bool)
    requires |n.table.buckets| == TABLE_SIZE && m.orig != d
    ensures Harmless(RreqOps(n, now, m, len, src), now, d, live)
  {
    if PassesFilters(n, m, len, src) {
      AnswerHarmless(ReverseRoute(n, now, m, src).0, now, m, d, live);
    }
  }

  lemma RrepForwardHarmless(t: Table, now: int, rev: Addr, fwd: Addr, d: Addr, live: bool)
    requires rev in t.entries && fwd in t.entries && rev != d
    ensures Harmless(RrepForwardOps(t, now, rev, fwd), now, d, live)
  {
  }

  lemma RrepHarmless(n: NodeState, now: int, m: Rrep, len: int, src: Addr, d: Addr, live: bool)
    requires |n.table.buckets| == TABLE_SIZE && m.orig != d && m.dest != d
    ensures Harmless(RrepOps(n, now, m, len, src), now, d, live)
  {
    var (t, _, accepted) := ForwardTable(n.table, now, m, src);
    if accepted && m.orig in n.table.entries {
      RrepForwardHarmless(t, now, m.orig, m.dest, d, live);
    }
  }

  lemma {:induction false} RerrHarmless(t: Table, now: int, noDelete: bool, src: Addr, work: seq<(Addr, u32)>, d: Addr,
                                        live: bool)
    ensures Harmless(RerrWalkOps(t, now, noDelete, src, work), now, d, live)
    decreases work
  {
    if work != [] {
      RerrHarmless(RerrStep(t, now, noDelete, src, work[0].0, work[0].1, NoRerr).0, now, noDelete, src, work[1..], d,
                   live);
    }
  }

  lemma ReceiveHarmless(n: NodeState, now: int, p: Packet, d: Addr, live: bool)
    requires |n.table.buckets| == TABLE_SIZE && p.src != d && !Concerns(p.msg, d)
    ensures Harmless(ReceiveOps(n, now, p), now, d, live)
  {
    var n1 := HearNeighbor(n, now, p.src);
    match p.msg
    case RreqMsg(m) => RreqHarmless(n1, now, m, p.len, p.src, d, live);
    case RrepMsg(m) => RrepHarmless(n1, now, m, p.len, p.src, d, live);
    case RerrMsg(m) => RerrHarmless(n1.table, now, m.noDelete, p.src, m.dests, d, live);
    case _ =>
  }

  lemma ReactHarmless(n: NodeState, now: int, a: Action, d: Addr)
    requires |n.table.buckets| == TABLE_SIZE && Ready(n, a) && !Renewed(n, a, d)
    ensures Harmless(ReactOps(n, now, a), now, d, IsValid(n.table, d))
  {
    if a.Deliver? {
      ReceiveHarmless(n, now, a.p, d, IsValid(n.table, d));
    }
  }

  // ----- runs in time ----------------------------------------------------------------------------------------

  /** No timer of the table is later than `lag` in firing. */
  ghost predicate Punctual(t: Table, now: int, lag: nat) {
    forall a :: a in t.entries && t.entries[a].armed ==> now <= t.entries[a].deadline + lag
  }

  /** Timers fire no later than that, and nothing renews the entry for d. */
  ghost predicate LeftAlone(n: NodeState, evs: seq<Event>, d: Addr, lag: nat)
    requires NodeRuns(n, evs)
    decreases evs
  {
    evs == []
    || (var ev := evs[0];
        && Punctual(n.table, ev.now, lag) && !Renewed(n, ev.action, d)
        && LeftAlone(React(n, ev.now, ev.action).0, evs[1..], d, lag))
  }

  lemma ReactFades(n: NodeState, now: int, a: Action, d: Addr, lag: nat, expiry: int, end: int)
    requires |n.table.buckets| == TABLE_SIZE && Ready(n, a) && Punctual(n.table, now, lag) && !Renewed(n, a, d)
    requires Fades(n.table, d, expiry, end) && expiry + lag + PERIOD <= end
    ensures Fades(React(n, now, a).0.table, d, expiry, end)
  {
    ReactHarmless(n, now, a, d);
    ReactLeads(n, now, a, NOTHING);
    RunFades(n.table, ReactOps(n, now, a), now, d, IsValid(n.table, d), expiry, end);
  }

  lemma {:induction false} NodeFades(n: NodeState, evs: seq<Event>, d: Addr, lag: nat, expiry: int, end: int)
    requires NodeRuns(n, evs) && LeftAlone(n, evs, d, lag)
    requires Fades(n.table, d, expiry, end) && expiry + lag + PERIOD <= end
    ensures Fades(NodeAfter(n, evs).table, d, expiry, end)
    decreases evs
  {
    if evs != [] {
      ReactFades(n, evs[0].now, evs[0].action, d, lag, expiry, end);
      NodeFades(React(n, evs[0].now, evs[0].action).0, evs[1..], d, lag, expiry, end);
    }
  }

  /** When an entry with a running timer is gone at the latest, if nobody renews it. */
  function GoneBy(e: Entry, lag: nat): (end: int) {
    if e.valid then e.deadline + lag + PERIOD + lag else e.deadline + lag
  }

  /** An entry whose timer runs and that nothing renews is no longer there at any later time at which timers are
      no more than `lag` late, whatever else the node receives or does. */
  lemma GoneInTime(n: NodeState, evs: seq<Event>, d: Addr, lag: nat, now: int)
    requires NodeRuns(n, evs) && d in n.table.entries && n.table.entries[d].armed && LeftAlone(n, evs, d, lag)
    requires Punctual(NodeAfter(n, evs).table, now, lag) && now > GoneBy(n.table.entries[d], lag)
    ensures d !in NodeAfter(n, evs).table.entries
  {
    var e := n.table.entries[d];
    if e.valid {
      NodeFades(n, evs, d, lag, e.deadline, e.deadline + lag + PERIOD);
    } else {
      NodeFades(n, evs, d, lag, e.deadline - lag - PERIOD, e.deadline);
    }
  }

  // ----- the network -------------------------------------------------------------------------------------

  /** The same of the events at node i in a run of the network. */
  ghost predicate LeftAloneAt(net: Net, evs: seq<Event>, i: Addr, d: Addr, lag: nat)
    requires Happens(net, evs)
    decreases evs
  {
    evs == []
    || (var ev := evs[0];
        && (Site(ev.action) == i ==>
              Punctual(net.nodes[i].table, ev.now, lag) && !Renewed(net.nodes[i], ev.action, d))
        && LeftAloneAt(NetStep(net, ev), evs[1..], i, d, lag))
  }

  lemma {:induction false} NetworkFades(net: Net, evs: seq<Event>, i: Addr, d: Addr, lag: nat, expiry: int, end: int)
    requires Happens(net, evs) && i in net.nodes && LeftAloneAt(net, evs, i, d, lag)
    requires Fades(net.nodes[i].table, d, expiry, end) && expiry + lag + PERIOD <= end
    ensures i in Outcome(net, evs).nodes && Fades(Outcome(net, evs).nodes[i].table, d, expiry, end)
    decreases evs
  {
    if evs != [] {
      if Site(evs[0].action) == i {
        ReactFades(net.nodes[i], evs[0].now, evs[0].action, d, lag, expiry, end);
      }
      NetworkFades(NetStep(net, evs[0]), evs[1..], i, d, lag, expiry, end);
    }
  }

  /** So in every run of any number of nodes an entry that nothing renews is gone at every node in time. */
  lemma GoneInTimeAt(net: Net, evs: seq<Event>, i: Addr, d: Addr, lag: nat, now: int)
    requires Happens(net, evs) && i in net.nodes && LeftAloneAt(net, evs, i, d, lag)
    requires d in net.nodes[i].table.entries && net.nodes[i].table.entries[d].armed
    requires i in Outcome(net, evs).nodes && Punctual(Outcome(net, evs).nodes[i].table, now, lag)
    requires now > GoneBy(net.nodes[i].table.entries[d], lag)
    ensures d !in Outcome(net, evs).nodes[i].table.entries
  {
    var e := net.nodes[i].table.entries[d];
    if e.valid {
      NetworkFades(net, evs, i, d, lag, e.deadline, e.deadline + lag + PERIOD);
    } else {
      NetworkFades(net, evs, i, d, lag, e.deadline - lag - PERIOD, e.deadline);
    }
  }

  /** Events of runs in time find no timer late. */
  lemma TimelyIsPunctual(net: Net, ev: Event, i: Addr)
    requires Enabled(net, ev.action) && Timely(net, ev) && i in net.nodes
    ensures Punctual(net.nodes[i].table, ev.now, 0)
  {
    if i != Site(ev.action) {
      assert NoneDue(net.nodes[i].table, ev.now);
    }
  }
}
