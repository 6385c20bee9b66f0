/**
 Each handler of a node as the table operations it performs, in order. So whatever holds over all runs of
 operations holds for the daemon, whatever packets it receives and whenever its timers fire.
 */
module HandlerRuns {
  import opened Words
  import opened Params
  import opened RouteSpec
  import opened AodvSpec
  import opened TableRuns
  import opened KernelMirror
  import opened LifeCycle
  import opened Lifetimes

  /** What is known of the packets: their senders have addresses; their lifetimes are ones a timer accepts. */
  datatype Claims = Claims(addresses: bool, lifetimes: bool)

  const NOTHING := Claims(false, false)

  /** The operation stores addresses only, and lifetimes a timer accepts, as far as that is claimed. */
  predicate Fine(op: Op, c: Claims) {
    (c.addresses ==> Named(op)) && (c.lifetimes ==> LifetimeOk(op))
  }

  /** `ops` leads from t to t', asks for no discovery and does as claimed. */
  ghost predicate Leads(t: Table, ops: seq<Timed>, t': Table, c: Claims) {
    && RunAllowed(t, ops) && Run(t, ops) == t' && Start(t', c)
    && forall x :: x in ops ==> !x.op.Ask? && Fine(x.op, c)
  }

  /** A table whose buckets are there, and whose next hops are addresses if that is claimed. */
  ghost predicate Start(t: Table, c: Claims) {
    |t.buckets| == TABLE_SIZE && (c.addresses ==> NextsOk(t))
  }

  /** What is claimed of a packet. */
  predicate Claimed(p: Packet, c: Claims) {
    (c.addresses ==> p.src != 0) && (c.lifetimes ==> InRange(p))
  }

  /** A RREQ has come at most 69 hops, and a RREP's lifetime is one a timer accepts. */
  predicate InRange(p: Packet) {
    match p.msg
    case RreqMsg(m) => m.hopcnt + 1 <= 69
    case RrepMsg(m) => Starts(m.lifetime)
    case _ => true
  }

  lemma Stay(t: Table, c: Claims)
    requires Start(t, c)
    ensures Leads(t, [], t, c)
  {
  }

  lemma One(t: Table, now: int, op: Op, c: Claims)
    requires Start(t, c) && Allowed(t, op) && !op.Ask? && Fine(op, c)
    ensures Leads(t, [Timed(now, op)], Do(t, now, op), c)
  {
    var ops := [Timed(now, op)];
    DoKeepsBuckets(t, now, op);
    if c.addresses {
      DoKeepsNexts(t, now, op);
    }
    assert ops[1..] == [];
    assert RunAllowed(Do(t, now, op), []);
  }

  lemma Chain(t: Table, ops: seq<Timed>, t1: Table, more: seq<Timed>, t2: Table, c: Claims)
    requires Leads(t, ops, t1, c) && Leads(t1, more, t2, c)
    ensures Leads(t, ops + more, t2, c)
  {
    RunAppend(t, ops, more);
  }

  /** One operation more. */
  lemma Then(t: Table, ops: seq<Timed>, t1: Table, now: int, op: Op, c: Claims)
    requires Leads(t, ops, t1, c) && Allowed(t1, op) && !op.Ask? && Fine(op, c)
    ensures Leads(t, ops + [Timed(now, op)], Do(t1, now, op), c)
  {
    One(t1, now, op, c);
    Chain(t, ops, t1, [Timed(now, op)], Do(t1, now, op), c);
  }

  // ----- neighbour and RREP ----------------------------------------------------------------------------

  function HearNeighborOps(t: Table, now: int, src: Addr): (ops: seq<Timed>) {
    if src !in t.entries then [Timed(now, Insert(src, src, 1, 0, ACTIVE_ROUTE_TIMEOUT))]
    else if t.entries[src].unidir then []
    else [Timed(now, Update(src, src, 1, t.entries[src].seqno, ACTIVE_ROUTE_TIMEOUT, false))]
  }

  lemma HearNeighborLeads(n: NodeState, now: int, src: Addr, c: Claims)
    requires Start(n.table, c) && (c.addresses ==> src != 0)
    ensures Leads(n.table, HearNeighborOps(n.table, now, src), HearNeighbor(n, now, src).table, c)
  {
    var t := n.table;
    if src !in t.entries {
      One(t, now, Insert(src, src, 1, 0, ACTIVE_ROUTE_TIMEOUT), c);
    } else if !t.entries[src].unidir {
      One(t, now, Update(src, src, 1, t.entries[src].seqno, ACTIVE_ROUTE_TIMEOUT, false), c);
    }
  }

  /** Whether rrep_send breaks the link it would take. */
  predicate Breaks(t: Table, rev: Addr)
    requires rev in t.entries
  {
    var e := t.entries[rev];
    e.valid && e.unidir && e.next in t.entries && t.entries[e.next].valid && !t.entries[e.next].ackUsed
  }

  function BreakUnidirOps(t: Table, now: int, rev: Addr): (ops: seq<Timed>)
    requires rev in t.entries
  {
    var d := t.entries[rev].next;
    if Breaks(t, rev)
    then [] + [Timed(now, Mark(d, true, false))] + [Timed(now, LinkBreak(d))] + [Timed(now, Mark(d, true, true))]
    else []
  }

  lemma BreakUnidirLeads(t: Table, now: int, rev: Addr, c: Claims)
    requires Start(t, c) && rev in t.entries
    ensures Leads(t, BreakUnidirOps(t, now, rev), BreakUnidir(t, now, rev).0, c)
  {
    if Breaks(t, rev) {
      var d := t.entries[rev].next;
      var t1 := Do(t, now, Mark(d, true, false));
      var t2 := Do(t1, now, LinkBreak(d));
      LinkBreakShape(t1, now, d);
      assert KeptOrBroken(t1.entries[d], now, t2.entries[d]);
      Stay(t, c);
      Then(t, [], t, now, Mark(d, true, false), c);
      Then(t, [] + [Timed(now, Mark(d, true, false))], t1, now, LinkBreak(d), c);
      Then(t, [] + [Timed(now, Mark(d, true, false))] + [Timed(now, LinkBreak(d))], t2, now, Mark(d, true, true), c);
    }
  }

  function LinkPrecursorsOps(t: Table, now: int, rev: Addr, fwd: Addr): (ops: seq<Timed>)
    requires rev in t.entries && fwd in t.entries
  {
    [Timed(now, AddPrecursor(fwd, t.entries[rev].next))] + [Timed(now, AddPrecursor(rev, t.entries[fwd].next))]
  }

  lemma LinkPrecursorsLeads(t: Table, now: int, rev: Addr, fwd: Addr, c: Claims)
    requires Start(t, c) && rev in t.entries && fwd in t.entries
    ensures Leads(t, LinkPrecursorsOps(t, now, rev, fwd), LinkPrecursors(t, rev, fwd), c)
  {
    var one := AddPrecursor(fwd, t.entries[rev].next);
    One(t, now, one, c);
    Then(t, [Timed(now, one)], Do(t, now, one), now, AddPrecursor(rev, t.entries[fwd].next), c);
  }

  function RrepSendOps(t: Table, now: int, rev: Addr, fwd: Addr, hasFwd: bool): (ops: seq<Timed>)
    requires rev in t.entries && (hasFwd ==> fwd in t.entries)
  {
    BreakUnidirOps(t, now, rev)
    + if hasFwd then LinkPrecursorsOps(BreakUnidir(t, now, rev).0, now, rev, fwd) else []
  }

  lemma RrepSendLeads(n: NodeState, now: int, m: Rrep, rev: Addr, fwd: Addr, hasFwd: bool, c: Claims)
    requires Start(n.table, c) && rev in n.table.entries && (hasFwd ==> fwd in n.table.entries)
    ensures Leads(n.table, RrepSendOps(n.table, now, rev, fwd, hasFwd),
                  RrepSend(n, now, m, rev, fwd, hasFwd).0.table, c)
  {
    var t := BreakUnidir(n.table, now, rev).0;
    var ops := BreakUnidirOps(n.table, now, rev);
    BreakUnidirLeads(n.table, now, rev, c);
    if hasFwd {
      LinkPrecursorsLeads(t, now, rev, fwd, c);
      Chain(n.table, ops, t, LinkPrecursorsOps(t, now, rev, fwd), LinkPrecursors(t, rev, fwd), c);
    } else {
      assert ops + [] == ops;
    }
  }

  // ----- RREQ --------------------------------------------------------------------------------------------

  function ReverseTableOps(t: Table, now: int, m: Rreq, src: Addr): (ops: seq<Timed>) {
    var hops := m.hopcnt + 1;
    var life := ReverseLifetime(hops);
    if m.orig !in t.entries then [Timed(now, Insert(m.orig, src, hops, m.origSeqno, life))]
    else if AcceptRreq(t.entries[m.orig], m.origSeqno, hops)
    then [Timed(now, Update(m.orig, src, hops, m.origSeqno, life, t.entries[m.orig].unidir))]
    else []
  }

  lemma ReverseTableLeads(t: Table, now: int, m: Rreq, src: Addr, c: Claims)
    requires Start(t, c) && (c.addresses ==> src != 0) && (c.lifetimes ==> m.hopcnt + 1 <= 69)
    ensures Leads(t, ReverseTableOps(t, now, m, src), ReverseTable(t, now, m, src).0, c)
  {
    var hops := m.hopcnt + 1;
    var life := ReverseLifetime(hops);
    if c.lifetimes {
      ReverseLifetimeInRangeIff(hops);
    }
    if m.orig !in t.entries {
      One(t, now, Insert(m.orig, src, hops, m.origSeqno, life), c);
    } else if AcceptRreq(t.entries[m.orig], m.origSeqno, hops) {
      One(t, now, Update(m.orig, src, hops, m.origSeqno, life, t.entries[m.orig].unidir), c);
    }
  }

  function FromTableOps(n: NodeState, now: int, m: Rreq): (ops: seq<Timed>)
    requires m.orig in n.table.entries && m.dest in n.table.entries
  {
    RrepSendOps(n.table, now, m.orig, m.dest, true)
    + if m.gratuitous
      then RrepSendOps(FromTable(n, now, m.(gratuitous := false)).0.table, now, m.dest, m.orig, true) else []
  }

  lemma FromTableLeads(n: NodeState, now: int, m: Rreq, c: Claims)
    requires Start(n.table, c) && m.orig in n.table.entries && m.dest in n.table.entries
    ensures Leads(n.table, FromTableOps(n, now, m), FromTable(n, now, m).0.table, c)
  {
    var f := n.table.entries[m.dest];
    var life := Wrap(DiffMs(f.deadline - now));
    var rrep := Rrep(f.hops, m.dest, f.seqno, m.orig, life, false);
    var n1 := RrepSend(n, now, rrep, m.orig, m.dest, true).0;
    var ops := RrepSendOps(n.table, now, m.orig, m.dest, true);
    RrepSendLeads(n, now, rrep, m.orig, m.dest, true, c);
    if m.gratuitous {
      var b := n1.table.entries[m.orig];
      var back := Rrep(b.hops, m.orig, b.seqno, m.dest, life, false);
      RrepSendLeads(n1, now, back, m.dest, m.orig, true, c);
      Chain(n.table, ops, n1.table, RrepSendOps(n1.table, now, m.dest, m.orig, true),
            RrepSend(n1, now, back, m.dest, m.orig, true).0.table, c);
    } else {
      assert ops + [] == ops;
    }
  }

  /** Whether a RREQ is answered from the table. */
  predicate Knows(n: NodeState, m: Rreq) {
    m.dest in n.table.entries && n.table.entries[m.dest].valid && !m.destOnly && n.table.entries[m.dest].seqno != 0
    && AsSigned(n.table.entries[m.dest].seqno) >= AsSigned(m.destSeqno)
  }

  function AnswerOps(n: NodeState, now: int, m: Rreq): (ops: seq<Timed>)
    requires m.orig in n.table.entries
  {
    if m.dest == n.self then RrepSendOps(n.table, now, m.orig, 0, false)
    else if Knows(n, m) then FromTableOps(n, now, m)
    else []
  }

  lemma AnswerLeads(n: NodeState, now: int, m: Rreq, len: int, ttl: int, c: Claims)
    requires Start(n.table, c) && m.orig in n.table.entries
    ensures Leads(n.table, AnswerOps(n, now, m), AnswerOrForward(n, now, m, len, ttl).0.table, c)
  {
    if m.dest == n.self {
      var n1 := n.(hostSeq := AnswerSeqno(n.hostSeq, m.destSeqno));
      RrepSendLeads(n1, now, Rrep(0, n.self, n1.hostSeq, m.orig, MY_ROUTE_TIMEOUT, false), m.orig, 0, false, c);
    } else if Knows(n, m) {
      FromTableLeads(n, now, m, c);
    }
  }

  /** Whether a RREQ passes the filters at the head of rreq_process. */
  predicate PassesFilters(n: NodeState, m: Rreq, len: int, src: Addr) {
    !(m.orig == n.self || len < RREQ_SIZE || src in n.blacklist || (m.orig, m.id) in n.records)
  }

  function RreqOps(n: NodeState, now: int, m: Rreq, len: int, src: Addr): (ops: seq<Timed>)
    requires |n.table.buckets| == TABLE_SIZE
  {
    if PassesFilters(n, m, len, src)
    then ReverseTableOps(n.table, now, m, src) + AnswerOps(ReverseRoute(n, now, m, src).0, now, m)
    else []
  }

  lemma RreqLeads(n: NodeState, now: int, m: Rreq, len: int, src: Addr, ttl: int, c: Claims)
    requires Start(n.table, c) && (c.addresses ==> src != 0) && (c.lifetimes ==> m.hopcnt + 1 <= 69)
    ensures Leads(n.table, RreqOps(n, now, m, len, src), RreqProcess(n, now, m, len, src, ttl).0.table, c)
  {
    if PassesFilters(n, m, len, src) {
      var n1 := ReverseRoute(n, now, m, src).0;
      ReverseTableLeads(n.table, now, m, src, c);
      AnswerLeads(n1, now, m, len, ttl, c);
      Chain(n.table, ReverseTableOps(n.table, now, m, src), n1.table, AnswerOps(n1, now, m),
            AnswerOrForward(n1, now, m, len, ttl).0.table, c);
    }
  }

  // ----- RREP, continued -----------------------------------------------------------------------------------

  function ForwardTableOps(t: Table, now: int, m: Rrep, src: Addr): (ops: seq<Timed>) {
    var hops := m.hopcnt + 1;
    if m.dest !in t.entries then [Timed(now, Insert(m.dest, src, hops, m.destSeqno, m.lifetime))]
    else if AcceptRrep(t.entries[m.dest], m.destSeqno, hops)
    then [Timed(now, Update(m.dest, src, hops, m.destSeqno, m.lifetime, t.entries[m.dest].unidir))]
    else []
  }

  lemma ForwardTableLeads(t: Table, now: int, m: Rrep, src: Addr, c: Claims)
    requires Start(t, c) && (c.addresses ==> src != 0) && (c.lifetimes ==> Starts(m.lifetime))
    ensures Leads(t, ForwardTableOps(t, now, m, src), ForwardTable(t, now, m, src).0, c)
  {
    var hops := m.hopcnt + 1;
    if m.dest !in t.entries {
      One(t, now, Insert(m.dest, src, hops, m.destSeqno, m.lifetime), c);
    } else if AcceptRrep(t.entries[m.dest], m.destSeqno, hops) {
      One(t, now, Update(m.dest, src, hops, m.destSeqno, m.lifetime, t.entries[m.dest].unidir), c);
    }
  }

  function AskForAckOps(t: Table, now: int, next: Addr): (ops: seq<Timed>) {
    if next in t.entries && !t.entries[next].ackUsed then [Timed(now, Mark(next, true, true))] else []
  }

  function RrepForwardOps(t: Table, now: int, rev: Addr, fwd: Addr): (ops: seq<Timed>)
    requires rev in t.entries && fwd in t.entries
  {
    AskForAckOps(t, now, t.entries[rev].next)
    + LinkPrecursorsOps(AskForAck(t, t.entries[rev].next).0, now, rev, fwd)
    + [Timed(now, Prolong(rev, ACTIVE_ROUTE_TIMEOUT))]
  }

  lemma RrepForwardLeads(n: NodeState, now: int, m: Rrep, len: int, rev: Addr, fwd: Addr, ttl: int, c: Claims)
    requires Start(n.table, c) && rev in n.table.entries && fwd in n.table.entries
    ensures Leads(n.table, RrepForwardOps(n.table, now, rev, fwd),
                  RrepForward(n, now, m, len, rev, fwd, ttl).0.table, c)
  {
    var t := n.table;
    var next := t.entries[rev].next;
    var t1 := AskForAck(t, next).0;
    var ops := AskForAckOps(t, now, next);
    if next in t.entries && !t.entries[next].ackUsed {
      One(t, now, Mark(next, true, true), c);
    }
    var more, t2 := LinkPrecursorsOps(t1, now, rev, fwd), LinkPrecursors(t1, rev, fwd);
    LinkPrecursorsLeads(t1, now, rev, fwd, c);
    Chain(t, ops, t1, more, t2, c);
    Then(t, ops + more, t2, now, Prolong(rev, ACTIVE_ROUTE_TIMEOUT), c);
  }

  function RrepOps(n: NodeState, now: int, m: Rrep, len: int, src: Addr): (ops: seq<Timed>)
    requires |n.table.buckets| == TABLE_SIZE
  {
    var (t, _, accepted) := ForwardTable(n.table, now, m, src);
    if len < RREP_SIZE || m.dest == n.self || !accepted then []
    else
      ForwardTableOps(n.table, now, m, src)
      + if m.orig != n.self && m.orig in n.table.entries && t.entries[m.orig].valid
        then RrepForwardOps(t, now, m.orig, m.dest) else []
  }

  lemma RrepLeads(n: NodeState, now: int, m: Rrep, len: int, src: Addr, ttl: int, c: Claims)
    requires Start(n.table, c) && (c.addresses ==> src != 0) && (c.lifetimes ==> Starts(m.lifetime))
    ensures Leads(n.table, RrepOps(n, now, m, len, src), RrepProcess(n, now, m, len, src, ttl).0.table, c)
  {
    var (t, dr, accepted) := ForwardTable(n.table, now, m, src);
    if !(len < RREP_SIZE || m.dest == n.self || !accepted) {
      var ops := ForwardTableOps(n.table, now, m, src);
      ForwardTableLeads(n.table, now, m, src, c);
      var n1 := n.(table := t);
      if m.orig != n.self && m.orig in n.table.entries && t.entries[m.orig].valid {
        RrepForwardLeads(n1, now, m.(ack := false), len, m.orig, m.dest, ttl - 1, c);
        var n2 := RrepForward(n1, now, m.(ack := false), len, m.orig, m.dest, ttl - 1).0;
        Chain(n.table, ops, t, RrepForwardOps(t, now, m.orig, m.dest), n2.table, c);
      } else {
        assert ops + [] == ops;
      }
    }
  }

  // ----- RERR ------------------------------------------------------------------------------------------------

  function RerrStepOps(t: Table, now: int, noDelete: bool, src: Addr, d: Addr, s: u32): (ops: seq<Timed>) {
    if !RerrHits(t, src, d, s) then []
    else
      [] + (if noDelete then [] else [Timed(now, Invalidate(d))]) + [Timed(now, SetSeqno(d, s))]
      + if noDelete then [] else [Timed(now, ClearPrecursors(d))]
  }

  lemma RerrStepLeads(t: Table, now: int, noDelete: bool, src: Addr, d: Addr, s: u32, dr: Draft, c: Claims)
    requires Start(t, c)
    ensures Leads(t, RerrStepOps(t, now, noDelete, src, d, s), RerrStep(t, now, noDelete, src, d, s, dr).0, c)
  {
    if RerrHits(t, src, d, s) {
      var t1 := if noDelete then t else InvalidateSpec(t, now, d);
      var ops := [] + if noDelete then [] else [Timed(now, Invalidate(d))];
      if noDelete {
        Stay(t, c);
      } else {
        Stay(t, c);
        Then(t, [], t, now, Invalidate(d), c);
      }
      Then(t, ops, t1, now, SetSeqno(d, s), c);
      var t2 := Do(t1, now, SetSeqno(d, s));
      if !noDelete {
        Then(t, ops + [Timed(now, SetSeqno(d, s))], t2, now, ClearPrecursors(d), c);
      } else {
        assert ops + [Timed(now, SetSeqno(d, s))] + [] == ops + [Timed(now, SetSeqno(d, s))];
      }
    }
  }

  function RerrWalkOps(t: Table, now: int, noDelete: bool, src: Addr, work: seq<(Addr, u32)>): (ops: seq<Timed>)
    decreases work
  {
    if work == [] then []
    else
      RerrStepOps(t, now, noDelete, src, work[0].0, work[0].1)
      + RerrWalkOps(RerrStep(t, now, noDelete, src, work[0].0, work[0].1, NoRerr).0, now, noDelete, src, work[1..])
  }

  lemma {:induction false} RerrWalkLeads(t: Table, now: int, noDelete: bool, src: Addr, work: seq<(Addr, u32)>,
                                         dr: Draft, c: Claims)
    requires Start(t, c)
    ensures Leads(t, RerrWalkOps(t, now, noDelete, src, work), RerrWalk(t, now, noDelete, src, work, dr).0, c)
    decreases work
  {
    if work != [] {
      var (t1, dr1) := RerrStep(t, now, noDelete, src, work[0].0, work[0].1, dr);
      assert RerrStep(t, now, noDelete, src, work[0].0, work[0].1, NoRerr).0 == t1;
      RerrStepLeads(t, now, noDelete, src, work[0].0, work[0].1, dr, c);
      RerrWalkLeads(t1, now, noDelete, src, work[1..], dr1, c);
      Chain(t, RerrStepOps(t, now, noDelete, src, work[0].0, work[0].1), t1,
            RerrWalkOps(t1, now, noDelete, src, work[1..]), RerrWalk(t1, now, noDelete, src, work[1..], dr1).0, c);
    }
  }

  // ----- a packet, and the rest --------------------------------------------------------------------------------

  function DispatchedOps(n: NodeState, now: int, p: Packet): (ops: seq<Timed>)
    requires |n.table.buckets| == TABLE_SIZE
  {
    match p.msg
    case RreqMsg(m) => RreqOps(n, now, m, p.len, p.src)
    case RrepMsg(m) => RrepOps(n, now, m, p.len, p.src)
    case RerrMsg(m) =>
      if p.len < RerrSize(|m.dests|) then [] else RerrWalkOps(n.table, now, m.noDelete, p.src, m.dests)
    case RrepAckMsg =>
      if p.src in n.table.entries then [Timed(now, Mark(p.src, n.table.entries[p.src].unidir, false))] else []
  }

  lemma DispatchedLeads(n: NodeState, now: int, p: Packet, c: Claims)
    requires Start(n.table, c) && Claimed(p, c)
    ensures Leads(n.table, DispatchedOps(n, now, p), Dispatched(n, now, p).0.table, c)
  {
    match p.msg
    case RreqMsg(m) => RreqLeads(n, now, m, p.len, p.src, p.ttl, c);
    case RrepMsg(m) => RrepLeads(n, now, m, p.len, p.src, p.ttl, c);
    case RerrMsg(m) =>
      if p.len >= RerrSize(|m.dests|) {
        RerrWalkLeads(n.table, now, m.noDelete, p.src, m.dests, NoRerr, c);
      }
    case RrepAckMsg =>
      if p.src in n.table.entries {
        One(n.table, now, Mark(p.src, n.table.entries[p.src].unidir, false), c);
      }
  }

  function ReceiveOps(n: NodeState, now: int, p: Packet): (ops: seq<Timed>)
    requires |n.table.buckets| == TABLE_SIZE
  {
    HearNeighborOps(n.table, now, p.src) + DispatchedOps(HearNeighbor(n, now, p.src), now, p)
  }

  /** A packet changes the table by the operations of its handler. */
  lemma ReceiveLeads(n: NodeState, now: int, p: Packet, c: Claims)
    requires Start(n.table, c) && Claimed(p, c)
    ensures Leads(n.table, ReceiveOps(n, now, p), Receive(n, now, p).0.table, c)
  {
    var n1 := HearNeighbor(n, now, p.src);
    HearNeighborLeads(n, now, p.src, c);
    DispatchedLeads(n1, now, p, c);
    Chain(n.table, HearNeighborOps(n.table, now, p.src), n1.table, DispatchedOps(n1, now, p),
          Dispatched(n1, now, p).0.table, c);
  }

  function HoldOps(t: Table, now: int, d: Addr): (ops: seq<Timed>) {
    if d in t.entries && DiffMs(t.entries[d].deadline - now) < 2 * NET_TRAVERSAL_TIME
    then [Timed(now, Prolong(d, 2 * NET_TRAVERSAL_TIME))] else []
  }

  lemma HoldLeads(t: Table, now: int, d: Addr, c: Claims)
    requires Start(t, c)
    ensures Leads(t, HoldOps(t, now, d), HoldIfKnown(t, now, d), c)
  {
    if d in t.entries && DiffMs(t.entries[d].deadline - now) < 2 * NET_TRAVERSAL_TIME {
      One(t, now, Prolong(d, 2 * NET_TRAVERSAL_TIME), c);
    }
  }

  function RouteTimeoutOps(t: Table, now: int, d: Addr): (ops: seq<Timed>)
    requires d in t.entries
  {
    match t.entries[d].handler
    case DeleteHandler => [Timed(now, Delete(d))]
    case ExpireHandler =>
      if t.entries[d].hops == 1 then [Timed(now, LinkBreak(d))]
      else [Timed(now, Invalidate(d))] + [Timed(now, ClearPrecursors(d))]
  }

  lemma RouteTimeoutLeads(n: NodeState, now: int, d: Addr, c: Claims)
    requires Start(n.table, c) && d in n.table.entries
    ensures Leads(n.table, RouteTimeoutOps(n.table, now, d), RouteTimeout(n, now, d).0.table, c)
  {
    var t := n.table;
    match t.entries[d].handler
    case DeleteHandler => One(t, now, Delete(d), c);
    case ExpireHandler =>
      if t.entries[d].hops == 1 {
        One(t, now, LinkBreak(d), c);
      } else {
        One(t, now, Invalidate(d), c);
        Then(t, [Timed(now, Invalidate(d))], Do(t, now, Invalidate(d)), now, ClearPrecursors(d), c);
      }
  }

  function UnsolicitedRerrOps(t: Table, now: int, dst: Addr): (ops: seq<Timed>) {
    if dst != BROADCAST && dst in t.entries then [Timed(now, Prolong(dst, DELETE_PERIOD))] else []
  }

  lemma UnsolicitedRerrLeads(n: NodeState, now: int, src: Addr, dst: Addr, c: Claims)
    requires Start(n.table, c)
    ensures Leads(n.table, UnsolicitedRerrOps(n.table, now, dst), UnsolicitedRerr(n, now, src, dst).0.table, c)
  {
    if dst != BROADCAST && dst in n.table.entries {
      One(n.table, now, Prolong(dst, DELETE_PERIOD), c);
    }
  }

  // ----- the index, handler by handler -------------------------------------------------------------------

  lemma LeadsKeepsIndex(t: Table, ops: seq<Timed>, t': Table)
    requires Leads(t, ops, t', NOTHING) && Indexed(t)
    ensures Indexed(t')
  {
    RunKeepsIndex(t, ops);
  }

  lemma ReceiveKeepsIndex(n: NodeState, now: int, p: Packet)
    requires Indexed(n.table)
    ensures Indexed(Receive(n, now, p).0.table)
  {
    ReceiveLeads(n, now, p, NOTHING);
    LeadsKeepsIndex(n.table, ReceiveOps(n, now, p), Receive(n, now, p).0.table);
  }

  lemma HoldKeepsIndex(t: Table, now: int, d: Addr)
    requires Indexed(t)
    ensures Indexed(HoldIfKnown(t, now, d))
  {
    HoldLeads(t, now, d, NOTHING);
    LeadsKeepsIndex(t, HoldOps(t, now, d), HoldIfKnown(t, now, d));
  }

  lemma DiscoverKeepsIndex(n: NodeState, now: int, d: Addr)
    requires Indexed(n.table)
    ensures Indexed(Discover(n, now, d).0.table)
  {
    HoldKeepsIndex(n.table, now, d);
    if d !in n.table.seeks {
      SameKeysIndexed(HoldIfKnown(n.table, now, d), Discover(n, now, d).0.table);
    }
  }

  lemma DiscoveryTimeoutKeepsIndex(n: NodeState, now: int, d: Addr)
    requires Indexed(n.table) && d in n.table.seeks
    ensures Indexed(DiscoveryTimeout(n, now, d).0.table)
  {
    HoldKeepsIndex(n.table, now, d);
    var t' := DiscoveryTimeout(n, now, d).0.table;
    SameKeysIndexed(if d in t'.seeks then HoldIfKnown(n.table, now, d) else n.table, t');
  }

  lemma UnsolicitedRerrKeepsIndex(n: NodeState, now: int, src: Addr, dst: Addr)
    requires Indexed(n.table)
    ensures Indexed(UnsolicitedRerr(n, now, src, dst).0.table)
  {
    UnsolicitedRerrLeads(n, now, src, dst, NOTHING);
    LeadsKeepsIndex(n.table, UnsolicitedRerrOps(n.table, now, dst), UnsolicitedRerr(n, now, src, dst).0.table);
  }

  lemma RouteTimeoutKeepsIndex(n: NodeState, now: int, d: Addr)
    requires Indexed(n.table) && d in n.table.entries
    ensures Indexed(RouteTimeout(n, now, d).0.table)
  {
    RouteTimeoutLeads(n, now, d, NOTHING);
    LeadsKeepsIndex(n.table, RouteTimeoutOps(n.table, now, d), RouteTimeout(n, now, d).0.table);
  }

  lemma AckTimeoutKeepsIndex(n: NodeState, d: Addr)
    requires Indexed(n.table) && d in n.table.entries
    ensures Indexed(AckTimeout(n, d).table)
  {
    SameKeysIndexed(n.table, AckTimeout(n, d).table);
  }
}
