/**
 The RERRs that a node sends for broken links and for data without a route, and what it does about received ones
 that are too short or forbid deletion.
 */
module RerrOutcomes {
  import opened Words
  import opened Params
  import opened RouteSpec
  import opened AodvSpec
  import opened Sequences
  import opened TableRuns
  import opened RouteErrors
  import opened LifeCycle

  /** A RERR shorter than its count of destinations says does nothing. */
  lemma ShortRerr(n: NodeState, now: int, m: Rerr, len: int, src: Addr)
    requires len < RerrSize(|m.dests|)
    ensures RerrProcess(n, now, m, len, src) == (n, [])
  {
  }

  // ----- RERRs that forbid deletion --------------------------------------------------------------------------

  /** A VALID route through the sender. */
  predicate Via(t: Table, src: Addr, a: Addr) {
    a in t.entries && t.entries[a].valid && t.entries[a].next == src
  }

  /** s is a largest, in the signed sense, of what is stored for a and what is listed for it. */
  ghost predicate Largest(s: u32, stored: u32, a: Addr, work: seq<(Addr, u32)>) {
    && AsSigned(s) >= AsSigned(stored) && (s == stored || (a, s) in work)
    && forall r :: (a, r) in work ==> AsSigned(s) >= AsSigned(r)
  }

  /** All the listed pairs that are reported, and what they are reported as. */
  ghost predicate ReportedOnly(t: Table, src: Addr, work: seq<(Addr, u32)>, dr: Draft) {
    dr.Draft? ==> forall x :: x in dr.dests ==> x in work && Via(t, src, x.0) && t.entries[x.0].precs != []
  }

  lemma NoDeleteStep(t: Table, now: int, src: Addr, d: Addr, s: u32, dr: Draft)
    ensures var t1 := RerrStep(t, now, true, src, d, s, dr).0;
            && t1.entries.Keys == t.entries.Keys
            && (forall a :: a in t.entries ==>
                  t1.entries[a] == if a == d && Via(t, src, d) && AsSigned(s) >= AsSigned(t.entries[d].seqno)
                                   then t.entries[a].(seqno := s) else t.entries[a])
  {
  }

  lemma {:induction false} NoDeleteWalk(t: Table, now: int, src: Addr, work: seq<(Addr, u32)>, dr: Draft, a: Addr)
    requires a in t.entries
    ensures var e, t' := t.entries[a], RerrWalk(t, now, true, src, work, dr).0;
            && a in t'.entries && t'.entries[a] == e.(seqno := t'.entries[a].seqno)
            && (if Via(t, src, a) then Largest(t'.entries[a].seqno, e.seqno, a, work) else t'.entries[a] == e)
    decreases work
  {
    if work != [] {
      var d, s, rest := work[0].0, work[0].1, work[1..];
      assert work == [(d, s)] + rest;
      RerrWalkStep(t, now, true, src, d, s, rest, dr);
      NoDeleteStep(t, now, src, d, s, dr);
      var (t1, dr1) := RerrStep(t, now, true, src, d, s, dr);
      NoDeleteWalk(t1, now, src, rest, dr1, a);
    }
  }

  lemma {:induction false} NoDeleteReports(t0: Table, t: Table, now: int, src: Addr, all: seq<(Addr, u32)>,
                                           work: seq<(Addr, u32)>, dr: Draft)
    requires (forall x :: x in work ==> x in all) && ReportedOnly(t0, src, all, dr)
    requires t.entries.Keys == t0.entries.Keys
    requires forall a :: a in t0.entries ==> t.entries[a] == t0.entries[a].(seqno := t.entries[a].seqno)
    ensures ReportedOnly(t0, src, all, RerrWalk(t, now, true, src, work, dr).1)
    decreases work
  {
    if work != [] {
      var d, s, rest := work[0].0, work[0].1, work[1..];
      assert work == [(d, s)] + rest && (d, s) in all;
      RerrWalkStep(t, now, true, src, d, s, rest, dr);
      NoDeleteStep(t, now, src, d, s, dr);
      var (t1, dr1) := RerrStep(t, now, true, src, d, s, dr);
      NoDeleteReports(t0, t1, now, src, all, rest, dr1);
    }
  }

  /** A RERR that forbids deletion takes no route down: the VALID routes through its sender get the largest of their
      own and the listed numbers, and nothing else changes. What goes on forbids deletion too, and lists only pairs
      received about such routes that someone uses. */
  lemma NoDeleteRaises(n: NodeState, now: int, m: Rerr, len: int, src: Addr)
    requires m.noDelete && len >= RerrSize(|m.dests|)
    ensures var (n', out) := RerrProcess(n, now, m, len, src);
            && n'.table.entries.Keys == n.table.entries.Keys
            && (forall a :: a in n.table.entries ==>
                  var e, e' := n.table.entries[a], n'.table.entries[a];
                  e' == e.(seqno := e'.seqno)
                  && if Via(n.table, src, a) then Largest(e'.seqno, e.seqno, a, m.dests) else e' == e)
            && |out| <= 1
            && (out != [] ==> out[0].msg.RerrMsg? && out[0].msg.rerr.noDelete
                              && ReportedOnly(n.table, src, m.dests, Draft(out[0].msg.rerr.dests, 0)))
  {
    forall a | a in n.table.entries
      ensures var e, e' := n.table.entries[a], RerrProcess(n, now, m, len, src).0.table.entries[a];
              e' == e.(seqno := e'.seqno)
              && if Via(n.table, src, a) then Largest(e'.seqno, e.seqno, a, m.dests) else e' == e
    {
      NoDeleteWalk(n.table, now, src, m.dests, NoRerr, a);
    }
    NoDeleteReports(n.table, n.table, now, src, m.dests, m.dests, NoRerr);
  }

  // ----- broken links ----------------------------------------------------------------------------------------

  /** The break of the link to d, which turned t into t', is reported to its users: by one RERR that goes one hop, to
      the sole user of everything it lists if there is one and to everybody otherwise, about exactly the neighbour
      and the routes through it that someone used, with the numbers after the break. Without users nothing is sent. */
  ghost predicate BreakSent(self: Addr, t: Table, t': Table, d: Addr, out: seq<Packet>)
    requires t'.entries.Keys == t.entries.Keys
  {
    if !HasUsers(t, d) then out == []
    else
      && |out| == 1 && out[0].src == self && out[0].ttl == 1 && out[0].msg.RerrMsg? && !out[0].msg.rerr.noDelete
      && var dests := out[0].msg.rerr.dests;
         && out[0].len == RerrSize(|dests|) && NoDuplicates(dests)
         && (forall x :: x in dests <==> (x.0 == d || GoesThrough(t, d, x.0)) && x.0 in t.entries
                                         && t.entries[x.0].precs != [] && x.1 == t'.entries[x.0].seqno)
         && (forall u: Addr :: u != 0 && AllServe(t, dests, u) ==> out[0].dst == u)
         && ((forall u: Addr :: u != 0 ==> !AllServe(t, dests, u)) ==> out[0].dst == BROADCAST)
  }

  lemma BreakIsSent(self: Addr, t: Table, now: int, d: Addr)
    requires WalkOk(t) && PrecursorsOk(t) && d in t.entries && t.entries[d].hops == 1
    ensures BreakSent(self, t, LinkBreakSpec(t, now, d).0, d, LinkBreakPackets(self, LinkBreakSpec(t, now, d).1))
  {
    BreakReportsIff(t, now, d);
    LinkBreakReports(t, now, d);
    var dr := LinkBreakSpec(t, now, d).1;
    if dr.Draft? {
      assert dr.unicast != 0 ==> AllServe(t, dr.dests, dr.unicast);
    }
  }

  /** The timer of a one-hop route breaks its link and sends that; that of any other route sends nothing. */
  lemma TimeoutOutcome(n: NodeState, now: int, d: Addr)
    requires WalkOk(n.table) && PrecursorsOk(n.table) && |n.table.buckets| == TABLE_SIZE && d in n.table.entries
    ensures var e, (n', out) := n.table.entries[d], RouteTimeout(n, now, d);
            && n' == n.(table := n'.table)
            && (e.handler.DeleteHandler? ==> out == [] && n'.table == DeleteSpec(n.table, d))
            && (e.handler.ExpireHandler? && e.hops != 1 ==> out == [])
            && (e.handler.ExpireHandler? && e.hops == 1 ==>
                  n'.table.entries.Keys == n.table.entries.Keys && BreakSent(n.self, n.table, n'.table, d, out))
  {
    if n.table.entries[d].hops == 1 {
      BreakIsSent(n.self, n.table, now, d);
    }
  }

  /** An update that breaks its own link sends that; any other sends nothing. */
  lemma UpdateOutcome(self: Addr, t: Table, now: int, op: Op)
    requires WalkOk(t) && PrecursorsOk(t) && |t.buckets| == TABLE_SIZE && Allowed(t, op) && op.Update?
    ensures var d := op.d;
            var t1 := AnnounceSpec(t, d, op.next, true);
            var dr := UpdateSpec(t, now, d, op.next, op.hops, op.seqno, op.lifetime, true, op.unidir).1;
            && t1.entries == t.entries
            && if op.hops > 1 && t.entries[d].hops == 1
               then BreakSent(self, t1, LinkBreakSpec(t1, now, d).0, d, LinkBreakPackets(self, dr))
               else LinkBreakPackets(self, dr) == []
  {
    var t1 := AnnounceSpec(t, op.d, op.next, true);
    assert t1.entries == t.entries && t1.buckets == t.buckets;
    UpdateReport(t, now, op);
    if op.hops > 1 && t.entries[op.d].hops == 1 {
      assert WalkOk(t1) && PrecursorsOk(t1);
      BreakIsSent(self, t1, now, op.d);
    }
  }

  lemma UpdateReport(t: Table, now: int, op: Op)
    requires Allowed(t, op) && op.Update?
    ensures UpdateSpec(t, now, op.d, op.next, op.hops, op.seqno, op.lifetime, true, op.unidir).1
            == if op.hops > 1 && t.entries[op.d].hops == 1
               then LinkBreakSpec(AnnounceSpec(t, op.d, op.next, true), now, op.d).1 else NoRerr
  {
  }

  /** A request whose route replaces a one-hop route by a longer one has the break of that link reported, and no other
      has anything reported. */
  lemma RequestTaken(self: Addr, t: Table, now: int, m: Rreq, src: Addr)
    requires WalkOk(t) && PrecursorsOk(t) && |t.buckets| == TABLE_SIZE
    ensures var d, t1 := m.orig, AnnounceIfKnown(t, m.orig, src);
            var out := LinkBreakPackets(self, ReverseTable(t, now, m, src).1);
            if d in t.entries && AcceptRreq(t.entries[d], m.origSeqno, m.hopcnt + 1)
               && m.hopcnt > 0 && t.entries[d].hops == 1
            then BreakSent(self, t1, LinkBreakSpec(t1, now, d).0, d, out) else out == []
  {
    if m.orig in t.entries {
      UpdateOutcome(self, t, now, Update(m.orig, src, m.hopcnt + 1, m.origSeqno, ReverseLifetime(m.hopcnt + 1),
                                         t.entries[m.orig].unidir));
    }
  }

  /** The same for a RREP. */
  lemma RrepTaken(self: Addr, t: Table, now: int, m: Rrep, src: Addr)
    requires WalkOk(t) && PrecursorsOk(t) && |t.buckets| == TABLE_SIZE
    ensures var d, t1 := m.dest, AnnounceIfKnown(t, m.dest, src);
            var out := LinkBreakPackets(self, ForwardTable(t, now, m, src).1);
            if d in t.entries && AcceptRrep(t.entries[d], m.destSeqno, m.hopcnt + 1)
               && m.hopcnt > 0 && t.entries[d].hops == 1
            then BreakSent(self, t1, LinkBreakSpec(t1, now, d).0, d, out) else out == []
  {
    if m.dest in t.entries {
      UpdateOutcome(self, t, now, Update(m.dest, src, m.hopcnt + 1, m.destSeqno, m.lifetime,
                                         t.entries[m.dest].unidir));
    }
  }

  function AnnounceIfKnown(t: Table, d: Addr, next: Addr): (t': Table) {
    if d in t.entries then AnnounceSpec(t, d, next, true) else t
  }

  // ----- data without a route ----------------------------------------------------------------------------------

  /** Data without a route is answered with one RERR about its destination alone, with the stored number or 0; it goes
      one hop, towards the source of the data if there is a VALID route there, and to everybody otherwise. A VALID
      route to the destination is held for DELETE_PERIOD, and nothing else changes. Data for everybody is ignored. */
  lemma DataOutcome(n: NodeState, now: int, src: Addr, dst: Addr)
    ensures var (n', out) := UnsolicitedRerr(n, now, src, dst);
            var t := n.table;
            && (dst == BROADCAST ==> n' == n && out == [])
            && (dst != BROADCAST ==>
                  && |out| == 1 && out[0].src == n.self && out[0].ttl == 1 && out[0].len == RerrSize(1)
                  && out[0].msg == RerrMsg(Rerr(false, [(dst, if dst in t.entries then t.entries[dst].seqno else 0)]))
                  && (src in t.entries && t.entries[src].valid && t.entries[src].next != 0 ==>
                        out[0].dst == t.entries[src].next)
                  && (src !in t.entries || !t.entries[src].valid ==> out[0].dst == BROADCAST)
                  && n' == n.(table := t.(entries := n'.table.entries)) && n'.table.entries.Keys == t.entries.Keys
                  && (forall a :: a in t.entries && (a != dst || !t.entries[a].valid) ==>
                        n'.table.entries[a] == t.entries[a])
                  && (dst in t.entries && t.entries[dst].valid ==>
                        n'.table.entries[dst].deadline > now + 1000 * DELETE_PERIOD - 1000
                        && n'.table.entries[dst].deadline >= t.entries[dst].deadline))
  {
    if dst != BROADCAST && dst in n.table.entries {
      ProlongedDeadline(n.table, now, dst, DELETE_PERIOD);
    }
  }
}
