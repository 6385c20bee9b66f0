/**
 What a node does about a RREP and about acknowledgements: what it stores, whom it acknowledges, where the RREP goes
 on, and how long a neighbour that stays silent is ignored.
 */
module RrepOutcomes {
  import opened Words
  import opened Params
  import opened RouteSpec
  import opened AodvSpec
  import opened Network
  import opened TableRuns
  import opened KernelMirror
  import opened RouteErrors
  import opened HandlerRuns
  import opened RreqOutcomes
  import opened DaemonRuns

  /** Over every run of a node that hears no packet from the address 0 its table stays as the results about requests
      need it. */
  lemma HealthyOverRuns(n: NodeState, evs: seq<Event>)
    requires IsEmpty(n.table) && NodeRuns(n, evs) && FromHosts(evs)
    ensures Healthy(NodeAfter(n, evs).table)
  {
    NodeLeads(n, evs, Claims(true, false));
    RunKeepsIndex(n.table, NodeOps(n, evs));
    PrecursorsOverRuns(n.table, NodeOps(n, evs), true);
  }

  /** The RREP brings a route that the node takes. */
  predicate Accepted(n: NodeState, m: Rrep, len: int) {
    len >= RREP_SIZE && m.dest != n.self
    && (m.dest !in n.table.entries || AcceptRrep(n.table.entries[m.dest], m.destSeqno, m.hopcnt + 1))
  }

  /** It does not if and only if it is too short, about this node, older than what is stored, or as new while the stored
      route is VALID, not in doubt and no longer. */
  lemma RefusedIff(n: NodeState, m: Rrep, len: int)
    ensures !Accepted(n, m, len)
            <==> len < RREP_SIZE || m.dest == n.self
                 || (m.dest in n.table.entries
                     && var e := n.table.entries[m.dest];
                        && e.seqno != 0 && AsSigned(e.seqno) >= AsSigned(m.destSeqno)
                        && (e.seqno == m.destSeqno ==> e.valid && !e.unidir && e.hops <= m.hopcnt + 1))
  {
  }

  /** The table with the route that the RREP brings. */
  function WithRoute(n: NodeState, now: int, m: Rrep, src: Addr): (t: Table)
    requires |n.table.buckets| == TABLE_SIZE
  {
    ForwardTable(n.table, now, m, src).0
  }

  /** The taken route is VALID, leads to the sender and is as long and as new as the RREP says. */
  lemma RouteFromRrep(n: NodeState, now: int, m: Rrep, src: Addr, len: int)
    requires |n.table.buckets| == TABLE_SIZE && Accepted(n, m, len)
    ensures var t := WithRoute(n, now, m, src);
            && m.dest in t.entries && t.entries.Keys == n.table.entries.Keys + {m.dest}
            && var e := t.entries[m.dest];
               e.valid && e.next == src && e.hops == m.hopcnt + 1 && e.seqno == m.destSeqno
  {
    if m.dest in n.table.entries {
      var e := n.table.entries[m.dest];
      var _ := UpdateShape(n.table, now, m.dest, src, m.hopcnt + 1, m.destSeqno, m.lifetime, e.unidir);
    }
  }

  /** A RREP that is not accepted does nothing. */
  lemma RefusedRrep(n: NodeState, now: int, m: Rrep, len: int, src: Addr, ttl: int)
    requires |n.table.buckets| == TABLE_SIZE && !Accepted(n, m, len)
    ensures RrepProcess(n, now, m, len, src, ttl) == (n, [])
  {
  }

  /** Where it goes on: to a VALID route to its originator, which is another node. */
  predicate GoesOn(n: NodeState, t: Table, m: Rrep) {
    m.orig != n.self && m.orig in n.table.entries && m.orig in t.entries && t.entries[m.orig].valid
  }

  /** The RREP as it goes on: one hop older, and asking for an acknowledgement exactly if the next hop is known and
      is not being asked already. */
  function OnwardRrep(n: NodeState, t: Table, m: Rrep, len: int, ttl: int): (p: Packet)
    requires m.orig in t.entries
  {
    var next := t.entries[m.orig].next;
    Packet(n.self, next, ttl - 1, len,
           RrepMsg(Rrep(m.hopcnt + 1, m.dest, m.destSeqno, m.orig, m.lifetime,
                        next in t.entries && !t.entries[next].ackUsed)))
  }

  /** An accepted RREP is acknowledged exactly if it asks for that, once, to the node it came from, whether or not it
      goes on; and it goes on exactly if there is a VALID route to its originator, once, along that route. */
  lemma RrepOutcome(n: NodeState, now: int, m: Rrep, len: int, src: Addr, ttl: int)
    requires |n.table.buckets| == TABLE_SIZE && Accepted(n, m, len)
    ensures var t, out := WithRoute(n, now, m, src), RrepProcess(n, now, m, len, src, ttl).1;
            && Rreqs(out) == [] && Rerrs(out) == LinkBreakPackets(n.self, ForwardTable(n.table, now, m, src).1)
            && Acknowledgements(out) == (if m.ack then [Packet(n.self, src, MAXTTL, NEXT_HOP_WAIT, RrepAckMsg)] else [])
            && Rreps(out) == (if GoesOn(n, t, m) then [OnwardRrep(n, t, m, len, ttl)] else [])
  {
    RouteFromRrep(n, now, m, src, len);
    var (t, dr, _) := ForwardTable(n.table, now, m, src);
    RestParts(n.(table := t), now, m, len, ttl, m.orig in n.table.entries, dr);
    ThreeParts(n.self, dr, AckPart(n, m, src), OnwardPart(n, t, m, len, ttl));
  }

  function AckPart(n: NodeState, m: Rrep, src: Addr): (out: seq<Packet>) {
    if m.ack then [Packet(n.self, src, MAXTTL, NEXT_HOP_WAIT, RrepAckMsg)] else []
  }

  function OnwardPart(n: NodeState, t: Table, m: Rrep, len: int, ttl: int): (out: seq<Packet>) {
    if GoesOn(n, t, m) then [OnwardRrep(n, t, m, len, ttl)] else []
  }

  lemma RestParts(n: NodeState, now: int, m: Rrep, len: int, ttl: int, hadRev: bool, dr: Draft)
    requires m.dest in n.table.entries && (hadRev ==> m.orig in n.table.entries)
    requires n.table.entries[m.dest].hops == m.hopcnt + 1
    ensures RrepRest(n, now, m, len, ttl, hadRev, dr).1
            == LinkBreakPackets(n.self, dr) + AckPart(n, m, n.table.entries[m.dest].next)
               + if hadRev then OnwardPart(n, n.table, m, len, ttl) else []
  {
    if hadRev && GoesOn(n, n.table, m) {
      ForwardsOne(n, now, m.(ack := false), len, ttl - 1);
    }
  }

  lemma ThreeParts(self: Addr, dr: Draft, acks: seq<Packet>, onward: seq<Packet>)
    requires acks == [] || (|acks| == 1 && acks[0].msg.RrepAckMsg?)
    requires onward == [] || (|onward| == 1 && onward[0].msg.RrepMsg?)
    ensures var out := LinkBreakPackets(self, dr) + acks + onward;
            && Rreqs(out) == [] && Acknowledgements(out) == acks && Rreps(out) == onward
            && Rerrs(out) == LinkBreakPackets(self, dr)
  {
    BreaksSendRerrs(self, dr);
    SplitAll(LinkBreakPackets(self, dr), acks);
    SplitAll(LinkBreakPackets(self, dr) + acks, onward);
    if acks != [] {
      OnlyPacket(acks[0]);
      assert acks == [acks[0]];
    }
    if onward != [] {
      OnlyPacket(onward[0]);
      assert onward == [onward[0]];
    }
  }

  lemma ForwardsOne(n: NodeState, now: int, m: Rrep, len: int, ttl: int)
    requires m.orig in n.table.entries && m.dest in n.table.entries && !m.ack
    requires n.table.entries[m.dest].hops == m.hopcnt + 1
    ensures RrepForward(n, now, m, len, m.orig, m.dest, ttl).1 == [OnwardRrep(n, n.table, m, len, ttl + 1)]
  {
  }

  function Users(e: Entry): (s: set<Addr>) { set a | a in e.precs }

  lemma AddedPrecursor(t: Table, d: Addr, a: Addr)
    requires d in t.entries
    ensures var t' := AddPrecursorSpec(t, d, a);
            && t'.entries == t.entries[d := t'.entries[d]] && Users(t'.entries[d]) == Users(t.entries[d]) + {a}
            && t'.entries[d] == t.entries[d].(precs := t'.entries[d].precs)
  {
  }

  /** The two ends' routes learn each other's next hop, and nothing else changes. */
  lemma PrecursorsLinked(t: Table, rev: Addr, fwd: Addr)
    requires rev in t.entries && fwd in t.entries
    ensures var t' := LinkPrecursors(t, rev, fwd);
            && t'.entries == t.entries[fwd := t'.entries[fwd]][rev := t'.entries[rev]]
            && Users(t'.entries[fwd]) == Users(t.entries[fwd]) + {t.entries[rev].next}
            && Users(t'.entries[rev]) == Users(t.entries[rev]) + {t.entries[fwd].next}
            && t'.entries[fwd] == t.entries[fwd].(precs := t'.entries[fwd].precs)
            && t'.entries[rev] == t.entries[rev].(precs := t'.entries[rev].precs)
  {
    AddedPrecursor(t, fwd, t.entries[rev].next);
    AddedPrecursor(AddPrecursorSpec(t, fwd, t.entries[rev].next), rev, t.entries[fwd].next);
  }

  /** The next hop of a RREP is marked unidirectional and waited for, unless it is being waited for already. */
  lemma AskedForAck(t: Table, next: Addr)
    ensures var (t', asked) := AskForAck(t, next);
            && (asked <==> next in t.entries && !t.entries[next].ackUsed)
            && (!asked ==> t' == t)
            && (asked ==> t'.entries == t.entries[next := t.entries[next].(unidir := true, ackUsed := true)])
  {
  }

  /** A held VALID route is good for its lifetime less a millisecond, and for no less than before. */
  lemma Held(t: Table, now: int, d: Addr, lifetime: u32)
    requires d in t.entries && t.entries[d].valid && lifetime < 0x8000_0000
    ensures var e, t' := t.entries[d], UpdateTimeoutSpec(t, now, d, lifetime);
            && t'.entries == t.entries[d := t'.entries[d]]
            && t'.entries[d] == e.(armed := t'.entries[d].armed, deadline := t'.entries[d].deadline)
            && t'.entries[d].deadline > now + 1000 * lifetime - 1000 && t'.entries[d].deadline >= e.deadline
            && (t'.entries[d].deadline == e.deadline || t'.entries[d].deadline == now + 1000 * lifetime)
  {
    DiffMsSign(t.entries[d].deadline - (now + 1000 * lifetime));
  }

  /** Forwarding a RREP does these three things to the table. */
  lemma ForwardingMarks(n: NodeState, now: int, m: Rrep, len: int, rev: Addr, fwd: Addr, ttl: int)
    requires rev in n.table.entries && fwd in n.table.entries && n.table.entries[rev].valid
    ensures var t, n' := n.table, RrepForward(n, now, m, len, rev, fwd, ttl).0;
            var next := t.entries[rev].next;
            && n' == n.(table := n'.table) && n'.table.entries.Keys == t.entries.Keys
            && (next in t.entries ==> n'.table.entries[next].ackUsed)
            && next in n'.table.entries[fwd].precs && t.entries[fwd].next in n'.table.entries[rev].precs
            && n'.table.entries[rev].deadline > now + 1000 * ACTIVE_ROUTE_TIMEOUT - 1000
  {
    var t1 := AskForAck(n.table, n.table.entries[rev].next).0;
    var t2 := LinkPrecursors(t1, rev, fwd);
    PrecursorsLinked(t1, rev, fwd);
    Held(t2, now, rev, ACTIVE_ROUTE_TIMEOUT);
    assert n.table.entries[rev].next in Users(t2.entries[fwd]) && t1.entries[fwd].next in Users(t2.entries[rev]);
  }

  /** A RREP that is sent along the route `rev` about the route `fwd`: the two learn each other's next hop. */
  lemma SendingLinks(n: NodeState, now: int, m: Rrep, rev: Addr, fwd: Addr)
    requires rev in n.table.entries && fwd in n.table.entries
    ensures var t := RrepSend(n, now, m, rev, fwd, true).0.table;
            n.table.entries[rev].next in t.entries[fwd].precs && n.table.entries[fwd].next in t.entries[rev].precs
  {
    var t := BreakUnidir(n.table, now, rev).0;
    NextsSurvive(n.table, now, rev, rev);
    NextsSurvive(n.table, now, rev, fwd);
    PrecursorsLinked(t, rev, fwd);
    assert t.entries[rev].next in Users(LinkPrecursors(t, rev, fwd).entries[fwd]);
    assert t.entries[fwd].next in Users(LinkPrecursors(t, rev, fwd).entries[rev]);
  }

  lemma NextsSurvive(t: Table, now: int, rev: Addr, a: Addr)
    requires rev in t.entries && a in t.entries
    ensures BreakUnidir(t, now, rev).0.entries[a].next == t.entries[a].next
  {
    var d := t.entries[rev].next;
    if Breaks(t, rev) {
      var t1 := Put(t, d, t.entries[d].(unidir := true));
      LinkBreakShape(t1, now, d);
      assert KeptOrBroken(t1.entries[a], now, LinkBreakSpec(t1, now, d).0.entries[a]);
    }
  }

  /** A link that is broken on the way of a RREP: the neighbour is marked and waited for, and its route and those
      through it are gone, if it is one hop away. Any other is only marked and waited for. */
  lemma BrokenOnTheWay(t: Table, now: int, rev: Addr)
    requires rev in t.entries && Breaks(t, rev) && WalkOk(t)
    ensures var d, t' := t.entries[rev].next, BreakUnidir(t, now, rev).0;
            && t'.entries.Keys == t.entries.Keys && t'.entries[d].unidir && t'.entries[d].ackUsed
            && (t.entries[d].hops == 1 ==>
                  !t'.entries[d].valid && t'.entries[d].precs == []
                  && forall a :: a in t'.entries && t'.entries[a].valid ==> t'.entries[a].next != d || a == d)
            && (t.entries[d].hops != 1 ==>
                  t'.entries == t.entries[d := t.entries[d].(unidir := true, ackUsed := true)])
  {
    var d := t.entries[rev].next;
    var t1 := Put(t, d, t.entries[d].(unidir := true));
    assert WalkOk(t1);
    if t1.entries[d].hops == 1 {
      LinkBreakExact(t1, now, d);
      assert LinkBreakSpec(t1, now, d).0.entries[d] == AfterLinkBreak(t1, now, d, d);
    }
  }

  // ----- acknowledgements ----------------------------------------------------------------------------------

  /** An acknowledgement ends the wait for its sender, and does nothing else. */
  lemma AckEndsWait(n: NodeState, src: Addr)
    ensures var n' := AckProcess(n, src);
            && n' == n.(table := n'.table) && n'.table == n.table.(entries := n'.table.entries)
            && n'.table.entries.Keys == n.table.entries.Keys
            && forall d, i :: d in n.table.entries ==>
                 && n'.table.entries[d] == n.table.entries[d].(ackUsed := n'.table.entries[d].ackUsed)
                 && (Ready(n', AckFires(i, d)) <==> Ready(n, AckFires(i, d)) && d != src)
  {
  }

  /** Nothing but its blacklist timer takes a neighbour off the blacklist. */
  lemma ReactBlacklist(n: NodeState, now: int, a: Action, d: Addr)
    requires |n.table.buckets| == TABLE_SIZE && Ready(n, a) && d in n.blacklist
    requires !(a.BlacklistFires? && a.dest == d)
    ensures d in React(n, now, a).0.blacklist
  {
  }

  /** The timers of the blacklist and of the records end what they stand for, and nothing else. */
  lemma TimersForget(n: NodeState, now: int, i: Addr, d: Addr, id: u32)
    requires |n.table.buckets| == TABLE_SIZE
    ensures var (n', out) := React(n, now, BlacklistFires(i, d));
            out == [] && n' == n.(blacklist := n'.blacklist)
            && forall a :: a in n'.blacklist <==> a in n.blacklist && a != d
    ensures var (n', out) := React(n, now, RecordFires(i, d, id));
            out == [] && n' == n.(records := n'.records)
            && forall r :: r in n'.records <==> r in n.records && r != (d, id)
  {
  }

  predicate NeverCleared(evs: seq<Event>, d: Addr) {
    forall ev :: ev in evs && ev.action.BlacklistFires? ==> ev.action.dest != d
  }

  lemma {:induction false} RunBlacklist(n: NodeState, evs: seq<Event>, d: Addr)
    requires NodeRuns(n, evs) && NeverCleared(evs, d) && d in n.blacklist
    ensures d in NodeAfter(n, evs).blacklist
    decreases evs
  {
    if evs != [] {
      ReactBlacklist(n, evs[0].now, evs[0].action, d);
      RunBlacklist(React(n, evs[0].now, evs[0].action).0, evs[1..], d);
    }
  }

  /** A neighbour that lets the acknowledgement timer run out is not asked any more, and over every run until its
      blacklist timer fires a request from it does nothing beyond being heard. */
  lemma SilentNeighborIgnored(n: NodeState, d: Addr, evs: seq<Event>, now: int, p: Packet)
    requires d in n.table.entries && NodeRuns(AckTimeout(n, d), evs) && NeverCleared(evs, d)
    requires p.src == d && p.msg.RreqMsg?
    ensures !Ready(AckTimeout(n, d), AckFires(n.self, d))
    ensures var n1 := NodeAfter(AckTimeout(n, d), evs);
            Receive(n1, now, p) == (HearNeighbor(n1, now, d), [])
  {
    RunBlacklist(AckTimeout(n, d), evs, d);
    var n1 := NodeAfter(AckTimeout(n, d), evs);
    assert HearNeighbor(n1, now, d).blacklist == n1.blacklist;
  }
}
