/**
 Received packets that show what the table operations of a node can come to: a route that the kernel loses, and
 an answer that a RERR replaces.
 */
module PacketRuns {
  import opened Words
  import opened Params
  import opened RouteSpec
  import opened AodvSpec
  import opened Network
  import opened TableRuns
  import opened KernelMirror
  import opened RouteErrors
  import opened HandlerRuns
  import opened DaemonRuns
  import L = Loops

  /** A node that has just started. */
  ghost predicate Fresh(n: NodeState) {
    IsEmpty(n.table) && n.records == {} && n.blacklist == {} && n.self > 9
  }

  function Hears(n: NodeState, p: Packet): (ev: Event) { Event(0, Deliver(p, n.self)) }

  lemma OneMore(n: NodeState, ev: Event, evs: seq<Event>)
    requires |n.table.buckets| == TABLE_SIZE && Ready(n, ev.action) && NodeRuns(React(n, ev.now, ev.action).0, evs)
    ensures NodeRuns(n, [ev] + evs)
    ensures NodeAfter(n, [ev] + evs) == NodeAfter(React(n, ev.now, ev.action).0, evs)
    ensures SlippingPackets(n, [ev] + evs)
            == (if ev.action.Deliver? && SlippingPacket(n, ev.now, ev.action.p) then 1 else 0)
               + SlippingPackets(React(n, ev.now, ev.action).0, evs)
  {
    assert ([ev] + evs)[1..] == evs;
  }

  // ----- a route that the kernel loses ---------------------------------------------------------------------

  /** Host 1 asks for host 9; 2 passes on a later request of 1 for it. */
  function Asks(): (p: Packet) { L.AskFrom(1, 1, Rreq(0, 0, 9, 0, 1, 5, false, false)) }

  function AsksOver2(): (p: Packet) { L.AskFrom(2, 1, Rreq(1, 1, 9, 0, 1, 6, false, false)) }

  lemma FirstAsk(n: NodeState) returns (n1: NodeState)
    requires Fresh(n)
    ensures n1 == Receive(n, 0, Asks()).0
    ensures n1 == n.(table := n1.table, records := {(1, 0)}) && |n1.table.buckets| == TABLE_SIZE
    ensures n1.table.entries.Keys == {1}
    ensures var e := n1.table.entries[1];
            e.valid && e.hops == 1 && e.next == 1 && e.seqno == 5 && !e.unidir && !e.ackUsed && e.precs == []
  {
    var m := Asks().msg.rreq;
    L.RreqTakesRoute(n, 0, 1, 1, m);
    L.FirstHears(n, 0, 1, m);
    n1 := Receive(n, 0, Asks()).0;
    assert n1.table.entries[1].precs == [];
    assert n.records + {(1, 0)} == {(1, 0)};
  }

  lemma SecondAsk(n1: NodeState)
    requires |n1.table.buckets| == TABLE_SIZE && n1.records == {(1, 0)} && n1.blacklist == {} && n1.self > 9
    requires n1.table.entries.Keys == {1} && n1.table.entries[1].seqno == 5
    requires n1.table.entries[1].valid && n1.table.entries[1].hops == 1 && n1.table.entries[1].next == 1
    ensures SlippingPacket(n1, 0, AsksOver2())
    ensures var t := Receive(n1, 0, AsksOver2()).0.table;
            |t.buckets| == TABLE_SIZE && 1 in t.entries && t.entries[1].valid && 1 !in t.kernel
  {
    var m := AsksOver2().msg.rreq;
    L.RreqTakesRoute(n1, 0, 2, 1, m);
    var t := HearNeighbor(n1, 0, 2).table;
    assert t.entries[1] == n1.table.entries[1];
    UpdateInKernelIff(t, 0, Update(1, 2, 2, 6, ReverseLifetime(2), t.entries[1].unidir));
  }

  /** Two requests suffice: host 1's route is VALID, the kernel does not have it, and one route too few is counted. */
  lemma PacketsLoseRoute(n: NodeState)
    requires Fresh(n)
    ensures var evs := [Hears(n, Asks())] + [Hears(n, AsksOver2())];
            && NodeRuns(n, evs)
            && var t := NodeAfter(n, evs).table;
               1 in t.entries && t.entries[1].valid && 1 !in t.kernel && t.numActive == |Valids(t)| - 1
  {
    var n1 := FirstAsk(n);
    SecondAsk(n1);
    var n2 := Receive(n1, 0, AsksOver2()).0;
    assert NodeRuns(n2, []);
    OneMore(n1, Hears(n, AsksOver2()), []);
    assert [Hears(n, AsksOver2())] + [] == [Hears(n, AsksOver2())];
    OneMore(n, Hears(n, Asks()), [Hears(n, AsksOver2())]);
    assert !SlippingPacket(n, 0, Asks());
    ActiveCount(n, [Hears(n, Asks())] + [Hears(n, AsksOver2())]);
  }

  // ----- an answer that a RERR replaces ----------------------------------------------------------------------

  /** The table from which a RREQ for this node is answered. */
  function AnsweredFrom(n: NodeState, now: int, p: Packet): (t: Table)
    requires |n.table.buckets| == TABLE_SIZE && p.msg.RreqMsg?
    ensures p.msg.rreq.orig in t.entries
  {
    ReverseTable(HearNeighbor(n, now, p.src).table, now, p.msg.rreq, p.src).0
  }

  lemma AnsweredFromRuns(n: NodeState, evs: seq<Event>, now: int, p: Packet)
    requires IsEmpty(n.table) && NodeRuns(n, evs) && FromHosts(evs) && p.src != 0 && p.msg.RreqMsg?
    ensures WalkOk(AnsweredFrom(NodeAfter(n, evs), now, p)) && PrecursorsOk(AnsweredFrom(NodeAfter(n, evs), now, p))
  {
    NodeLeads(n, evs, Claims(true, false));
    var ops := AnsweredFromLeads(NodeAfter(n, evs), now, p);
    RunAppend(n.table, NodeOps(n, evs), ops);
    RunKeepsIndex(n.table, NodeOps(n, evs) + ops);
    IndexedWalk(Run(n.table, NodeOps(n, evs) + ops));
    PrecursorsOverRuns(n.table, NodeOps(n, evs) + ops, true);
  }

  lemma AnsweredFromLeads(n: NodeState, now: int, p: Packet) returns (ops: seq<Timed>)
    requires Start(n.table, Claims(true, false)) && p.src != 0 && p.msg.RreqMsg?
    ensures Leads(n.table, ops, AnsweredFrom(n, now, p), Claims(true, false))
  {
    var c, n1, first := Claims(true, false), HearNeighbor(n, now, p.src), HearNeighborOps(n.table, now, p.src);
    var more := ReverseTableOps(n1.table, now, p.msg.rreq, p.src);
    HearNeighborLeads(n, now, p.src, c);
    ReverseTableLeads(n1.table, now, p.msg.rreq, p.src, c);
    Chain(n.table, first, n1.table, more, AnsweredFrom(n, now, p), c);
    ops := first + more;
  }

  /** After any run of a node that heard no packet from the address 0: a RREQ for it that passes the filters is
      answered with a RREP if and only if the link that this would take is not broken and reported first; otherwise
      a RERR goes out with the size of a RREP. */
  lemma AnswerGoesOutIff(n: NodeState, evs: seq<Event>, now: int, p: Packet)
    requires IsEmpty(n.table) && NodeRuns(n, evs) && FromHosts(evs) && p.src != 0 && p.msg.RreqMsg?
    requires var n1 := NodeAfter(n, evs);
             p.msg.rreq.dest == n1.self && PassesFilters(HearNeighbor(n1, now, p.src), p.msg.rreq, p.len, p.src)
    ensures (exists q :: q in Receive(NodeAfter(n, evs), now, p).1 && q.msg.RrepMsg?)
            <==> !Overwritten(AnsweredFrom(NodeAfter(n, evs), now, p), p.msg.rreq.orig)
    ensures Overwritten(AnsweredFrom(NodeAfter(n, evs), now, p), p.msg.rreq.orig) ==>
              exists q :: q in Receive(NodeAfter(n, evs), now, p).1 && q.msg.RerrMsg? && q.len == RREP_SIZE
  {
    AnsweredFromRuns(n, evs, now, p);
    Answer(NodeAfter(n, evs), now, p);
  }

  lemma Answer(n: NodeState, now: int, p: Packet)
    requires |n.table.buckets| == TABLE_SIZE && p.msg.RreqMsg? && p.msg.rreq.dest == n.self
    requires PassesFilters(HearNeighbor(n, now, p.src), p.msg.rreq, p.len, p.src)
    requires WalkOk(AnsweredFrom(n, now, p)) && PrecursorsOk(AnsweredFrom(n, now, p))
    ensures (exists q :: q in Receive(n, now, p).1 && q.msg.RrepMsg?)
            <==> !Overwritten(AnsweredFrom(n, now, p), p.msg.rreq.orig)
    ensures Overwritten(AnsweredFrom(n, now, p), p.msg.rreq.orig) ==>
              exists q :: q in Receive(n, now, p).1 && q.msg.RerrMsg? && q.len == RREP_SIZE
  {
    var m := p.msg.rreq;
    var (n3, dr) := ReverseRoute(HearNeighbor(n, now, p.src), now, m, p.src);
    var n4 := n3.(hostSeq := AnswerSeqno(n3.hostSeq, m.destSeqno));
    var rrep := Rrep(0, n4.self, n4.hostSeq, m.orig, MY_ROUTE_TIMEOUT, false);
    RrepSurvivesIff(n4, now, rrep, m.orig, 0, false);
    var out := RrepSend(n4, now, rrep, m.orig, 0, false).1;
    assert Receive(n, now, p).1 == LinkBreakPackets(n.self, dr) + out;
    OnlyRerrs(n.self, dr, out);
    assert out[|out| - 1] in Receive(n, now, p).1;
  }

  lemma OnlyRerrs(self: Addr, dr: Draft, out: seq<Packet>)
    ensures (exists q :: q in LinkBreakPackets(self, dr) + out && q.msg.RrepMsg?)
            <==> (exists q :: q in out && q.msg.RrepMsg?)
  {
    if q :| q in LinkBreakPackets(self, dr) + out && q.msg.RrepMsg? {
      assert q in out;
    }
    if q :| q in out && q.msg.RrepMsg? {
      assert q in LinkBreakPackets(self, dr) + out;
    }
  }

  /** Host 3 answers host 1 over this node, host 1 acknowledges the answer and asks for this node. */
  function Answers(self: Addr): (p: Packet) {
    Packet(3, self, MAXTTL, RREP_SIZE, RrepMsg(Rrep(0, 3, 7, 1, MY_ROUTE_TIMEOUT, false)))
  }

  function Acknowledges(self: Addr): (p: Packet) { Packet(1, self, MAXTTL, NEXT_HOP_WAIT, RrepAckMsg) }

  function AsksForUs(self: Addr): (p: Packet) { L.AskFrom(1, 1, Rreq(0, 1, self, 0, 1, 6, false, false)) }

  /** The entry for host 1 after these. */
  predicate Doubted(n: NodeState, ackUsed: bool) {
    && |n.table.buckets| == TABLE_SIZE && n.records == {(1, 0)} && n.blacklist == {} && n.self > 9
    && 1 in n.table.entries
    && var e := n.table.entries[1];
       e.valid && e.hops == 1 && e.next == 1 && e.seqno == 5 && e.unidir && e.ackUsed == ackUsed && e.precs == [3]
  }

  lemma HearsAnswer(n1: NodeState)
    requires |n1.table.buckets| == TABLE_SIZE && n1.records == {(1, 0)} && n1.blacklist == {} && n1.self > 9
    requires n1.table.entries.Keys == {1}
    requires var e := n1.table.entries[1];
             && e.valid && e.hops == 1 && e.next == 1 && e.seqno == 5 && !e.ackUsed && e.precs == []
    ensures Doubted(Receive(n1, 0, Answers(n1.self)).0, true)
  {
    var m := Answers(n1.self).msg.rrep;
    var n2 := HearNeighbor(n1, 0, 3);
    assert n2.table.entries[1] == n1.table.entries[1] && n2.table.entries[3].seqno == 0;
    var (t, _, _) := ForwardTable(n2.table, 0, m, 3);
    L.UpdateTakes(n2.table, 0, 3, 3, 1, 7, MY_ROUTE_TIMEOUT, false);
    assert t.entries[1] == n1.table.entries[1] && t.entries[3].next == 3;
    Forwards(n2.(table := t), m);
    assert RrepProcess(n2, 0, m, RREP_SIZE, 3, MAXTTL).0
        == RrepForward(n2.(table := t), 0, m, RREP_SIZE, 1, 3, MAXTTL - 1).0;
  }

  lemma Forwards(n: NodeState, m: Rrep)
    requires |n.table.buckets| == TABLE_SIZE && n.records == {(1, 0)} && n.blacklist == {} && n.self > 9
    requires n.table.entries.Keys == {1, 3} && n.table.entries[3].next == 3
    requires var e := n.table.entries[1];
             && e.valid && e.hops == 1 && e.next == 1 && e.seqno == 5 && !e.ackUsed && e.precs == []
    ensures Doubted(RrepForward(n, 0, m, RREP_SIZE, 1, 3, MAXTTL - 1).0, true)
  {
  }

  lemma HearsAck(n: NodeState)
    requires Doubted(n, true)
    ensures Doubted(Receive(n, 0, Acknowledges(n.self)).0, false)
  {
  }

  lemma HearsRequest(n: NodeState)
    requires Doubted(n, false)
    ensures PassesFilters(HearNeighbor(n, 0, 1), AsksForUs(n.self).msg.rreq, RREQ_SIZE, 1)
    ensures Overwritten(AnsweredFrom(n, 0, AsksForUs(n.self)), 1)
  {
    var t := n.table;
    assert HearNeighbor(n, 0, 1) == n;
    var t' := AnsweredFrom(n, 0, AsksForUs(n.self));
    assert t' == UpdateSpec(t, 0, 1, 1, 1, 6, ReverseLifetime(1), true, true).0;
    assert t'.entries[1].precs == [3];
    assert HasUsers(t', 1);
  }

  function BeforeTheRequest(n: NodeState): (evs: seq<Event>) {
    [Hears(n, Asks())] + ([Hears(n, Answers(n.self))] + [Hears(n, Acknowledges(n.self))])
  }

  lemma DoubtedAfter(n: NodeState)
    requires Fresh(n)
    ensures NodeRuns(n, BeforeTheRequest(n)) && Doubted(NodeAfter(n, BeforeTheRequest(n)), false)
    ensures NodeAfter(n, BeforeTheRequest(n)).self == n.self
  {
    var n1 := FirstAsk(n);
    HearsAnswer(n1);
    var n2 := Receive(n1, 0, Answers(n.self)).0;
    HearsAck(n2);
    var n3 := Receive(n2, 0, Acknowledges(n.self)).0;
    assert NodeRuns(n3, []);
    OneMore(n2, Hears(n, Acknowledges(n.self)), []);
    assert [Hears(n, Acknowledges(n.self))] + [] == [Hears(n, Acknowledges(n.self))];
    OneMore(n1, Hears(n, Answers(n.self)), [Hears(n, Acknowledges(n.self))]);
    OneMore(n, Hears(n, Asks()), [Hears(n, Answers(n.self))] + [Hears(n, Acknowledges(n.self))]);
  }

  /** After three packets a request for this node passes the filters; no RREP answers it, but a RERR of that size. */
  lemma PacketsLoseRrep(n: NodeState)
    requires Fresh(n)
    ensures NodeRuns(n, BeforeTheRequest(n))
    ensures var n3, p := NodeAfter(n, BeforeTheRequest(n)), AsksForUs(n.self);
            && PassesFilters(HearNeighbor(n3, 0, 1), p.msg.rreq, p.len, p.src)
            && (forall q :: q in Receive(n3, 0, p).1 ==> !q.msg.RrepMsg?)
            && exists q :: q in Receive(n3, 0, p).1 && q.msg.RerrMsg? && q.len == RREP_SIZE
  {
    DoubtedAfter(n);
    NoAnswer(n, BeforeTheRequest(n));
  }

  lemma NoAnswer(n: NodeState, evs: seq<Event>)
    requires IsEmpty(n.table) && NodeRuns(n, evs) && FromHosts(evs) && Doubted(NodeAfter(n, evs), false)
    ensures var n3, p := NodeAfter(n, evs), AsksForUs(NodeAfter(n, evs).self);
            && PassesFilters(HearNeighbor(n3, 0, 1), p.msg.rreq, p.len, p.src)
            && (forall q :: q in Receive(n3, 0, p).1 ==> !q.msg.RrepMsg?)
            && exists q :: q in Receive(n3, 0, p).1 && q.msg.RerrMsg? && q.len == RREP_SIZE
  {
    var n3, p := NodeAfter(n, evs), AsksForUs(NodeAfter(n, evs).self);
    HearsRequest(n3);
    AnsweredFromRuns(n, evs, 0, p);
    Answer(n3, 0, p);
  }
}
