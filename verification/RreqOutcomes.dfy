/**
 What a node does about a route request: which ones it ignores, and whether it answers, passes the request on or
 lets it end, with what the packets say.
 */
module RreqOutcomes {
  import opened Words
  import opened Params
  import opened RouteSpec
  import opened AodvSpec
  import opened TableRuns
  import opened KernelMirror
  import opened RouteErrors
  import opened Lifetimes
  import opened HandlerRuns

  datatype Kind = Request | Answer | Error | Ack

  predicate Is(m: Msg, k: Kind) {
    match k case Request => m.RreqMsg? case Answer => m.RrepMsg? case Error => m.RerrMsg? case Ack => m.RrepAckMsg?
  }

  function Only(out: seq<Packet>, k: Kind): (r: seq<Packet>) {
    if out == [] then [] else if Is(out[0].msg, k) then [out[0]] + Only(out[1..], k) else Only(out[1..], k)
  }

  /** The requests, the answers, the errors and the acknowledgements among the packets sent. */
  function Rreqs(out: seq<Packet>): (r: seq<Packet>) { Only(out, Request) }

  function Rreps(out: seq<Packet>): (r: seq<Packet>) { Only(out, Answer) }

  function Rerrs(out: seq<Packet>): (r: seq<Packet>) { Only(out, Error) }

  function Acknowledgements(out: seq<Packet>): (r: seq<Packet>) { Only(out, Ack) }

  lemma {:induction false} SplitOut(a: seq<Packet>, b: seq<Packet>, k: Kind)
    ensures Only(a + b, k) == Only(a, k) + Only(b, k)
  {
    if a == [] {
      assert a + b == b;
    } else {
      assert (a + b)[1..] == a[1..] + b;
      SplitOut(a[1..], b, k);
    }
  }

  lemma SplitAll(a: seq<Packet>, b: seq<Packet>)
    ensures Rreqs(a + b) == Rreqs(a) + Rreqs(b) && Rreps(a + b) == Rreps(a) + Rreps(b)
    ensures Rerrs(a + b) == Rerrs(a) + Rerrs(b)
    ensures Acknowledgements(a + b) == Acknowledgements(a) + Acknowledgements(b)
  {
    SplitOut(a, b, Request);
    SplitOut(a, b, Answer);
    SplitOut(a, b, Error);
    SplitOut(a, b, Ack);
  }

  lemma OnlyPacket(p: Packet)
    ensures Rreqs([p]) == if p.msg.RreqMsg? then [p] else []
    ensures Rreps([p]) == if p.msg.RrepMsg? then [p] else []
    ensures Rerrs([p]) == if p.msg.RerrMsg? then [p] else []
    ensures Acknowledgements([p]) == if p.msg.RrepAckMsg? then [p] else []
  {
    OneOf(p, Request);
    OneOf(p, Answer);
    OneOf(p, Error);
    OneOf(p, Ack);
  }

  lemma {:induction false} NoneOf(out: seq<Packet>, k: Kind)
    requires forall p :: p in out ==> !Is(p.msg, k)
    ensures Only(out, k) == []
  {
    if out != [] {
      NoneOf(out[1..], k);
    }
  }

  lemma AnswersOnly(out: seq<Packet>)
    requires forall p :: p in out ==> p.msg.RrepMsg? || p.msg.RerrMsg?
    ensures Rreqs(out) == [] && Acknowledgements(out) == []
  {
    NoneOf(out, Request);
    NoneOf(out, Ack);
  }

  lemma OneOf(p: Packet, k: Kind)
    ensures Only([p], k) == if Is(p.msg, k) then [p] else []
  {
    assert [p][1..] == [] && Only([p][1..], k) == [];
  }

  lemma BreaksSendRerrs(self: Addr, dr: Draft)
    ensures var out := LinkBreakPackets(self, dr);
            Rreqs(out) == [] && Rreps(out) == [] && Acknowledgements(out) == [] && Rerrs(out) == out
  {
    if dr.Draft? {
      OnlyPacket(RerrPacket(self, false, dr.dests, dr.unicast));
    }
  }

  // ----- which requests are ignored ------------------------------------------------------------------------

  /** A request that is the node's own, too short, from a blacklisted neighbour or already recorded does nothing;
      any other is recorded. */
  lemma IgnoredIff(n: NodeState, now: int, m: Rreq, len: int, src: Addr, ttl: int)
    requires |n.table.buckets| == TABLE_SIZE
    ensures var (n', out) := RreqProcess(n, now, m, len, src, ttl);
            if m.orig == n.self || len < RREQ_SIZE || src in n.blacklist || (m.orig, m.id) in n.records
            then n' == n && out == []
            else n'.records == n.records + {(m.orig, m.id)} && n'.blacklist == n.blacklist && n'.rreqId == n.rreqId
  {
  }

  // ----- passing on --------------------------------------------------------------------------------------

  /** p is the request m as the node passes it on: one hop older, one hop less to go, and for the number it asks
      for the signed larger of the one in m and the one stored, if any. */
  predicate PassedOn(n: NodeState, m: Rreq, len: int, ttl: int, p: Packet) {
    && p.src == n.self && p.dst == BROADCAST && p.ttl == ttl - 1 && p.len == len && p.msg.RreqMsg?
    && var q := p.msg.rreq;
       && q.hopcnt == m.hopcnt + 1 && q.id == m.id && q.dest == m.dest && q.orig == m.orig
       && q.origSeqno == m.origSeqno && q.destOnly == m.destOnly && q.gratuitous == m.gratuitous
       && AsSigned(q.destSeqno) >= AsSigned(m.destSeqno)
       && (m.dest in n.table.entries ==> AsSigned(q.destSeqno) >= AsSigned(n.table.entries[m.dest].seqno))
       && (q.destSeqno == m.destSeqno
           || (m.dest in n.table.entries && q.destSeqno == n.table.entries[m.dest].seqno))
  }

  /** A request that is neither for this node nor answered from the table goes on exactly once if its ttl is more
      than 1 and ends here otherwise; nothing else is sent and nothing changes. */
  lemma PassesOnIff(n: NodeState, now: int, m: Rreq, len: int, ttl: int)
    requires m.orig in n.table.entries && m.dest != n.self && !Knows(n, m)
    ensures var (n', out) := AnswerOrForward(n, now, m, len, ttl);
            && n' == n && |out| == (if ttl > 1 then 1 else 0)
            && (ttl > 1 ==> PassedOn(n, m, len, ttl, out[0]))
  {
  }

  // ----- the tables of nodes that hear hosts only ----------------------------------------------------------

  /** An exact index, next hops that are addresses, and precursors that are distinct addresses. */
  ghost predicate Healthy(t: Table) {
    Indexed(t) && NextsOk(t) && PrecursorsFit(t, true)
  }

  lemma HealthyWalks(t: Table)
    requires Healthy(t)
    ensures WalkOk(t) && PrecursorsOk(t)
  {
    IndexedWalk(t);
  }

  lemma LeadsHealthy(t: Table, ops: seq<Timed>, t': Table)
    requires Healthy(t) && Leads(t, ops, t', Claims(true, false))
    ensures Healthy(t')
  {
    RunKeepsIndex(t, ops);
    PrecursorsOverRuns(t, ops, true);
  }

  // ----- answering ---------------------------------------------------------------------------------------

  /** The RERR dr with the size of a RREP, on the way of one. */
  function InPlace(n: NodeState, dr: Draft, rev: Addr): (p: Packet)
    requires rev in n.table.entries && dr.Draft?
  {
    Packet(n.self, n.table.entries[rev].next, MAXTTL, RREP_SIZE, RerrMsg(Rerr(false, dr.dests)))
  }

  /** What rrep_send sends besides RERRs is this RREP, to the next hop of the route back. The RERRs are that of the link
      it breaks, if any, and the same once more in place of the RREP. */
  lemma RrepGoesBack(n: NodeState, now: int, m: Rrep, rev: Addr, fwd: Addr, hasFwd: bool)
    requires rev in n.table.entries && (hasFwd ==> fwd in n.table.entries)
    requires WalkOk(n.table) && PrecursorsOk(n.table)
    ensures var (n', out) := RrepSend(n, now, m, rev, fwd, hasFwd);
            && Rreqs(out) == [] && Acknowledgements(out) == []
            && Rreps(out) == (if Overwritten(n.table, rev) then []
                              else [Packet(n.self, n.table.entries[rev].next, MAXTTL, RREP_SIZE, RrepMsg(m))])
            && Rerrs(out) == LinkBreakPackets(n.self, BreakUnidir(n.table, now, rev).1)
                             + (if Overwritten(n.table, rev) then [InPlace(n, BreakUnidir(n.table, now, rev).1, rev)]
                                else [])
            && n' == n.(table := n'.table)
  {
    BreakUnidirReportsIff(n.table, now, rev);
    NextSurvives(n.table, now, rev);
    var (t, dr) := BreakUnidir(n.table, now, rev);
    var out := RrepSend(n, now, m, rev, fwd, hasFwd).1;
    var last := out[|out| - 1];
    assert out == LinkBreakPackets(n.self, dr) + [last];
    SplitAll(LinkBreakPackets(n.self, dr), [last]);
    BreaksSendRerrs(n.self, dr);
    OnlyPacket(last);
  }

  lemma NextSurvives(t: Table, now: int, rev: Addr)
    requires rev in t.entries
    ensures BreakUnidir(t, now, rev).0.entries[rev].next == t.entries[rev].next
  {
    var d := t.entries[rev].next;
    if Breaks(t, rev) {
      var t1 := Put(t, d, t.entries[d].(unidir := true));
      LinkBreakShape(t1, now, d);
      assert KeptOrBroken(t1.entries[rev], now, LinkBreakSpec(t1, now, d).0.entries[rev]);
    }
  }

  /** rreq_process, lines 161 to 167: a known wanted number is never ahead of the own one afterwards. */
  lemma AnswerNumber(own: u32, wanted: u32)
    ensures var s := AnswerSeqno(own, wanted);
            && (wanted == 0 ==> s == own)
            && (wanted != 0 && wanted == own ==> s == SeqnoIncr(own) && s != own && (s > own || own == 0xffff_ffff))
            && (wanted != 0 && wanted != own ==>
                  (s == own || s == wanted) && AsSigned(s) >= AsSigned(own) && AsSigned(s) >= AsSigned(wanted))
  {
  }

  /** What the destination of a request says in its answer. */
  predicate OwnAnswer(n: NodeState, m: Rreq, number: u32, p: Packet)
    requires m.orig in n.table.entries
  {
    && p.src == n.self && p.dst == n.table.entries[m.orig].next && p.ttl == MAXTTL && p.len == RREP_SIZE
    && p.msg.RrepMsg? && p.msg.rrep.hopcnt == 0 && p.msg.rrep.dest == n.self && p.msg.rrep.orig == m.orig
    && p.msg.rrep.destSeqno == number && p.msg.rrep.lifetime == MY_ROUTE_TIMEOUT && !p.msg.rrep.ack
  }

  lemma AnswersAsDestination(n: NodeState, now: int, m: Rreq, len: int, ttl: int)
    requires m.orig in n.table.entries && m.dest == n.self && Healthy(n.table)
    ensures var (n', out) := AnswerOrForward(n, now, m, len, ttl);
            && n'.hostSeq == AnswerSeqno(n.hostSeq, m.destSeqno) && Rreqs(out) == [] && Acknowledgements(out) == []
            && |Rreps(out)| == (if Overwritten(n.table, m.orig) then 0 else 1)
            && (Rreps(out) != [] ==> OwnAnswer(n, m, n'.hostSeq, Rreps(out)[0]))
  {
    var n1 := n.(hostSeq := AnswerSeqno(n.hostSeq, m.destSeqno));
    HealthyWalks(n.table);
    RrepGoesBack(n1, now, Rrep(0, n1.self, n1.hostSeq, m.orig, MY_ROUTE_TIMEOUT, false), m.orig, 0, false);
  }

  /** A RREP about the stored route to `about`, for `to`, along the stored route there. */
  function Tells(n: NodeState, about: Addr, to: Addr, life: u32): (p: Packet)
    requires about in n.table.entries && to in n.table.entries
  {
    var e := n.table.entries[about];
    Packet(n.self, n.table.entries[to].next, MAXTTL, RREP_SIZE, RrepMsg(Rrep(e.hops, about, e.seqno, to, life, false)))
  }

  /** Node n sends, besides RERRs, only what it tells about `about` to `to`, if that is not lost. */
  ghost predicate Told(n: NodeState, about: Addr, to: Addr, life: u32, out: seq<Packet>)
    requires about in n.table.entries && to in n.table.entries
  {
    Rreqs(out) == [] && Acknowledgements(out) == []
    && Rreps(out) == if Overwritten(n.table, to) then [] else [Tells(n, about, to, life)]
  }

  /** The first part of an answer from the table: what it says about the destination, for the originator. */
  lemma TellsOriginator(n: NodeState, now: int, m: Rreq, life: u32)
    requires m.orig in n.table.entries && m.dest in n.table.entries && WalkOk(n.table) && PrecursorsOk(n.table)
    ensures Told(n, m.dest, m.orig, life, TellOriginator(n, now, m, life).1)
  {
    var f := n.table.entries[m.dest];
    RrepGoesBack(n, now, Rrep(f.hops, m.dest, f.seqno, m.orig, life, false), m.orig, m.dest, true);
  }

  /** The second part, if it is asked for: what the table says then about the originator, for the destination. */
  lemma TellsDestination(n: NodeState, now: int, m: Rreq, life: u32)
    requires m.orig in n.table.entries && m.dest in n.table.entries && WalkOk(n.table) && PrecursorsOk(n.table)
    ensures Told(n, m.orig, m.dest, life, TellDestination(n, now, m, life).1)
  {
    var b := n.table.entries[m.orig];
    RrepGoesBack(n, now, Rrep(b.hops, m.orig, b.seqno, m.dest, life, false), m.dest, m.orig, true);
  }

  /** An answer from the table consists of these two parts and says how long the route has left. */
  lemma AnswerParts(n: NodeState, now: int, m: Rreq)
    requires m.orig in n.table.entries && m.dest in n.table.entries
    ensures var life := AnswerLifetime(n.table.entries[m.dest].deadline, now);
            var (n1, first) := TellOriginator(n, now, m, life);
            && FromTable(n, now, m).0.hostSeq == n.hostSeq
            && FromTable(n, now, m).1 == first + if m.gratuitous then TellDestination(n1, now, m, life).1 else []
    ensures forall p :: p in FromTable(n, now, m).1 ==> p.msg.RrepMsg? || p.msg.RerrMsg?
  {
    var life := AnswerLifetime(n.table.entries[m.dest].deadline, now);
    FromTableIs(n, now, m, life);
  }

  // ----- the whole handler -------------------------------------------------------------------------------

  /** A request that is not ignored: its destination answers it, a node with a fresh enough route answers from its
      table, and any other node passes it on while its ttl lasts. */
  lemma RequestOutcome(n: NodeState, now: int, m: Rreq, len: int, src: Addr, ttl: int)
    requires Healthy(n.table) && src != 0 && PassesFilters(n, m, len, src)
    ensures var n1, (n', out) := ReverseRoute(n, now, m, src).0, RreqProcess(n, now, m, len, src, ttl);
            var own, known := m.dest == n.self, Knows(n1, m);
            && Rerrs(out) == LinkBreakPackets(n.self, ReverseRoute(n, now, m, src).1)
                             + Rerrs(AnswerOrForward(n1, now, m, len, ttl).1)
            && (!own && !known ==> Rerrs(AnswerOrForward(n1, now, m, len, ttl).1) == [])
            && |Rreqs(out)| == (if !own && !known && ttl > 1 then 1 else 0)
            && (Rreqs(out) != [] ==> PassedOn(n1, m, len, ttl, Rreqs(out)[0]))
            && (own ==> n'.hostSeq == AnswerSeqno(n.hostSeq, m.destSeqno)
                        && |Rreps(out)| == (if Overwritten(n1.table, m.orig) then 0 else 1)
                        && (Rreps(out) != [] ==> OwnAnswer(n1, m, n'.hostSeq, Rreps(out)[0])))
            && (!own ==> n'.hostSeq == n.hostSeq)
            && (!own && known ==>
                  out == LinkBreakPackets(n.self, ReverseRoute(n, now, m, src).1) + FromTable(n1, now, m).1)
            && (!own && !known ==> Rreps(out) == [])
  {
    var (n1, dr) := ReverseRoute(n, now, m, src);
    ReverseTableLeads(n.table, now, m, src, Claims(true, false));
    LeadsHealthy(n.table, ReverseTableOps(n.table, now, m, src), n1.table);
    var more := AnswerOrForward(n1, now, m, len, ttl).1;
    BreaksSendRerrs(n.self, dr);
    SplitAll(LinkBreakPackets(n.self, dr), more);
    if m.dest == n.self {
      AnswersAsDestination(n1, now, m, len, ttl);
    } else if Knows(n1, m) {
      AnswerParts(n1, now, m);
      AnswersOnly(more);
    } else {
      PassesOnIff(n1, now, m, len, ttl);
      if ttl > 1 {
        OnlyPacket(more[0]);
        assert more == [more[0]];
      }
    }
  }
}
