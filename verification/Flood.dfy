/**
 How far and how often a route request is flooded.
 */
module Flood {
  import opened Words
  import opened Params
  import opened RouteSpec
  import opened AodvSpec
  import opened Network
  import opened LifeCycle
  import opened Lifetimes

  predicate SameRequest(p: Packet, q: Packet) {
    p.msg.RreqMsg? && q.msg.RreqMsg? && p.msg.rreq.orig == q.msg.rreq.orig && p.msg.rreq.id == q.msg.rreq.id
  }

  /** q is p sent one hop further. */
  predicate Forwards(p: Packet, q: Packet) {
    SameRequest(p, q) && p.ttl > 1 && q.ttl == p.ttl - 1 && q.msg.rreq.hopcnt == p.msg.rreq.hopcnt + 1
  }

  /** q is a request the node itself makes, under its next id. */
  predicate Asks(n: NodeState, q: Packet) {
    q.msg.RreqMsg? && q.msg.rreq.orig == n.self && q.msg.rreq.hopcnt == 0 && q.msg.rreq.id == n.rreqId
  }

  /** The request q that a node sends on an event: one hop further, or its own. */
  predicate Sends(n: NodeState, a: Action, q: Packet) {
    q.src == n.self && q.msg.RreqMsg?
    && if a.Deliver? then Forwards(a.p, q) && q.msg.rreq.orig != n.self else Asks(n, q)
  }

  function KeyOf(p: Packet): (key: (Addr, u32))
    requires p.msg.RreqMsg?
  {
    (p.msg.rreq.orig, p.msg.rreq.id)
  }

  /** A forwarded request was new to the node and is recorded; a request of its own uses up an id. */
  predicate Marks(n: NodeState, a: Action, n': NodeState, q: Packet)
    requires q.msg.RreqMsg?
  {
    if a.Deliver? then KeyOf(q) !in n.records && KeyOf(q) in n'.records else n'.rreqId == Wrap(n.rreqId + 1)
  }

  /** A handler's effect, as far as floods are concerned. */
  ghost predicate Floods(n: NodeState, a: Action, n': NodeState, out: seq<Packet>) {
    && n'.self == n.self && n.records - (if a.RecordFires? then {(a.orig, a.id)} else {}) <= n'.records
    && (n'.rreqId == n.rreqId || n'.rreqId == Wrap(n.rreqId + 1))
    && (forall q :: q in out && q.msg.RreqMsg? ==> Sends(n, a, q) && Marks(n, a, n', q))
    && (forall q, r :: q in out && r in out && q.msg.RreqMsg? && r.msg.RreqMsg? ==> q == r)
  }

  /** No request among the packets, and nothing a flood depends on has changed. */
  ghost predicate Quiet(n: NodeState, n': NodeState, out: seq<Packet>) {
    n'.self == n.self && n'.records == n.records && n'.rreqId == n.rreqId
    && forall q :: q in out ==> !q.msg.RreqMsg?
  }

  lemma RrepSendQuiet(n: NodeState, now: int, m: Rrep, rev: Addr, fwd: Addr, hasFwd: bool)
    requires rev in n.table.entries && (hasFwd ==> fwd in n.table.entries)
    ensures var (n', out) := RrepSend(n, now, m, rev, fwd, hasFwd);
            Quiet(n, n', out)
  {
  }

  lemma FromTableQuiet(n: NodeState, now: int, m: Rreq)
    requires m.orig in n.table.entries && m.dest in n.table.entries
    ensures var (n', out) := FromTable(n, now, m);
            Quiet(n, n', out)
  {
    var f := n.table.entries[m.dest];
    var life := Wrap(DiffMs(f.deadline - now));
    var rrep := Rrep(f.hops, m.dest, f.seqno, m.orig, life, false);
    RrepSendQuiet(n, now, rrep, m.orig, m.dest, true);
    if m.gratuitous {
      var n1 := RrepSend(n, now, rrep, m.orig, m.dest, true).0;
      var b := n1.table.entries[m.orig];
      RrepSendQuiet(n1, now, Rrep(b.hops, m.orig, b.seqno, m.dest, life, false), m.dest, m.orig, true);
    }
  }

  /** The answer part of rreq_process sends the request on, or no request at all. */
  lemma AnswerFloods(n: NodeState, now: int, m: Rreq, len: int, ttl: int)
    requires m.orig in n.table.entries
    ensures var (n', out) := AnswerOrForward(n, now, m, len, ttl);
            && n'.self == n.self && n'.records == n.records && n'.rreqId == n.rreqId
            && ((forall q :: q in out ==> !q.msg.RreqMsg?)
                || (ttl > 1 && |out| == 1 && out[0].msg.RreqMsg? && out[0].src == n.self && out[0].ttl == ttl - 1
                    && out[0].msg.rreq == m.(hopcnt := m.hopcnt + 1, destSeqno := out[0].msg.rreq.destSeqno)))
  {
    if m.dest == n.self {
      var n1 := n.(hostSeq := AnswerSeqno(n.hostSeq, m.destSeqno));
      RrepSendQuiet(n1, now, Rrep(0, n.self, n1.hostSeq, m.orig, MY_ROUTE_TIMEOUT, false), m.orig, 0, false);
    } else if m.dest in n.table.entries {
      FromTableQuiet(n, now, m);
    }
  }

  lemma RreqFloods(n: NodeState, now: int, p: Packet, to: Addr)
    requires |n.table.buckets| == TABLE_SIZE && p.msg.RreqMsg?
    ensures var (n', out) := RreqProcess(n, now, p.msg.rreq, p.len, p.src, p.ttl);
            Floods(n, Deliver(p, to), n', out)
  {
    var m := p.msg.rreq;
    if !(m.orig == n.self || p.len < RREQ_SIZE || p.src in n.blacklist || (m.orig, m.id) in n.records) {
      var (n1, dr) := ReverseRoute(n, now, m, p.src);
      AnswerFloods(n1, now, m, p.len, p.ttl);
      var (n2, out) := AnswerOrForward(n1, now, m, p.len, p.ttl);
      assert Floods(n, Deliver(p, to), n2, out);
      RerrsFloodNothing(n, Deliver(p, to), n2, out, dr);
    }
  }

  lemma RerrsFloodNothing(n: NodeState, a: Action, n': NodeState, out: seq<Packet>, dr: Draft)
    requires Floods(n, a, n', out)
    ensures Floods(n, a, n', LinkBreakPackets(n.self, dr) + out)
  {
    assert forall q :: q in LinkBreakPackets(n.self, dr) + out && q.msg.RreqMsg? ==> q in out;
  }

  lemma ReceiveFloods(n: NodeState, now: int, p: Packet, to: Addr)
    requires |n.table.buckets| == TABLE_SIZE
    ensures var (n', out) := Receive(n, now, p);
            Floods(n, Deliver(p, to), n', out)
  {
    var n1 := HearNeighbor(n, now, p.src);
    assert n1.self == n.self && n1.records == n.records && n1.rreqId == n.rreqId;
    match p.msg
    case RreqMsg(_) => RreqFloods(n1, now, p, to);
    case RrepMsg(m) => RrepQuiet(n1, now, m, p.len, p.src, p.ttl);
    case RerrMsg(_) =>
    case RrepAckMsg =>
  }

  lemma RrepQuiet(n: NodeState, now: int, m: Rrep, len: int, src: Addr, ttl: int)
    requires |n.table.buckets| == TABLE_SIZE
    ensures var (n', out) := RrepProcess(n, now, m, len, src, ttl);
            Quiet(n, n', out)
  {
  }

  lemma ReactFloods(n: NodeState, now: int, a: Action)
    requires |n.table.buckets| == TABLE_SIZE && Ready(n, a)
    ensures var (n', out) := React(n, now, a);
            Floods(n, a, n', out)
  {
    if a.Deliver? {
      ReceiveFloods(n, now, a.p, a.to);
    }
  }

  // ----- hop count and ttl -----------------------------------------------------------------------------

  /** q is the originator's own transmission of the request p carries, and p is as many hops old as its
      ttl has shrunk. */
  predicate Origin(q: Packet, p: Packet) {
    SameRequest(q, p) && q.src == q.msg.rreq.orig && q.msg.rreq.hopcnt == 0 && q.ttl == p.ttl + p.msg.rreq.hopcnt
  }

  ghost predicate Rooted(soup: set<Packet>, p: Packet) {
    exists q :: q in soup && Origin(q, p)
  }

  ghost predicate Traced(net: Net) {
    && (forall i :: i in net.nodes ==> net.nodes[i].self == i)
    && forall p :: p in net.soup && p.msg.RreqMsg? ==> Rooted(net.soup, p)
  }

  lemma RootedInMore(soup: set<Packet>, more: set<Packet>, p: Packet)
    requires Rooted(soup, p) && soup <= more
    ensures Rooted(more, p)
  {
    var q :| q in soup && Origin(q, p);
    assert q in more;
  }

  /** A copy sent one hop further has the same root. */
  lemma ForwardedIsRooted(soup: set<Packet>, p: Packet, q: Packet)
    requires Rooted(soup, p) && Forwards(p, q)
    ensures Rooted(soup, q)
  {
    var o :| o in soup && Origin(o, p);
    assert Origin(o, q);
  }

  lemma StepKeepsTraced(net: Net, ev: Event)
    requires Traced(net) && Enabled(net, ev.action)
    ensures Traced(NetStep(net, ev))
  {
    var n, net' := net.nodes[Site(ev.action)], NetStep(net, ev);
    ReactFloods(n, ev.now, ev.action);
    forall p | p in net'.soup && p.msg.RreqMsg?
      ensures Rooted(net'.soup, p)
    {
      if p in net.soup {
        RootedInMore(net.soup, net'.soup, p);
      } else if ev.action.Deliver? {
        ForwardedIsRooted(net.soup, ev.action.p, p);
        RootedInMore(net.soup, net'.soup, p);
      } else {
        assert Sends(n, ev.action, p) && Origin(p, p);
      }
    }
  }

  lemma {:induction false} RunKeepsTraced(net: Net, evs: seq<Event>)
    requires Traced(net) && Happens(net, evs)
    ensures Traced(Outcome(net, evs))
    decreases evs
  {
    if evs != [] {
      StepKeepsTraced(net, evs[0]);
      RunKeepsTraced(NetStep(net, evs[0]), evs[1..]);
    }
  }

  /** For every copy of a request ever sent, hop count plus ttl is the originator's initial ttl. */
  lemma HopcountPlusTtl(net: Net, evs: seq<Event>, p: Packet) returns (q: Packet)
    requires Silent(net) && Happens(net, evs) && p in Outcome(net, evs).soup && p.msg.RreqMsg?
    ensures q in Outcome(net, evs).soup && SameRequest(p, q) && q.src == p.msg.rreq.orig
    ensures p.msg.rreq.hopcnt + p.ttl == q.ttl
  {
    RunKeepsTraced(net, evs);
    assert Rooted(Outcome(net, evs).soup, p);
    q :| q in Outcome(net, evs).soup && Origin(q, p);
  }

  // ----- one transmission a node -------------------------------------------------------------------------

  /** The event neither makes a node forget the request nor wraps its originator's ids. */
  predicate Spares(net: Net, ev: Event, key: (Addr, u32))
    requires Enabled(net, ev.action)
  {
    !(ev.action.RecordFires? && (ev.action.orig, ev.action.id) == key)
    && (Site(ev.action) == key.0 ==> net.nodes[key.0].rreqId < 0xffff_ffff)
  }

  ghost predicate RunSpares(net: Net, evs: seq<Event>, key: (Addr, u32))
    requires Happens(net, evs)
    decreases evs
  {
    evs == [] || (Spares(net, evs[0], key) && RunSpares(NetStep(net, evs[0]), evs[1..], key))
  }

  predicate Carries(p: Packet, key: (Addr, u32)) {
    p.msg.RreqMsg? && KeyOf(p) == key
  }

  /** Whoever sent the request remembers it: its originator by the next id, any other node by a record. */
  predicate Remembered(net: Net, p: Packet)
    requires p.msg.RreqMsg?
  {
    p.src in net.nodes
    && if p.src == p.msg.rreq.orig then p.msg.rreq.id < net.nodes[p.src].rreqId
       else KeyOf(p) in net.nodes[p.src].records
  }

  ghost predicate FloodInv(net: Net, key: (Addr, u32)) {
    && (forall i :: i in net.nodes ==> net.nodes[i].self == i)
    && (forall p :: p in net.soup && Carries(p, key) ==> Remembered(net, p))
    && (forall p, q ::
          p in net.soup && q in net.soup && Carries(p, key) && Carries(q, key) && p.src == q.src ==> p == q)
  }

  /** No node sends a request a second time while it remembers it. */
  lemma NotAgain(net: Net, ev: Event, key: (Addr, u32), p: Packet, q: Packet)
    requires FloodInv(net, key) && Enabled(net, ev.action) && Spares(net, ev, key)
    requires p in net.soup && Carries(p, key)
    requires q in React(net.nodes[Site(ev.action)], ev.now, ev.action).1 && Carries(q, key)
    ensures p.src != q.src
  {
    ReactFloods(net.nodes[Site(ev.action)], ev.now, ev.action);
    assert Remembered(net, p);
  }

  lemma StepRemembers(net: Net, ev: Event, key: (Addr, u32), p: Packet)
    requires FloodInv(net, key) && Enabled(net, ev.action) && Spares(net, ev, key)
    requires p in NetStep(net, ev).soup && Carries(p, key)
    ensures Remembered(NetStep(net, ev), p)
  {
    var i := Site(ev.action);
    var (n', out) := React(net.nodes[i], ev.now, ev.action);
    ReactFloods(net.nodes[i], ev.now, ev.action);
    if p in net.soup {
      assert Remembered(net, p);
      StillRemembered(net, ev.action, key, n', out, p);
    } else {
      assert p in out && Sends(net.nodes[i], ev.action, p) && Marks(net.nodes[i], ev.action, n', p);
    }
  }

  lemma StillRemembered(net: Net, a: Action, key: (Addr, u32), n': NodeState, out: seq<Packet>, p: Packet)
    requires FloodInv(net, key) && Site(a) in net.nodes && Floods(net.nodes[Site(a)], a, n', out)
    requires Carries(p, key) && Remembered(net, p)
    requires !(a.RecordFires? && (a.orig, a.id) == key) && (Site(a) == key.0 ==> net.nodes[key.0].rreqId < 0xffff_ffff)
    ensures Remembered(Commit(net, Site(a), n', out), p)
  {
  }

  lemma StepKeepsFloodInv(net: Net, ev: Event, key: (Addr, u32))
    requires FloodInv(net, key) && Enabled(net, ev.action) && Spares(net, ev, key)
    ensures FloodInv(NetStep(net, ev), key) && NetStep(net, ev).nodes.Keys == net.nodes.Keys
  {
    var net' := NetStep(net, ev);
    ReactFloods(net.nodes[Site(ev.action)], ev.now, ev.action);
    forall p | p in net'.soup && Carries(p, key)
      ensures Remembered(net', p)
    {
      StepRemembers(net, ev, key, p);
    }
    forall p, q | p in net'.soup && q in net'.soup && Carries(p, key) && Carries(q, key) && p.src == q.src
      ensures p == q
    {
      if p in net.soup && q !in net.soup {
        NotAgain(net, ev, key, p, q);
      } else if q in net.soup && p !in net.soup {
        NotAgain(net, ev, key, q, p);
      }
    }
  }

  lemma {:induction false} RunKeepsFloodInv(net: Net, evs: seq<Event>, key: (Addr, u32))
    requires FloodInv(net, key) && Happens(net, evs) && RunSpares(net, evs, key)
    ensures FloodInv(Outcome(net, evs), key) && Outcome(net, evs).nodes.Keys == net.nodes.Keys
    decreases evs
  {
    if evs != [] {
      StepKeepsFloodInv(net, evs[0], key);
      RunKeepsFloodInv(NetStep(net, evs[0]), evs[1..], key);
    }
  }

  /** In any run in which the records of this one request live, whatever else expires, no node sends a second
      copy of it. */
  lemma SentOnce(net: Net, evs: seq<Event>, ev: Event, p: Packet, q: Packet)
    requires Silent(net) && Happens(net, evs) && p in Outcome(net, evs).soup && p.msg.RreqMsg?
    requires RunSpares(net, evs, KeyOf(p)) && Enabled(Outcome(net, evs), ev.action)
            && Spares(Outcome(net, evs), ev, KeyOf(p))
    requires q in React(Outcome(net, evs).nodes[Site(ev.action)], ev.now, ev.action).1
    ensures !(SameRequest(p, q) && p.src == q.src)
  {
    RunKeepsFloodInv(net, evs, KeyOf(p));
    if Carries(q, KeyOf(p)) {
      NotAgain(Outcome(net, evs), ev, KeyOf(p), p, q);
    }
  }

  /** The transmissions of one request. */
  function Transmissions(soup: set<Packet>, key: (Addr, u32)): (s: set<Packet>) {
    set p | p in soup && Carries(p, key)
  }

  /** While its records live a request is transmitted at most once by each node, so its flood ends. */
  lemma FloodEnds(net: Net, evs: seq<Event>, key: (Addr, u32))
    requires Silent(net) && Happens(net, evs) && RunSpares(net, evs, key)
    ensures |Transmissions(Outcome(net, evs).soup, key)| <= |net.nodes|
  {
    RunKeepsFloodInv(net, evs, key);
    OneTransmissionEach(Outcome(net, evs), key);
    assert |net.nodes| == |net.nodes.Keys|;
  }

  lemma OneTransmissionEach(net: Net, key: (Addr, u32))
    requires FloodInv(net, key)
    ensures |Transmissions(net.soup, key)| <= |net.nodes.Keys|
  {
    var s := Transmissions(net.soup, key);
    forall p | p in s
      ensures p.src in net.nodes.Keys
    {
      assert Remembered(net, p);
    }
    OnePerSource(s, net.nodes.Keys);
  }

  lemma {:induction false} OnePerSource(s: set<Packet>, nodes: set<Addr>)
    requires forall p :: p in s ==> p.src in nodes
    requires forall p, q :: p in s && q in s && p.src == q.src ==> p == q
    ensures |s| <= |nodes|
    decreases s
  {
    if s != {} {
      var p :| p in s;
      OnePerSource(s - {p}, nodes - {p.src});
    }
  }

  // ----- the lifetime ------------------------------------------------------------------------------------

  /** With an initial ttl of at most 69 no receiver of the flood computes a lifetime out of range. */
  lemma InitialTtlBoundsLifetime(net: Net, evs: seq<Event>, p: Packet) returns (q: Packet)
    requires Silent(net) && Happens(net, evs) && p in Outcome(net, evs).soup && p.msg.RreqMsg? && p.ttl >= 1
    ensures q in Outcome(net, evs).soup && Origin(q, p)
    ensures q.ttl <= 69 ==> Starts(ReverseLifetime(p.msg.rreq.hopcnt + 1))
  {
    RunKeepsTraced(net, evs);
    assert Rooted(Outcome(net, evs).soup, p);
    q :| q in Outcome(net, evs).soup && Origin(q, p);
    if q.ttl <= 69 {
      ReverseLifetimeInRangeIff(p.msg.rreq.hopcnt + 1);
    }
  }
}
