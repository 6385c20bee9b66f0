/**
 The kernel half: messages from the daemon and packets leaving the host, acting on the expiry list and on
 the queue of waiting packets.
 */
module KernelPeer {
  import opened Words
  import E = ExpiryList
  import Q = PacketQueue

  const HZ := 100

  /** A netlink message; Short is one with fewer bytes than its type calls for. */
  datatype Msg =
    | AddRoute(dest: u32, nhop: u32, time: nat, encap: bool, repair: bool, ifindex: int)
    | DelRoute(dest: u32)
    | NoRouteFound(dest: u32)
    | Config(timeout: int)
    | Short
    | Unknown

  datatype Kernel = Kernel(expl: E.Expl, queue: Q.Queue, timeout: int)

  function EntryOf(m: Msg, jiffies: int): (e: E.Entry)
    requires m.AddRoute?
  {
    E.Entry(m.dest, E.Route(m.nhop, m.encap, m.repair, m.ifindex), jiffies + m.time * HZ / 1000)
  }

  /** The route that packets for d are sent along. */
  function OutcomeFor(s: E.Expl, d: u32): (o: Q.Outcome) {
    var t := E.Table(s.list);
    if d in t then Q.Sent(t[d].route) else Q.Dropped
  }

  /** kaodv_netlink_receive_peer. */
  function Received(k: Kernel, m: Msg, jiffies: int): (k': Kernel) {
    match m
    case AddRoute(d, _, _, _, _, _) =>
      var e := EntryOf(m, jiffies);
      var s := if E.Has(k.expl, d) then E.Update(k.expl, e).0 else E.Add(k.expl, e).0;
      k.(expl := s, queue := Q.Judged(k.queue, d, OutcomeFor(s, d)))
    case DelRoute(d) => k.(expl := E.Del(k.expl, d).0, queue := Q.Judged(k.queue, d, Q.Dropped))
    case NoRouteFound(d) => k.(queue := Q.Judged(k.queue, d, Q.Dropped))
    case Config(t) => k.(timeout := t)
    case _ => k
  }

  /** A packet has a route it can take now. */
  predicate Reachable(s: E.Expl, d: u32) {
    var t := E.Table(s.list);
    d in t && !t[d].route.repair
  }

  /** kaodv_hook at NF_INET_LOCAL_OUT, for a packet that is neither the daemon's nor a broadcast. */
  function LocalOut(k: Kernel, p: Q.Held): (k': Kernel) {
    if Reachable(k.expl, p.daddr) then k else k.(queue := Q.Enqueued(k.queue, p))
  }

  datatype Event = FromDaemon(m: Msg, jiffies: int) | Out(p: Q.Held)

  function Next(k: Kernel, ev: Event): (k': Kernel) {
    match ev
    case FromDaemon(m, jiffies) => Received(k, m, jiffies)
    case Out(p) => LocalOut(k, p)
  }

  function Run(k: Kernel, evs: seq<Event>): (k': Kernel)
    decreases evs
  {
    if evs == [] then k else Run(Next(k, evs[0]), evs[1..])
  }

  /** No packet waits for a destination that can be reached. */
  ghost predicate NoneWaits(k: Kernel) {
    forall d: u32 :: Q.For(k.queue.held, d) != [] ==> !Reachable(k.expl, d)
  }

  ghost predicate Inv(k: Kernel) { E.Ok(k.expl) && Q.Fifo(k.queue) && NoneWaits(k) }

  lemma JudgeEmpties(q: Q.Queue, d: u32, o: Q.Outcome)
    requires Q.Fifo(q)
    ensures var q' := Q.Judged(q, d, o);
            && Q.Fifo(q')
            && forall e: u32 :: Q.For(q'.held, e) == if e == d then [] else Q.For(q.held, e)
  {
    Q.JudgedKeeps(q, d, o);
    forall e: u32
      ensures Q.For(Q.NotFor(q.held, d), e) == if e == d then [] else Q.For(q.held, e)
    {
      Q.ForOthers(q.held, d, e);
    }
  }

  /** A route message touches the routes of its own destination only. */
  lemma OthersKeepRoutes(s: E.Expl, op: E.Op, d: u32, e: u32)
    requires E.Ok(s) && e != d && d == (if op.DelOp? then op.d else op.e.daddr)
    ensures E.Ok(E.Do(s, op)) && (Reachable(E.Do(s, op), e) <==> Reachable(s, e))
  {
    E.DoKeeps(s, op);
    E.FindIsLookup(s.list, d);
    match op
    case AddOp(x) => if !E.Has(s, d) { E.AddIff(s, x); }
    case UpdateOp(x) => if E.Has(s, d) { E.UpdateIff(s, x); }
    case DelOp(_) => E.DelRemoves(s, d);
  }

  function OpOf(k: Kernel, m: Msg, jiffies: int): (op: E.Op)
    requires m.AddRoute? || m.DelRoute?
  {
    if m.DelRoute? then E.DelOp(m.dest)
    else if E.Has(k.expl, m.dest) then E.UpdateOp(EntryOf(m, jiffies)) else E.AddOp(EntryOf(m, jiffies))
  }

  lemma ReceivedKeepsInv(k: Kernel, m: Msg, jiffies: int)
    requires Inv(k)
    ensures Inv(Received(k, m, jiffies))
  {
    if m.AddRoute? || m.DelRoute? {
      var op := OpOf(k, m, jiffies);
      var s := E.Do(k.expl, op);
      E.DoKeeps(k.expl, op);
      JudgeEmpties(k.queue, m.dest, if m.AddRoute? then OutcomeFor(s, m.dest) else Q.Dropped);
      forall e: u32 | e != m.dest
        ensures Reachable(s, e) <==> Reachable(k.expl, e)
      {
        OthersKeepRoutes(k.expl, op, m.dest, e);
      }
    } else if m.NoRouteFound? {
      JudgeEmpties(k.queue, m.dest, Q.Dropped);
    }
  }

  lemma LocalOutKeepsInv(k: Kernel, p: Q.Held)
    requires Inv(k)
    ensures Inv(LocalOut(k, p))
  {
    Q.EnqueuedKeeps(k.queue, p);
    forall d: u32
      ensures d != p.daddr ==> Q.For(k.queue.held + [p], d) == Q.For(k.queue.held, d)
    {
      Q.ForConcat(k.queue.held, [p], d);
    }
  }

  /** In every run no packet is left waiting for a destination that has become reachable, packets of one
      destination leave in the order in which they came, and the routes stay sorted and unique. */
  lemma {:induction false} NoneWaitsOverRuns(k: Kernel, evs: seq<Event>)
    requires Inv(k)
    ensures Inv(Run(k, evs))
    decreases evs
  {
    if evs != [] {
      match evs[0] {
        case FromDaemon(m, jiffies) => ReceivedKeepsInv(k, m, jiffies);
        case Out(p) => LocalOutKeepsInv(k, p);
      }
      NoneWaitsOverRuns(Next(k, evs[0]), evs[1..]);
    }
  }

  /** The kernel's copy of the routes: destination to next hop. */
  function NextHops(list: seq<E.Entry>): (m: map<u32, u32>) {
    map d | d in E.Table(list) :: E.Table(list)[d].route.nhop
  }

  /** The daemon's two route messages do to the kernel's copy what the daemon believes they do, exactly as
      long as the list is not over its limit (a deletion always does). */
  lemma PeerMirrorsIff(k: Kernel, m: Msg, jiffies: int)
    requires Inv(k) && (m.AddRoute? || m.DelRoute?)
    ensures var before, after := NextHops(k.expl.list), NextHops(Received(k, m, jiffies).expl.list);
            if m.DelRoute? then after == before - {m.dest}
            else after == before[m.dest := m.nhop] <==> k.expl.len <= E.MAX_LEN
  {
    var t := E.Table(k.expl.list);
    E.FindIsLookup(k.expl.list, m.dest);
    if m.DelRoute? {
      E.DelRemoves(k.expl, m.dest);
    } else {
      var e := EntryOf(m, jiffies);
      var after := NextHops(Received(k, m, jiffies).expl.list);
      if m.dest in t {
        E.UpdateIff(k.expl, e);
        assert k.expl.len > E.MAX_LEN ==> m.dest !in after;
      } else {
        E.AddIff(k.expl, e);
        assert k.expl.len > E.MAX_LEN ==> m.dest !in after;
      }
    }
  }

  /** An added route releases every packet that waited for it: along that route below the limit, and into
      the void above it. */
  lemma AddRouteReleases(k: Kernel, m: Msg, jiffies: int)
    requires Inv(k) && m.AddRoute?
    ensures var k', o := Received(k, m, jiffies),
                         if k.expl.len <= E.MAX_LEN then Q.Sent(E.Route(m.nhop, m.encap, m.repair, m.ifindex))
                             else Q.Dropped;
            && Q.For(k'.queue.held, m.dest) == []
            && k'.queue.released == k.queue.released + Q.All(Q.For(k.queue.held, m.dest), o)
  {
    E.FindIsLookup(k.expl.list, m.dest);
    if m.dest in E.Table(k.expl.list) {
      E.UpdateIff(k.expl, EntryOf(m, jiffies));
    } else {
      E.AddIff(k.expl, EntryOf(m, jiffies));
    }
    JudgeEmpties(k.queue, m.dest, OutcomeFor(Received(k, m, jiffies).expl, m.dest));
  }

  /** A message that no route was found, or that one is gone, drops exactly the packets that wait for it, oldest
      first, and leaves those for other destinations alone. */
  lemma NoRouteDrops(k: Kernel, m: Msg, jiffies: int)
    requires Inv(k) && (m.NoRouteFound? || m.DelRoute?)
    ensures var k' := Received(k, m, jiffies);
            && Q.For(k'.queue.held, m.dest) == [] && k'.queue.accepted == k.queue.accepted
            && k'.queue.released == k.queue.released + Q.All(Q.For(k.queue.held, m.dest), Q.Dropped)
            && k'.timeout == k.timeout && (m.NoRouteFound? ==> k'.expl == k.expl)
            && forall e: u32 :: e != m.dest ==> Q.For(k'.queue.held, e) == Q.For(k.queue.held, e)
  {
    JudgeEmpties(k.queue, m.dest, Q.Dropped);
  }

  /** An added route also leaves the packets for other destinations alone; and messages about no route leave the
      routes and all packets alone. */
  lemma OthersWait(k: Kernel, m: Msg, jiffies: int)
    requires Inv(k)
    ensures var k' := Received(k, m, jiffies);
            && (m.AddRoute? ==> forall e: u32 :: e != m.dest ==> Q.For(k'.queue.held, e) == Q.For(k.queue.held, e))
            && (m.Config? || m.Short? || m.Unknown? ==> k'.expl == k.expl && k'.queue == k.queue)
  {
    if m.AddRoute? {
      JudgeEmpties(k.queue, m.dest, OutcomeFor(Received(k, m, jiffies).expl, m.dest));
    }
  }

  /** Below the limit an added route is stored as the message says, until the message's time is over. */
  lemma AddRouteStores(k: Kernel, m: Msg, jiffies: int)
    requires Inv(k) && m.AddRoute? && k.expl.len <= E.MAX_LEN
    ensures E.Table(Received(k, m, jiffies).expl.list)
            == E.Table(k.expl.list)[m.dest := E.Entry(m.dest, E.Route(m.nhop, m.encap, m.repair, m.ifindex),
                                                      jiffies + m.time * HZ / 1000)]
  {
    E.FindIsLookup(k.expl.list, m.dest);
    if m.dest in E.Table(k.expl.list) {
      E.UpdateIff(k.expl, EntryOf(m, jiffies));
    } else {
      E.AddIff(k.expl, EntryOf(m, jiffies));
    }
  }

  /** Below the limit a packet for the destination of an added route passes if and only if the route is not under
      repair; once the route is gone it waits; and no other destination is affected by either. */
  lemma UsableIff(k: Kernel, m: Msg, jiffies: int, e: u32)
    requires Inv(k) && (m.AddRoute? || m.DelRoute?) && (m.AddRoute? ==> k.expl.len <= E.MAX_LEN)
    ensures Reachable(Received(k, m, jiffies).expl, e)
            <==> if e == m.dest then m.AddRoute? && !m.repair else Reachable(k.expl, e)
  {
    if m.AddRoute? {
      AddRouteStores(k, m, jiffies);
    } else {
      E.DelRemoves(k.expl, m.dest);
    }
  }

  /** A packet with a route it can take is not touched. Any other becomes the last that waits for its destination and
      the last accepted of all if fewer than 1024 wait, and is lost otherwise. */
  lemma OutputKeeps(k: Kernel, p: Q.Held)
    requires Inv(k)
    ensures var k', d := LocalOut(k, p), p.daddr;
            && k'.expl == k.expl && k'.timeout == k.timeout && k'.queue.released == k.queue.released
            && (if !Reachable(k.expl, d) && |k.queue.held| < Q.MAX_QUEUE
                then Q.For(k'.queue.held, d) == Q.For(k.queue.held, d) + [p]
                     && k'.queue.accepted == k.queue.accepted + [p]
                else k'.queue == k.queue)
            && forall e: u32 :: e != d ==> Q.For(k'.queue.held, e) == Q.For(k.queue.held, e)
  {
    forall e: u32
      ensures Q.For(k.queue.held + [p], e) == Q.For(k.queue.held, e) + if e == p.daddr then [p] else []
    {
      Q.ForConcat(k.queue.held, [p], e);
    }
  }

  /** No message about d. */
  predicate Undecided(evs: seq<Event>, d: u32) {
    forall ev :: ev in evs && ev.FromDaemon? ==>
      match ev.m
      case AddRoute(e, _, _, _, _, _) => e != d
      case DelRoute(e) => e != d
      case NoRouteFound(e) => e != d
      case _ => true
  }

  lemma NextKeepsWaiting(k: Kernel, ev: Event, d: u32, p: Q.Held)
    requires Inv(k) && Undecided([ev], d) && p in Q.For(k.queue.held, d)
    ensures Inv(Next(k, ev)) && p in Q.For(Next(k, ev).queue.held, d)
  {
    assert ev in [ev];
    match ev
    case FromDaemon(m, jiffies) =>
      ReceivedKeepsInv(k, m, jiffies);
      if m.NoRouteFound? || m.DelRoute? {
        NoRouteDrops(k, m, jiffies);
      } else {
        OthersWait(k, m, jiffies);
      }
    case Out(q) =>
      LocalOutKeepsInv(k, q);
      OutputKeeps(k, q);
  }

  lemma {:induction false} WaitingOverRuns(k: Kernel, evs: seq<Event>, d: u32, p: Q.Held)
    requires Inv(k) && Undecided(evs, d) && p in Q.For(k.queue.held, d)
    ensures Inv(Run(k, evs)) && p in Q.For(Run(k, evs).queue.held, d)
    decreases evs
  {
    if evs != [] {
      assert evs[0] in evs;
      NextKeepsWaiting(k, evs[0], d, p);
      WaitingOverRuns(Next(k, evs[0]), evs[1..], d, p);
    }
  }

  /** A packet without a route waits, whatever else happens, until the daemon decides about its destination: then it
      is among those sent along the new route, or among those dropped. */
  lemma WaitsForDecision(k: Kernel, p: Q.Held, evs: seq<Event>, m: Msg, jiffies: int)
    requires Inv(k) && !Reachable(k.expl, p.daddr) && |k.queue.held| < Q.MAX_QUEUE && Undecided(evs, p.daddr)
    requires (m.AddRoute? || m.DelRoute? || m.NoRouteFound?) && m.dest == p.daddr
    ensures var k1 := Run(LocalOut(k, p), evs);
            var k2 := Received(k1, m, jiffies);
            var o := if m.AddRoute? && k1.expl.len <= E.MAX_LEN
                     then Q.Sent(E.Route(m.nhop, m.encap, m.repair, m.ifindex)) else Q.Dropped;
            |k1.queue.released| <= |k2.queue.released| && (p, o) in k2.queue.released[|k1.queue.released|..]
  {
    LocalOutKeepsInv(k, p);
    OutputKeeps(k, p);
    WaitingOverRuns(LocalOut(k, p), evs, p.daddr, p);
    var k1 := Run(LocalOut(k, p), evs);
    var waiting := Q.For(k1.queue.held, p.daddr);
    var o := if m.AddRoute? && k1.expl.len <= E.MAX_LEN
    then Q.Sent(E.Route(m.nhop, m.encap, m.repair, m.ifindex)) else Q.Dropped;
    if m.AddRoute? {
      AddRouteReleases(k1, m, jiffies);
    } else {
      NoRouteDrops(k1, m, jiffies);
    }
    assert Received(k1, m, jiffies).queue.released[|k1.queue.released|..] == Q.All(waiting, o);
    var i :| 0 <= i < |waiting| && waiting[i] == p;
    assert Q.All(waiting, o)[i] == (p, o);
  }

  /** The timeout that the last configuration message has set. */
  function LastTimeout(evs: seq<Event>, timeout: int): (t: int) {
    if evs == [] then timeout
    else LastTimeout(evs[1..], if evs[0].FromDaemon? && evs[0].m.Config? then evs[0].m.timeout else timeout)
  }

  lemma {:induction false} TimeoutOverRuns(k: Kernel, evs: seq<Event>)
    ensures Run(k, evs).timeout == LastTimeout(evs, k.timeout)
    decreases evs
  {
    if evs != [] {
      TimeoutOverRuns(Next(k, evs[0]), evs[1..]);
    }
  }

  // ----- the handlers as the kernel module runs them -----------------------------------------------------

  datatype Verdict = Drop | Send | Other

  class Module {
    const expl: E.KernelList
    const queue: Q.KernelQueue
    var timeout: int

    ghost function State(): (k: Kernel)
      reads this, expl, queue
    {
      Kernel(expl.State(), queue.State(), timeout)
    }

    constructor (expl: E.KernelList, queue: Q.KernelQueue)
      requires expl.State() == E.Expl([], 0) && queue.State() == Q.Queue([], 0, [], [])
      ensures this.expl == expl && this.queue == queue && timeout == 3000 && Inv(State())
    {
      this.expl, this.queue, timeout := expl, queue, 3000;
    }

    /** The KAODV_QUEUE_SEND loop: each packet looks its route up again. */
    method SendAll(d: u32) returns (pkts: nat)
      requires E.Ok(expl.State()) && Q.Fifo(queue.State())
      modifies queue
      ensures queue.State() == Q.Judged(old(queue.State()), d, OutcomeFor(expl.State(), d))
      ensures pkts == if d in E.Table(expl.list) then |Q.For(old(queue.held), d)| else 0
    {
      ghost var o := OutcomeFor(expl.State(), d);
      Q.JudgedKeeps(queue.State(), d, o);
      Q.ForOthers(queue.held, d, d);
      ghost var all, done := Q.For(queue.held, d), 0;
      pkts := 0;
      while true
        invariant queue.total == |queue.held| && done <= |all| && queue.accepted == old(queue.accepted)
        invariant Q.NotFor(queue.held, d) == Q.NotFor(old(queue.held), d) && Q.For(queue.held, d) == all[done..]
        invariant queue.released == old(queue.released) + Q.All(all[..done], o)
        invariant pkts == if d in E.Table(expl.list) then done else 0
        decreases |queue.held|
      {
        var found, p := queue.Take(d, o);
        if !found {
          break;
        }
        assert p == all[done];
        Q.AllStep(all, done, o);
        done := done + 1;
        var known, _ := expl.Get(d);
        if !known {
          continue;
        }
        pkts := pkts + 1;
      }
      Q.ForOthers(queue.held, d, d);
      assert all[..done] == all;
    }

    /** kaodv_queue_set_verdict. */
    method SetVerdict(v: Verdict, d: u32) returns (pkts: nat)
      requires E.Ok(expl.State()) && Q.Fifo(queue.State())
      modifies queue
      ensures Q.Fifo(queue.State())
      ensures queue.State() == match v
                               case Drop => Q.Judged(old(queue.State()), d, Q.Dropped)
                               case Send => Q.Judged(old(queue.State()), d, OutcomeFor(expl.State(), d))
                               case Other => old(queue.State())
    {
      match v
      case Drop =>
        JudgeEmpties(queue.State(), d, Q.Dropped);
        var first;
        pkts, first := queue.Drain(d, Q.Dropped);
      case Send =>
        JudgeEmpties(queue.State(), d, OutcomeFor(expl.State(), d));
        pkts := SendAll(d);
      case Other =>
        pkts := 0;
    }

    /** kaodv_netlink_receive_peer; the result says whether the message was refused. */
    method ReceivePeer(m: Msg, jiffies: int) returns (refused: bool)
      requires Inv(State())
      modifies this, expl, queue
      ensures State() == Received(old(State()), m, jiffies) && Inv(State())
      ensures refused <==>
                || m.Short? || m.Unknown?
                || (m.AddRoute? && m.dest !in old(E.Table(expl.list)) && old(expl.len) > E.MAX_LEN)
    {
      ReceivedKeepsInv(State(), m, jiffies);
      refused := false;
      match m
      case AddRoute(d, _, _, _, _, _) =>
        refused := AddOrUpdate(EntryOf(m, jiffies));
        var _ := SetVerdict(Send, d);
      case DelRoute(d) =>
        E.DelRemoves(expl.State(), d);
        var _ := expl.DelEntry(d);
        var _ := SetVerdict(Drop, d);
      case NoRouteFound(d) =>
        var _ := SetVerdict(Drop, d);
      case Config(t) =>
        timeout := t;
      case _ =>
        refused := true;
    }

    method AddOrUpdate(e: E.Entry) returns (refused: bool)
      requires E.Ok(expl.State())
      modifies expl
      ensures expl.State() == if E.Has(old(expl.State()), e.daddr) then E.Update(old(expl.State()), e).0
              else E.Add(old(expl.State()), e).0
      ensures E.Ok(expl.State())
      ensures refused <==> e.daddr !in old(E.Table(expl.list)) && old(expl.len) > E.MAX_LEN
    {
      E.FindIsLookup(expl.list, e.daddr);
      if e.daddr in E.Table(expl.list) {
        E.UpdateIff(expl.State(), e);
      } else {
        E.AddIff(expl.State(), e);
      }
      var known, _ := expl.Get(e.daddr);
      if known {
        var _ := expl.UpdateEntry(e);
        return false;
      }
      var status := expl.AddEntry(e);
      return status == E.NoSpace;
    }

    /** kaodv_hook at NF_INET_LOCAL_OUT: `asks` says whether the daemon is asked for a route, which is when no
        packet for the destination waits yet. */
    method Output(skb: seq<int>, d: u32) returns (accepted: bool, asks: bool)
      requires Inv(State())
      modifies queue
      ensures State() == LocalOut(old(State()), Q.Held(skb, d)) && Inv(State())
      ensures accepted <==> Reachable(expl.State(), d)
      ensures asks <==> !accepted && Q.For(old(queue.held), d) == []
    {
      LocalOutKeepsInv(State(), Q.Held(skb, d));
      var known, e := expl.Get(d);
      if !known || e.route.repair {
        var waiting := queue.Check(d);
        var _ := queue.EnqueuePacket(skb, d);
        return false, !waiting;
      }
      return true, false;
    }
  }
}
