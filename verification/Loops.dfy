/**
 Why each assumption of the loop-freedom theorem is there: for each one, a run from empty tables that breaks
 this assumption alone and ends in a routing loop between two nodes. The runs are in time: route timers fire
 when they are due, the others not before their periods, and when the loop stands no route timer is due.
 */
module Loops {
  import opened Words
  import opened Params
  import opened RouteSpec
  import opened AodvSpec
  import opened Network
  import opened Growth
  import opened Clock
  import opened TimedRuns

  const D: Addr := 1
  const A: Addr := 2
  const B: Addr := 3
  const C: Addr := 4

  const MS := 1000  // microseconds

  /** The nodes of a network before anything has happened, with own sequence number h. */
  ghost predicate StartsAt(net: Net, nodes: set<Addr>, h: u32) {
    net.soup == {} && net.nodes.Keys == nodes && forall i :: i in net.nodes ==> Blank(net.nodes[i], i, h)
  }

  predicate Blank(n: NodeState, i: Addr, h: u32) {
    n.self == i && n.hostSeq == h && n.rreqId == 0 && IsEmpty(n.table) && n.records == {} && n.blacklist == {}
  }

  lemma StartsInitial(net: Net, nodes: set<Addr>, h: u32)
    requires StartsAt(net, nodes, h) && h >= 1
    ensures Initial(net)
  {
  }

  /** So short a run need not care about numbers. */
  lemma ShortRun(net: Net, evs: seq<Event>, net': Net, xs: set<Assumption>, nodes: set<Addr>, h: u32, now: int)
    requires StartsAt(net, nodes, h) && Ran(net, evs, net', xs - {SmallNumbers}, now) && h + |evs| < 0x8000_0000
    requires evs != [] && now == evs[|evs| - 1].now && StandingLoop(net', now)
    ensures EndsInLoop(net, evs, xs)
  {
    RanMeets(net, evs, net', xs - {SmallNumbers}, now);
    ShortRunsMeet(net, evs, xs, h);
  }

  /** A and B route to D through each other. */
  lemma TwoHopsMakeALoop(net: Net, now: int)
    requires Hop(net, D, A, B) && Hop(net, D, B, A) && Quiet(net, now)
    ensures StandingLoop(net, now)
  {
    assert Path(net, D, [A, B, A]);
  }

  // ----- how long routes last ----------------------------------------------------------------------------

  /** `until` comes before any timer that a route is given now: all run for three seconds or more. */
  predicate Lasting(now: int, until: int) { now <= until < now + 3000 * MS }

  lemma UpdateLasts(t: Table, now: int, d: Addr, next: Addr, hops: nat, seqno: u32, lifetime: u32, unidir: bool,
                    until: int)
    requires d in t.entries && NoneDue(t, until) && Lasting(now, until) && 3000 <= lifetime < 0x8000_0000
    ensures NoneDue(UpdateSpec(t, now, d, next, hops, seqno, lifetime, true, unidir).0, until)
  {
    var t2 := UpdateShape(t, now, d, next, hops, seqno, lifetime, unidir);
    BrokenLasts(t, now, t2, until);
    assert !Due(UpdatedEntry(t2.entries[d], now, next, hops, seqno, lifetime, true, unidir), until);
  }

  lemma BrokenLasts(t: Table, now: int, t2: Table, until: int)
    requires NoneDue(t, until) && Lasting(now, until) && AllKeptOrBroken(t, now, t2)
    ensures NoneDue(t2, until)
  {
    forall a | a in t2.entries
      ensures !Due(t2.entries[a], until)
    {
      assert KeptOrBroken(t.entries[a], now, t2.entries[a]) && !Due(t.entries[a], until);
    }
  }

  /** A VALID one-hop route that becomes longer breaks its own link, and has the time of an INVALID one, whatever
      the lifetime. */
  lemma SlipLasts(t: Table, now: int, d: Addr, next: Addr, hops: nat, seqno: u32, lifetime: u32, unidir: bool,
                  until: int)
    requires d in t.entries && t.entries[d].valid && t.entries[d].hops == 1 && hops > 1
    requires NoneDue(t, until) && Lasting(now, until)
    ensures NoneDue(UpdateSpec(t, now, d, next, hops, seqno, lifetime, true, unidir).0, until)
  {
    BreaksItself(AnnounceSpec(t, d, next, true), now, d);
    var t2 := UpdateShape(t, now, d, next, hops, seqno, lifetime, unidir);
    BrokenLasts(t, now, t2, until);
  }

  lemma BreaksItself(t: Table, now: int, d: Addr)
    requires d in t.entries && t.entries[d].hops == 1 && t.entries[d].valid
    ensures LinkBreakSpec(t, now, d).0.entries[d] == InvalidEntry(t.entries[d], now).(precs := [])
  {
    var t1 := InvalidateSpec(t, now, d);
    var e := t1.entries[d];
    CascadeShape(ClearPrecursorsSpec(t1, d), now, d, Flatten(t.buckets), Report(NoRerr, d, e.seqno, e.precs));
  }

  // ----- how a request is heard ----------------------------------------------------------------------

  lemma UpdateTakes(t: Table, now: int, d: Addr, next: Addr, hops: nat, seqno: u32, lifetime: u32, unidir: bool)
    requires d in t.entries
    ensures var t' := UpdateSpec(t, now, d, next, hops, seqno, lifetime, true, unidir).0;
            && t'.entries.Keys == t.entries.Keys && t'.buckets == t.buckets
            && t'.entries[d].valid && t'.entries[d].next == next && t'.entries[d].seqno == seqno
            && (hops == 1 ==> forall a :: a in t.entries && a != d ==> t'.entries[a] == t.entries[a])
  {
    var _ := UpdateShape(t, now, d, next, hops, seqno, lifetime, unidir);
  }

  lemma Hears(n: NodeState, now: int, src: Addr)
    requires |n.table.buckets| == TABLE_SIZE
    ensures var n1 := HearNeighbor(n, now, src);
            && n1 == n.(table := n1.table) && |n1.table.buckets| == TABLE_SIZE
            && n1.table.entries.Keys == n.table.entries.Keys + {src}
            && (src in n.table.entries ==> n1.table.entries[src].seqno == n.table.entries[src].seqno)
            && (src !in n.table.entries ==> n1.table.entries[src].seqno == 0)
            && forall a :: a in n.table.entries && a != src ==> n1.table.entries[a] == n.table.entries[a]
  {
    if src in n.table.entries && !n.table.entries[src].unidir {
      UpdateTakes(n.table, now, src, src, 1, n.table.entries[src].seqno, ACTIVE_ROUTE_TIMEOUT, false);
    }
  }

  lemma HearsLasts(n: NodeState, now: int, src: Addr, until: int)
    requires |n.table.buckets| == TABLE_SIZE && NoneDue(n.table, until) && Lasting(now, until)
    ensures NoneDue(HearNeighbor(n, now, src).table, until)
  {
    if src in n.table.entries && !n.table.entries[src].unidir {
      UpdateLasts(n.table, now, src, src, 1, n.table.entries[src].seqno, ACTIVE_ROUTE_TIMEOUT, false, until);
    }
  }

  /** Whether the node would take a route from this RREQ if it heard it now from `src`. */
  predicate Takes(n: NodeState, m: Rreq, src: Addr) {
    if m.orig !in n.table.entries then true
    else if m.orig == src then n.table.entries[m.orig].seqno == 0
    else AcceptRreq(n.table.entries[m.orig], m.origSeqno, m.hopcnt + 1)
  }

  /** The node after taking a route from m, except for details of the table. */
  predicate Took(n: NodeState, n': NodeState, m: Rreq, src: Addr) {
    && |n'.table.buckets| == TABLE_SIZE
    && n' == n.(table := n'.table, records := n.records + {(m.orig, m.id)})
    && n'.table.entries.Keys == n.table.entries.Keys + {src, m.orig}
    && n'.table.entries[m.orig].valid && n'.table.entries[m.orig].next == src
    && n'.table.entries[m.orig].seqno == m.origSeqno
  }

  lemma ReverseRouteTakes(n: NodeState, now: int, m: Rreq, src: Addr)
    requires |n.table.buckets| == TABLE_SIZE && src in n.table.entries
    requires m.orig in n.table.entries ==> AcceptRreq(n.table.entries[m.orig], m.origSeqno, m.hopcnt + 1)
    ensures Took(n, ReverseRoute(n, now, m, src).0, m, src)
  {
    if m.orig in n.table.entries {
      UpdateTakes(n.table, now, m.orig, src, m.hopcnt + 1, m.origSeqno, ReverseLifetime(m.hopcnt + 1),
                  n.table.entries[m.orig].unidir);
    }
  }

  lemma ReverseRouteLasts(t: Table, now: int, m: Rreq, src: Addr, until: int)
    requires |t.buckets| == TABLE_SIZE && NoneDue(t, until) && Lasting(now, until) && m.hopcnt <= 3
    ensures NoneDue(ReverseTable(t, now, m, src).0, until)
  {
    var life := ReverseLifetime(m.hopcnt + 1);
    assert 3000 <= life < 0x8000_0000;
    if m.orig in t.entries {
      UpdateLasts(t, now, m.orig, src, m.hopcnt + 1, m.origSeqno, life, t.entries[m.orig].unidir, until);
    }
  }

  function AskFrom(src: Addr, ttl: int, m: Rreq): (p: Packet) {
    Packet(src, BROADCAST, ttl, RREQ_SIZE, RreqMsg(m))
  }

  /** What node i sends on when it hears m with this ttl. */
  function Copy(i: Addr, ttl: int, m: Rreq): (p: Packet) {
    AskFrom(i, ttl - 1, m.(hopcnt := m.hopcnt + 1))
  }

  /** The RREQ passes the filters, meets no fresher route and cannot be answered here. */
  predicate Welcomes(n: NodeState, src: Addr, m: Rreq) {
    && |n.table.buckets| == TABLE_SIZE && src !in n.blacklist
    && m.orig != n.self && (m.orig, m.id) !in n.records && Takes(n, m, src)
    && m.dest != n.self && m.dest !in n.table.entries && m.dest != src && m.dest != m.orig
  }

  /** Then a route through its sender is installed. */
  lemma RreqTakesRoute(n: NodeState, now: int, src: Addr, ttl: int, m: Rreq)
    requires Welcomes(n, src, m)
    ensures var (n', out) := Receive(n, now, AskFrom(src, ttl, m));
            && Took(n, n', m, src) && (ttl > 1 ==> Copy(n.self, ttl, m) in out)
            && n'.table == ReverseTable(HearNeighbor(n, now, src).table, now, m, src).0
  {
    Hears(n, now, src);
    var n1 := HearNeighbor(n, now, src);
    ReverseRouteTakes(n1, now, m, src);
    var (n2, dr) := ReverseRoute(n1, now, m, src);
    assert AnswerOrForward(n2, now, m, RREQ_SIZE, ttl).0 == n2;
  }

  lemma RreqLasts(n: NodeState, now: int, src: Addr, ttl: int, m: Rreq, until: int)
    requires Welcomes(n, src, m) && NoneDue(n.table, until) && Lasting(now, until) && m.hopcnt <= 3
    ensures NoneDue(Receive(n, now, AskFrom(src, ttl, m)).0.table, until)
  {
    RreqTakesRoute(n, now, src, ttl, m);
    Hears(n, now, src);
    HearsLasts(n, now, src, until);
    ReverseRouteLasts(HearNeighbor(n, now, src).table, now, m, src, until);
  }

  /** D's request for `dest`, under its number `id`. */
  function Request(id: u32, dest: Addr, hopcnt: nat, seqno: u32): (m: Rreq) {
    Rreq(hopcnt, id, dest, 0, D, seqno, false, false)
  }

  /** What a node may be after some of D's requests were heard; no timer of its routes is due by `until`. */
  ghost predicate Knows(n: NodeState, i: Addr, seen: set<u32>, until: int) {
    && n.self == i && n.blacklist == {} && |n.table.buckets| == TABLE_SIZE
    && (forall r :: r in n.records ==> r.0 == D && r.1 in seen)
    && n.table.entries.Keys <= {D, A, B, C} && NoneDue(n.table, until)
  }

  /** ... with a route to D of this number. */
  predicate Holds(n: NodeState, seqno: u32, valid: bool) {
    D in n.table.entries && n.table.entries[D].seqno == seqno && n.table.entries[D].valid == valid
  }

  /** The only route is the one-hop route to D, and its timer runs out at `deadline`. */
  predicate Running(n: NodeState, handler: Handler, deadline: int) {
    && n.table.entries.Keys == {D} && n.table.entries[D].hops == 1
    && n.table.entries[D].armed && n.table.entries[D].handler == handler && n.table.entries[D].deadline == deadline
  }

  /** D itself is heard for the first time: its route's timer runs. */
  lemma FirstHears(n: NodeState, now: int, ttl: int, m: Rreq)
    requires |n.table.buckets| == TABLE_SIZE && n.table.entries == map[] && n.self != D && n.blacklist == {}
    requires m.orig == D && m.hopcnt == 0 && (D, m.id) !in n.records && m.dest != n.self && m.dest != D
    ensures var n' := Receive(n, now, AskFrom(D, ttl, m)).0;
            && Running(n', ExpireHandler, now + 5520 * MS)
            && !n'.table.entries[D].unidir && !n'.table.entries[D].ackUsed
  {
    var n1 := HearNeighbor(n, now, D);
    assert n1.table.entries.Keys == {D};
    assert ReverseLifetime(1) == 5520;
    var n2 := ReverseRoute(n1, now, m, D).0;
    assert AnswerOrForward(n2, now, m, RREQ_SIZE, ttl).0 == n2;
  }

  lemma HearAsk(net: Net, now: int, src: Addr, i: Addr, ttl: int, m: Rreq, seen: set<u32>, until: int)
    returns (net': Net)
    requires i in net.nodes && AskFrom(src, ttl, m) in net.soup && src != i && src in {D, A, B, C} && i in {A, B, C}
    requires m.orig == D && m.dest >= 8 && m.hopcnt <= 3 && Takes(net.nodes[i], m, src)
    requires Knows(net.nodes[i], i, seen, until) && m.id !in seen && Lasting(now, until) && QuietBut(net, i, now)
    ensures Moves(net, Event(now, Deliver(AskFrom(src, ttl, m), i)), net')
    ensures Timely(net, Event(now, Deliver(AskFrom(src, ttl, m), i)))
    ensures net'.nodes == net.nodes[i := net'.nodes[i]] && net.soup <= net'.soup
    ensures Knows(net'.nodes[i], i, seen + {m.id}, until)
    ensures Hop(net', D, i, src) && Holds(net'.nodes[i], m.origSeqno, true)
    ensures net'.nodes[i] == Receive(net.nodes[i], now, AskFrom(src, ttl, m)).0
    ensures (D, m.id) in net'.nodes[i].records && (ttl > 1 ==> Copy(i, ttl, m) in net'.soup)
  {
    RreqTakesRoute(net.nodes[i], now, src, ttl, m);
    RreqLasts(net.nodes[i], now, src, ttl, m, until);
    assert NoneDue(net.nodes[i].table, now);
    net' := NetStep(net, Event(now, Deliver(AskFrom(src, ttl, m), i)));
  }

  // ----- how routes go ---------------------------------------------------------------------------------

  /** The timer of node i's route to D. */
  function Fires(i: Addr, now: int): (ev: Event) {
    Event(now, RouteFires(i, D))
  }

  /** Node i has heard D's request, and its route runs out at `deadline`. */
  ghost predicate Heard(net: Net, i: Addr, m: Rreq, deadline: int) {
    i in net.nodes && Knows(net.nodes[i], i, {m.id}, deadline - 1) && Holds(net.nodes[i], m.origSeqno, true)
    && Running(net.nodes[i], ExpireHandler, deadline) && Copy(i, 2, m) in net.soup
  }

  /** Node i has an INVALID route to D that is deleted at `deadline`. */
  ghost predicate Lost(net: Net, i: Addr, id: u32, seqno: u32, deadline: int) {
    i in net.nodes && Knows(net.nodes[i], i, {id}, deadline - 1) && Holds(net.nodes[i], seqno, false)
    && Running(net.nodes[i], DeleteHandler, deadline)
  }

  /** The route to the neighbour D expires: one higher, INVALID, and to be deleted next. */
  lemma Expires(start: Net, evs: seq<Event>, net: Net, i: Addr, m: Rreq, xs: set<Assumption>, last: int, now: int)
    returns (net': Net)
    requires Ran(start, evs, net, xs, last) && SmallNumbers !in xs && last <= now
    requires Heard(net, i, m, now) && QuietBut(net, i, now)
    ensures Ran(start, evs + [Fires(i, now)], net', xs, now)
    ensures Lost(net', i, m.id, SeqnoIncr(m.origSeqno), now + DELETE_PERIOD * MS)
    ensures net'.nodes == net.nodes[i := net'.nodes[i]] && net.soup <= net'.soup
  {
    BreaksItself(net.nodes[i].table, now, D);
    net' := NetStep(net, Fires(i, now));
    Go(start, evs, net, Fires(i, now), net', xs, last);
  }

  lemma Deletes(start: Net, evs: seq<Event>, net: Net, i: Addr, id: u32, seqno: u32, xs: set<Assumption>, last: int,
                now: int) returns (net': Net)
    requires Ran(start, evs, net, xs, last) && SmallNumbers !in xs && NoDeletion !in xs && last <= now
    requires Lost(net, i, id, seqno, now) && QuietBut(net, i, now)
    ensures Ran(start, evs + [Fires(i, now)], net', xs, now)
    ensures i in net'.nodes && net'.nodes == net.nodes[i := net'.nodes[i]] && net.soup <= net'.soup
    ensures net'.nodes[i].table.entries == map[] && Knows(net'.nodes[i], i, {id}, now + 2000 * MS)
  {
    net' := NetStep(net, Fires(i, now));
    Go(start, evs, net, Fires(i, now), net', xs, last);
  }

  // ----- two requests: the opening of three of the runs ------------------------------------------------

  lemma SeekStep(net: Net, id: u32, d: Addr, h: u32) returns (net': Net)
    requires D in net.nodes && |net.nodes[D].table.buckets| == TABLE_SIZE && id < 5
    requires var n := net.nodes[D];
             n.self == D && n.hostSeq == h && n.rreqId == id && d !in n.table.seeks && n.table.entries == map[]
    requires QuietBut(net, D, 0)
    ensures Moves(net, Event(0, Action.Seek(D, d)), net') && Timely(net, Event(0, Action.Seek(D, d)))
    ensures net' == Net(net.nodes[D := net'.nodes[D]], net.soup + {AskFrom(D, 2, Request(id, d, 0, SeqnoIncr(h)))})
    ensures net'.nodes[D] == net.nodes[D].(rreqId := id + 1, hostSeq := SeqnoIncr(h), table := net'.nodes[D].table)
    ensures var t := net.nodes[D].table;
            net'.nodes[D].table == t.(seeks := t.seeks[d := RouteSpec.Seek(0, TTL_START, 1)])
  {
    net' := NetStep(net, Event(0, Action.Seek(D, d)));
  }

  function AsksFirst(): (ev: Event) { Event(0, Action.Seek(D, 9)) }

  function AsksAgain(): (ev: Event) { Event(0, Action.Seek(D, 8)) }

  /** No node but these two has routes. */
  ghost predicate OnlyTheTwo(net: Net, i: Addr, i2: Addr) {
    forall j :: j in net.nodes && j != i && j != i2 ==> net.nodes[j].table.entries == map[]
  }

  lemma TheOther(net: Net, i: Addr, j: Addr, now: int, until: int)
    requires OnlyTheTwo(net, i, j) && (j in net.nodes ==> NoneDue(net.nodes[j].table, until)) && now <= until
    ensures QuietBut(net, i, now)
  {
  }

  /** D asks for 9 and for 8. */
  function Asking(): (evs: seq<Event>) { [] + [AsksFirst()] + [AsksAgain()] }

  function First(h: u32): (m: Rreq) { Request(0, 9, 0, SeqnoIncr(h)) }

  function Second(h: u32): (m: Rreq) { Request(1, 8, 0, SeqnoIncr(SeqnoIncr(h))) }

  /** Node i hears D's request m. */
  function HearsD(i: Addr, m: Rreq, now: int): (ev: Event) { Event(now, Deliver(AskFrom(D, 2, m), i)) }

  /** A hears B's copy of the first request. */
  function AHears(h: u32, now: int): (ev: Event) { Event(now, Deliver(Copy(B, 2, First(h)), A)) }

  /** B hears A's copy of the second request. */
  function BHears(h: u32, now: int): (ev: Event) { Event(now, Deliver(Copy(A, 2, Second(h)), B)) }

  lemma NobodyElse(net: Net, nodes: set<Addr>, h: u32, net1: Net, now: int)
    requires StartsAt(net, nodes, h) && D in net1.nodes && net1.nodes == net.nodes[D := net1.nodes[D]]
    ensures QuietBut(net1, D, now)
  {
  }

  lemma FirstTwo(net: Net, h: u32, xs: set<Assumption>) returns (net2: Net)
    requires StartsAt(net, {D, A, B}, h) && SmallNumbers !in xs
    ensures Ran(net, Asking(), net2, xs, 0)
    ensures D in net2.nodes && OnlyTheTwo(net2, A, B) && net2.nodes == net.nodes[D := net2.nodes[D]]
    ensures AskFrom(D, 2, First(h)) in net2.soup && AskFrom(D, 2, Second(h)) in net2.soup
  {
    NobodyElse(net, {D, A, B}, h, net, 0);
    var net1 := SeekStep(net, 0, 9, h);
    NobodyElse(net, {D, A, B}, h, net1, 0);
    net2 := SeekStep(net1, 1, 8, SeqnoIncr(h));
    RanNowhere(net, xs, 0);
    GoOrdinarily(net, [], net, AsksFirst(), net1, xs, 0);
    GoOrdinarily(net, [] + [AsksFirst()], net1, AsksAgain(), net2, xs, 0);
  }

  lemma HearFirst(start: Net, evs: seq<Event>, net: Net, i: Addr, m: Rreq, h: u32, xs: set<Assumption>,
                  last: int, now: int) returns (net': Net)
    requires Ran(start, evs, net, xs, last) && SmallNumbers !in xs && last <= now
    requires i in {A, B} && i in net.nodes && Blank(net.nodes[i], i, h) && AskFrom(D, 2, m) in net.soup
    requires m.orig == D && m.dest >= 8 && m.hopcnt == 0 && QuietBut(net, i, now)
    ensures Ran(start, evs + [HearsD(i, m, now)], net', xs, now)
    ensures i in net'.nodes && net'.nodes == net.nodes[i := net'.nodes[i]] && net.soup <= net'.soup
    ensures Heard(net', i, m, now + 5520 * MS)
  {
    net' := HearFirstStep(net, i, m, h, now);
    GoOrdinarily(start, evs, net, HearsD(i, m, now), net', xs, last);
  }

  lemma HearFirstStep(net: Net, i: Addr, m: Rreq, h: u32, now: int) returns (net': Net)
    requires i in {A, B} && i in net.nodes && Blank(net.nodes[i], i, h) && AskFrom(D, 2, m) in net.soup
    requires m.orig == D && m.dest >= 8 && m.hopcnt == 0 && QuietBut(net, i, now)
    ensures Moves(net, HearsD(i, m, now), net') && Timely(net, HearsD(i, m, now))
    ensures i in net'.nodes && net'.nodes == net.nodes[i := net'.nodes[i]] && net.soup <= net'.soup
    ensures Heard(net', i, m, now + 5520 * MS)
  {
    net' := HearAsk(net, now, D, i, 2, m, {}, now);
    FirstHears(net.nodes[i], now, 2, m);
    assert {} + {m.id} == {m.id};
  }

  /** D asks twice; node i hears the request m at once, node j hears the request m2 at t2. */
  function Opening(i: Addr, m: Rreq, j: Addr, m2: Rreq, t2: int): (evs: seq<Event>) {
    Asking() + [HearsD(i, m, 0)] + [HearsD(j, m2, t2)]
  }

  lemma Opens(net: Net, h: u32, i: Addr, m: Rreq, j: Addr, m2: Rreq, t2: int, xs: set<Assumption>) returns (net': Net)
    requires StartsAt(net, {D, A, B}, h) && SmallNumbers !in xs && (i, j) in {(A, B), (B, A)} && 0 <= t2 < 5520 * MS
    requires (m, m2) in {(First(h), Second(h)), (Second(h), First(h))}
    ensures Ran(net, Opening(i, m, j, m2, t2), net', xs, t2) && OnlyTheTwo(net', A, B)
    ensures Heard(net', i, m, 5520 * MS) && Heard(net', j, m2, t2 + 5520 * MS)
  {
    var net2 := FirstTwo(net, h, xs);
    net' := BothHear(net, Asking(), net2, i, m, j, m2, t2, h, xs);
  }

  /** A first request of D that its neighbours have not heard. */
  predicate Unheard(net: Net, m: Rreq) {
    AskFrom(D, 2, m) in net.soup && m.orig == D && m.dest >= 8 && m.hopcnt == 0
  }

  lemma BothHear(start: Net, evs: seq<Event>, net2: Net, i: Addr, m: Rreq, j: Addr, m2: Rreq, t2: int, h: u32,
                 xs: set<Assumption>) returns (net': Net)
    requires Ran(start, evs, net2, xs, 0) && SmallNumbers !in xs && OnlyTheTwo(net2, A, B) && 0 <= t2 < 5520 * MS
    requires i in {A, B} && j in {A, B} && i != j && i in net2.nodes && j in net2.nodes
    requires Blank(net2.nodes[i], i, h) && Blank(net2.nodes[j], j, h) && Unheard(net2, m) && Unheard(net2, m2)
    ensures Ran(start, evs + [HearsD(i, m, 0)] + [HearsD(j, m2, t2)], net', xs, t2) && OnlyTheTwo(net', A, B)
    ensures Heard(net', i, m, 5520 * MS) && Heard(net', j, m2, t2 + 5520 * MS)
  {
    var net3 := HearFirst(start, evs, net2, i, m, h, xs, 0, 0);
    net' := HearFirst(start, evs + [HearsD(i, m, 0)], net3, j, m2, h, xs, 0, t2);
  }

  /** A's old copy reaches B, or B's reaches A, when the other would take it. */
  lemma BTurns(start: Net, evs: seq<Event>, net: Net, h: u32, xs: set<Assumption>, last: int, now: int, until: int)
    returns (net': Net)
    requires Ran(start, evs, net, xs, last) && SmallNumbers !in xs && last <= now && Lasting(now, until)
    requires B in net.nodes && Copy(A, 2, Second(h)) in net.soup && Knows(net.nodes[B], B, {0}, until)
    requires Takes(net.nodes[B], Copy(A, 2, Second(h)).msg.rreq, A) && QuietBut(net, B, now)
    ensures Ran(start, evs + [BHears(h, now)], net', xs, now) && Hop(net', D, B, A)
    ensures net'.nodes == net.nodes[B := net'.nodes[B]] && net.soup <= net'.soup && NoneDue(net'.nodes[B].table, until)
  {
    net' := HearAsk(net, now, A, B, 1, Copy(A, 2, Second(h)).msg.rreq, {0}, until);
    GoOrdinarily(start, evs, net, BHears(h, now), net', xs, last);
  }

  lemma ATurns(start: Net, evs: seq<Event>, net: Net, h: u32, xs: set<Assumption>, last: int, now: int)
    returns (net': Net)
    requires Ran(start, evs, net, xs, last) && SmallNumbers !in xs && last <= now
    requires A in net.nodes && Copy(B, 2, First(h)) in net.soup && Knows(net.nodes[A], A, {1}, now)
    requires Takes(net.nodes[A], Copy(B, 2, First(h)).msg.rreq, B) && Hop(net, D, B, A) && QuietBut(net, A, now)
    ensures Ran(start, evs + [AHears(h, now)], net', xs, now) && StandingLoop(net', now)
  {
    net' := ATurnsStep(net, 1, Copy(B, 2, First(h)).msg.rreq, {1}, now);
    GoOrdinarily(start, evs, net, AHears(h, now), net', xs, last);
  }

  lemma ATurnsStep(net: Net, ttl: int, m: Rreq, seen: set<u32>, now: int) returns (net': Net)
    requires A in net.nodes && AskFrom(B, ttl, m) in net.soup && Knows(net.nodes[A], A, seen, now)
    requires m.orig == D && m.dest >= 8 && m.hopcnt <= 3 && m.id !in seen && Takes(net.nodes[A], m, B)
    requires Hop(net, D, B, A) && QuietBut(net, A, now)
    ensures Moves(net, Event(now, Deliver(AskFrom(B, ttl, m), A)), net')
    ensures Timely(net, Event(now, Deliver(AskFrom(B, ttl, m), A))) && StandingLoop(net', now)
  {
    net' := HearAsk(net, now, B, A, ttl, m, seen, now);
    TwoHopsMakeALoop(net', now);
  }

  // ----- own numbers of 0 --------------------------------------------------------------------------------

  function ZeroRun(): (evs: seq<Event>) {
    Opening(B, First(0), A, Second(0), 0) + [BHears(0, 0)] + [AHears(0, 0)]
  }

  /** From the daemon's own initial state, six events suffice, each of them admissible: A routes to D through
      B and B through A. */
  lemma ZeroSeqnoLoop(net: Net)
    requires StartsAt(net, {D, A, B}, 0)
    ensures EndsInLoop(net, ZeroRun(), ALL)
    ensures Runs(net, ZeroRun()) && !LoopFree(Final(net, ZeroRun()))
  {
    var net6 := ZeroRan(net, ALL - {SmallNumbers});
    ShortRun(net, ZeroRun(), net6, ALL, {D, A, B}, 0, 0);
    AdmissibleLoop(net, ZeroRun());
  }

  lemma AdmissibleLoop(net: Net, evs: seq<Event>)
    requires EndsInLoop(net, evs, ALL)
    ensures Runs(net, evs) && !LoopFree(Final(net, evs))
  {
    RunsMeetsAll(net, evs);
  }

  lemma ZeroRan(net: Net, xs: set<Assumption>) returns (net6: Net)
    requires StartsAt(net, {D, A, B}, 0) && SmallNumbers !in xs
    ensures Ran(net, ZeroRun(), net6, xs, 0) && StandingLoop(net6, 0)
  {
    var net4 := Opens(net, 0, B, First(0), A, Second(0), 0, xs);
    net6 := ZeroCloses(net, Opening(B, First(0), A, Second(0), 0), net4, xs);
  }

  lemma ZeroCloses(net: Net, evs: seq<Event>, net4: Net, xs: set<Assumption>) returns (net6: Net)
    requires Ran(net, evs, net4, xs, 0) && SmallNumbers !in xs
    requires OnlyTheTwo(net4, A, B) && Heard(net4, B, First(0), 5520 * MS) && Heard(net4, A, Second(0), 5520 * MS)
    ensures Ran(net, evs + [BHears(0, 0)] + [AHears(0, 0)], net6, xs, 0) && StandingLoop(net6, 0)
  {
    var net5 := BTurns(net, evs, net4, 0, xs, 0, 0, 0);
    net6 := ATurns(net, evs + [BHears(0, 0)], net5, 0, xs, 0, 0);
  }

  // ----- numbers of 2^31 ---------------------------------------------------------------------------------

  function OverflowRun(h: u32): (evs: seq<Event>) {
    Opening(B, First(h), A, Second(h), 1000 * MS) + [Fires(B, 5520 * MS)]
    + [BHears(h, 5600 * MS)] + [AHears(h, 5700 * MS)]
  }

  /** B's route is INVALID, and its number is the one that the second request carries. */
  lemma OverflowOpens(net: Net, h: u32, xs: set<Assumption>) returns (net5: Net)
    requires StartsAt(net, {D, A, B}, h) && h + 2 == 0x8000_0000 && SmallNumbers !in xs
    ensures Ran(net, Opening(B, First(h), A, Second(h), 1000 * MS) + [Fires(B, 5520 * MS)], net5, xs, 5520 * MS)
    ensures OnlyTheTwo(net5, A, B) && Heard(net5, A, Second(h), 6520 * MS)
    ensures Lost(net5, B, 0, h + 2, 20520 * MS)
    ensures Copy(B, 2, First(h)) in net5.soup
  {
    var evs := Opening(B, First(h), A, Second(h), 1000 * MS);
    var net4 := Opens(net, h, B, First(h), A, Second(h), 1000 * MS, xs);
    net5 := Expires(net, evs, net4, B, First(h), xs, 1000 * MS, 5520 * MS);
  }

  lemma OverflowCloses(net: Net, evs: seq<Event>, net5: Net, h: u32, xs: set<Assumption>) returns (net7: Net)
    requires Ran(net, evs, net5, xs, 5520 * MS) && SmallNumbers !in xs && h + 2 == 0x8000_0000
    requires OnlyTheTwo(net5, A, B) && Heard(net5, A, Second(h), 6520 * MS)
    requires Lost(net5, B, 0, h + 2, 20520 * MS)
    requires Copy(B, 2, First(h)) in net5.soup
    ensures Ran(net, evs + [BHears(h, 5600 * MS)] + [AHears(h, 5700 * MS)], net7, xs, 5700 * MS)
    ensures StandingLoop(net7, 5700 * MS)
  {
    TheOther(net5, B, A, 5600 * MS, 6520 * MS - 1);
    var net6 := BTurns(net, evs, net5, h, xs, 5520 * MS, 5600 * MS, 5700 * MS);
    TheOther(net6, A, B, 5700 * MS, 5700 * MS);
    net7 := ATurns(net, evs + [BHears(h, 5600 * MS)], net6, h, xs, 5600 * MS, 5700 * MS);
  }

  /** D's second request carries 2^31, which counts as older than what the first one carried. B's route has
      expired in between, so that B takes it and A, who has not, takes the first one instead. */
  lemma OverflowLoop(net: Net, h: u32)
    requires StartsAt(net, {D, A, B}, h) && h + 2 == 0x8000_0000
    ensures Initial(net) && EndsInLoop(net, OverflowRun(h), ALL - {SmallNumbers})
  {
    var xs := ALL - {SmallNumbers};
    StartsInitial(net, {D, A, B}, h);
    var net5 := OverflowOpens(net, h, xs);
    var evs := Opening(B, First(h), A, Second(h), 1000 * MS) + [Fires(B, 5520 * MS)];
    var net7 := OverflowCloses(net, evs, net5, h, xs);
    Ends(net, OverflowRun(h), net7, xs, 5700 * MS);
  }

  // ----- deletion ------------------------------------------------------------------------------------------

  /** A and B have heard D, and the routes of both have expired. */
  function DeletionOpening(h: u32): (evs: seq<Event>) {
    Opening(A, Second(h), B, First(h), 100 * MS) + [Fires(A, 5520 * MS)] + [Fires(B, 5620 * MS)]
  }

  function DeletionRun(h: u32): (evs: seq<Event>) {
    DeletionOpening(h) + [BHears(h, 18000 * MS)] + [Fires(A, 20520 * MS)] + [AHears(h, 20550 * MS)]
  }

  lemma DeletionOpens(net: Net, h: u32, xs: set<Assumption>) returns (net6: Net)
    requires StartsAt(net, {D, A, B}, h) && 1 <= h < 0x7fff_fff0 && SmallNumbers !in xs
    ensures Ran(net, DeletionOpening(h), net6, xs, 5620 * MS) && OnlyTheTwo(net6, A, B)
    ensures Lost(net6, A, 1, h + 3, 20520 * MS) && Lost(net6, B, 0, h + 2, 20620 * MS)
    ensures Copy(B, 2, First(h)) in net6.soup && Copy(A, 2, Second(h)) in net6.soup
  {
    var evs := Opening(A, Second(h), B, First(h), 100 * MS);
    var net4 := Opens(net, h, A, Second(h), B, First(h), 100 * MS, xs);
    net6 := BothExpire(net, evs, net4, h, xs);
  }

  lemma BothExpire(start: Net, evs: seq<Event>, net4: Net, h: u32, xs: set<Assumption>) returns (net6: Net)
    requires Ran(start, evs, net4, xs, 100 * MS) && SmallNumbers !in xs && OnlyTheTwo(net4, A, B)
    requires 1 <= h < 0x7fff_fff0
    requires Heard(net4, A, Second(h), 5520 * MS) && Heard(net4, B, First(h), 5620 * MS)
    ensures Ran(start, evs + [Fires(A, 5520 * MS)] + [Fires(B, 5620 * MS)], net6, xs, 5620 * MS)
    ensures OnlyTheTwo(net6, A, B) && net4.soup <= net6.soup
    ensures Lost(net6, A, 1, h + 3, 20520 * MS) && Lost(net6, B, 0, h + 2, 20620 * MS)
  {
    TheOther(net4, A, B, 5520 * MS, 5620 * MS - 1);
    var net5 := Expires(start, evs, net4, A, Second(h), xs, 100 * MS, 5520 * MS);
    net6 := ThenB(start, evs + [Fires(A, 5520 * MS)], net5, h, xs);
  }

  lemma ThenB(start: Net, evs: seq<Event>, net5: Net, h: u32, xs: set<Assumption>) returns (net6: Net)
    requires Ran(start, evs, net5, xs, 5520 * MS) && SmallNumbers !in xs && OnlyTheTwo(net5, A, B)
    requires 1 <= h < 0x7fff_fff0 && Lost(net5, A, 1, h + 3, 20520 * MS) && Heard(net5, B, First(h), 5620 * MS)
    ensures Ran(start, evs + [Fires(B, 5620 * MS)], net6, xs, 5620 * MS)
    ensures OnlyTheTwo(net6, A, B) && net5.soup <= net6.soup
    ensures Lost(net6, A, 1, h + 3, 20520 * MS) && Lost(net6, B, 0, h + 2, 20620 * MS)
  {
    TheOther(net5, B, A, 5620 * MS, 20520 * MS - 1);
    net6 := Expires(start, evs, net5, B, First(h), xs, 5520 * MS, 5620 * MS);
  }

  /** B takes A's old copy, and A, who has forgotten how fresh its route was, takes B's. */
  lemma DeletionCloses(net: Net, evs: seq<Event>, net6: Net, h: u32, xs: set<Assumption>) returns (net9: Net)
    requires Ran(net, evs, net6, xs, 5620 * MS) && SmallNumbers !in xs && NoDeletion !in xs
    requires OnlyTheTwo(net6, A, B) && 1 <= h < 0x7fff_fff0
    requires Lost(net6, A, 1, h + 3, 20520 * MS) && Lost(net6, B, 0, h + 2, 20620 * MS)
    requires Copy(B, 2, First(h)) in net6.soup && Copy(A, 2, Second(h)) in net6.soup
    ensures Ran(net, evs + [BHears(h, 18000 * MS)] + [Fires(A, 20520 * MS)] + [AHears(h, 20550 * MS)], net9, xs,
                20550 * MS)
    ensures StandingLoop(net9, 20550 * MS)
  {
    TheOther(net6, B, A, 18000 * MS, 20520 * MS - 1);
    var net7 := BTurns(net, evs, net6, h, xs, 5620 * MS, 18000 * MS, 20600 * MS);
    TheOther(net7, A, B, 20550 * MS, 20600 * MS);
    net9 := AForgets(net, evs + [BHears(h, 18000 * MS)], net7, h, xs);
  }

  lemma AForgets(net: Net, evs: seq<Event>, net7: Net, h: u32, xs: set<Assumption>) returns (net9: Net)
    requires Ran(net, evs, net7, xs, 18000 * MS) && SmallNumbers !in xs && NoDeletion !in xs
    requires h < 0x7fff_fff0 && Lost(net7, A, 1, h + 3, 20520 * MS) && QuietBut(net7, A, 20550 * MS)
    requires Hop(net7, D, B, A) && Copy(B, 2, First(h)) in net7.soup
    ensures Ran(net, evs + [Fires(A, 20520 * MS)] + [AHears(h, 20550 * MS)], net9, xs, 20550 * MS)
    ensures StandingLoop(net9, 20550 * MS)
  {
    var net8 := Deletes(net, evs, net7, A, 1, h + 3, xs, 18000 * MS, 20520 * MS);
    net9 := ATurns(net, evs + [Fires(A, 20520 * MS)], net8, h, xs, 20520 * MS, 20550 * MS);
  }

  /** Deleting an invalidated entry forgets how fresh it was. */
  lemma DeletionLoop(net: Net, h: u32)
    requires StartsAt(net, {D, A, B}, h) && 1 <= h < 0x7fff_fff0
    ensures Initial(net) && EndsInLoop(net, DeletionRun(h), ALL - {NoDeletion})
  {
    var xs := ALL - {NoDeletion} - {SmallNumbers};
    StartsInitial(net, {D, A, B}, h);
    var net6 := DeletionOpens(net, h, xs);
    var net9 := DeletionCloses(net, DeletionOpening(h), net6, h, xs);
    ShortRun(net, DeletionRun(h), net9, ALL - {NoDeletion}, {D, A, B}, h, 20550 * MS);
  }
}
