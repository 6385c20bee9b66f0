/**
 The two acceptance rules that can make a stored route worse: a run for each that breaks no other assumption
 of the loop-freedom theorem and ends in a routing loop.
 */
module MessageLoops {
  import opened Words
  import opened Params
  import opened RouteSpec
  import opened AodvSpec
  import opened Network
  import opened Clock
  import opened TimedRuns
  import opened Loops

  // ----- a RERR with the stored number ---------------------------------------------------------------------

  /** D's second attempt: its first was given 320 milliseconds. */
  function AsksFurther(): (ev: Event) { Event(320 * MS, SeekFires(D, 9)) }

  function Attempt(h: u32): (m: Rreq) { Request(1, 9, 0, SeqnoIncr(SeqnoIncr(h))) }

  lemma WidenStep(net: Net, h: u32) returns (net': Net)
    requires D in net.nodes && |net.nodes[D].table.buckets| == TABLE_SIZE
    requires var n := net.nodes[D];
             n.self == D && n.hostSeq == h && n.rreqId == 1 && n.table.entries == map[]
             && 9 in n.table.seeks && n.table.seeks[9] == RouteSpec.Seek(0, TTL_START, 1)
    requires QuietBut(net, D, 320 * MS)
    ensures Moves(net, AsksFurther(), net') && Timely(net, AsksFurther())
    ensures D in net'.nodes && net'.nodes == net.nodes[D := net'.nodes[D]]
    ensures AskFrom(D, 4, Request(1, 9, 0, SeqnoIncr(h))) in net'.soup
  {
    net' := NetStep(net, AsksFurther());
  }

  /** It may be sent on twice. */
  lemma AskFurther(start: Net, h: u32, xs: set<Assumption>) returns (net': Net)
    requires StartsAt(start, {D, A, B, C}, h) && SmallNumbers !in xs
    ensures Ran(start, [] + [AsksFirst()] + [AsksFurther()], net', xs, 320 * MS) && OnlyTheTwo(net', A, C)
    ensures D in net'.nodes && net'.nodes == start.nodes[D := net'.nodes[D]]
    ensures AskFrom(D, 4, Attempt(h)) in net'.soup
  {
    var net1 := SeekStep(start, 0, 9, h);
    net' := WidenStep(net1, SeqnoIncr(h));
    AskedTwice(start, net1, net', xs);
  }

  lemma AskedTwice(start: Net, net1: Net, net': Net, xs: set<Assumption>)
    requires SmallNumbers !in xs && Moves(start, AsksFirst(), net1) && Timely(start, AsksFirst())
    requires Moves(net1, AsksFurther(), net') && Timely(net1, AsksFurther())
    requires net1.nodes[D].table.seeks[9].ttl == TTL_START
    ensures Ran(start, [] + [AsksFirst()] + [AsksFurther()], net', xs, 320 * MS)
  {
    RanNowhere(start, xs, 0);
    GoOrdinarily(start, [], start, AsksFirst(), net1, xs, 0);
    StartsWaiting(start, [] + [AsksFirst()], net1, xs, 0, AsksFurther().action);
    GoRipe(start, [] + [AsksFirst()], net1, AsksFurther(), net', xs, 0, 0);
  }

  /** Node i hears that attempt from src, so many hops old, and sends it on while its ttl lasts. */
  function PassesOn(src: Addr, ttl: nat, m: Rreq, i: Addr, now: int): (ev: Event) {
    Event(now, Deliver(AskFrom(src, ttl, m), i))
  }

  lemma Passes(start: Net, evs: seq<Event>, net: Net, src: Addr, ttl: nat, m: Rreq, i: Addr, seen: set<u32>,
               xs: set<Assumption>, last: int, now: int, until: int) returns (net': Net)
    requires Ran(start, evs, net, xs, last) && SmallNumbers !in xs && last <= now && Lasting(now, until)
    requires i in net.nodes && i in {A, B, C} && src in {D, A, B, C} && src != i && AskFrom(src, ttl, m) in net.soup
    requires m.orig == D && m.dest >= 8 && m.hopcnt <= 3 && m.id !in seen
    requires Knows(net.nodes[i], i, seen, until) && Takes(net.nodes[i], m, src) && QuietBut(net, i, until)
    ensures Ran(start, evs + [PassesOn(src, ttl, m, i, now)], net', xs, now)
    ensures i in net'.nodes && net'.nodes == net.nodes[i := net'.nodes[i]] && net.soup <= net'.soup
    ensures Knows(net'.nodes[i], i, seen + {m.id}, until) && Quiet(net', until)
    ensures Hop(net', D, i, src) && Holds(net'.nodes[i], m.origSeqno, true)
    ensures net'.nodes[i] == Receive(net.nodes[i], now, AskFrom(src, ttl, m)).0
    ensures (D, m.id) in net'.nodes[i].records && (ttl > 1 ==> Copy(i, ttl, m) in net'.soup)
  {
    net' := HearAsk(net, now, src, i, ttl, m, seen, until);
    GoOrdinarily(start, evs, net, PassesOn(src, ttl, m, i, now), net', xs, last);
  }

  /** A knows C as a neighbour, and nobody else but D. */
  predicate KnowsC(n: NodeState) {
    && n.table.entries.Keys == {C, D} && n.table.entries[D].next == C
    && n.table.entries[C].valid && !n.table.entries[C].unidir && n.table.entries[C].deadline == 3320 * MS
  }

  lemma AHearsC(n: NodeState, h: u32, ttl: int, m: Rreq)
    requires Blank(n, A, h) && m.orig == D && m.dest >= 8
    ensures KnowsC(Receive(n, 320 * MS, AskFrom(C, ttl, m)).0)
  {
    RreqTakesRoute(n, 320 * MS, C, ttl, m);
    var n1 := HearNeighbor(n, 320 * MS, C);
    assert n1.table.entries.Keys == {C};
  }

  /** C meets data for D from a host it does not know, and says that D is lost. */
  function Complains(): (ev: Event) { Event(3220 * MS, DataWithoutRoute(C, 9, D)) }

  function Complaint(s: u32): (p: Packet) { RerrPacket(C, false, [(D, s)], 0) }

  lemma ComplainStep(net: Net, seen: set<u32>, s: u32) returns (net': Net)
    requires C in net.nodes && Knows(net.nodes[C], C, seen, 3300 * MS) && Holds(net.nodes[C], s, true)
    requires QuietBut(net, C, 3300 * MS) && net.nodes[C].table.entries.Keys == {D}
    ensures Moves(net, Complains(), net') && Timely(net, Complains()) && NoneDue(net'.nodes[C].table, 6100 * MS)
    ensures C in net'.nodes && net'.nodes == net.nodes[C := net'.nodes[C]] && net.soup <= net'.soup
    ensures Complaint(s) in net'.soup
  {
    net' := NetStep(net, Complains());
  }

  function HearsComplaint(s: u32): (ev: Event) { Event(3220 * MS, Deliver(Complaint(s), A)) }

  /** A RERR that lists the stored number itself leaves an INVALID entry with that number. */
  lemma EqualRerrLowers(n: NodeState, s: u32, seen: set<u32>)
    requires Knows(n, A, seen, 3300 * MS) && Holds(n, s, true) && KnowsC(n)
    ensures var n' := Receive(n, 3220 * MS, Complaint(s)).0;
            Knows(n', A, seen, 6100 * MS) && Holds(n', s, false) && n'.records == n.records
  {
    var now := 3220 * MS;
    Hears(n, now, C);
    var t := HearNeighbor(n, now, C).table;
    assert t.entries[C].deadline == now + 3000 * MS;
    var t1 := InvalidateSpec(t, now, D);
    RerrWalkStep(t, now, false, C, D, s, [], NoRerr);
    assert [(D, s)] + [] == [(D, s)];
    assert RerrStep(t, now, false, C, D, s, NoRerr).0
        == ClearPrecursorsSpec(Put(t1, D, t1.entries[D].(seqno := s)), D);
  }

  /** The record of D's attempt at A. */
  function RecordGoes(): (ev: Event) { Event(5920 * MS, RecordFires(A, D, 1)) }

  lemma LosesStep(net: Net, s: u32) returns (net': Net)
    requires A in net.nodes && Complaint(s) in net.soup && Knows(net.nodes[A], A, {1}, 3300 * MS)
    requires Holds(net.nodes[A], s, true) && KnowsC(net.nodes[A]) && QuietBut(net, A, 3300 * MS)
    ensures Moves(net, HearsComplaint(s), net') && Timely(net, HearsComplaint(s))
    ensures A in net'.nodes && net'.nodes == net.nodes[A := net'.nodes[A]] && net.soup <= net'.soup
    ensures Holds(net'.nodes[A], s, false) && Knows(net'.nodes[A], A, {1}, 6100 * MS)
    ensures net'.nodes[A].records == net.nodes[A].records
  {
    EqualRerrLowers(net.nodes[A], s, {1});
    net' := NetStep(net, HearsComplaint(s));
  }

  lemma Unrecords(start: Net, evs: seq<Event>, net: Net, s: u32, xs: set<Assumption>) returns (net': Net)
    requires RanSince(start, evs, net, xs, 3220 * MS, RecordGoes().action, 320 * MS)
    requires SmallNumbers !in xs && NoEqualRerr !in xs && Quiet(net, 6100 * MS)
    requires A in net.nodes && Knows(net.nodes[A], A, {1}, 6100 * MS) && Holds(net.nodes[A], s, false)
    ensures Ran(start, evs + [RecordGoes()], net', xs, 5920 * MS)
    ensures A in net'.nodes && net'.nodes == net.nodes[A := net'.nodes[A]] && net.soup <= net'.soup
    ensures Holds(net'.nodes[A], s, false) && Knows(net'.nodes[A], A, {}, 6100 * MS)
  {
    net' := NetStep(net, RecordGoes());
    NotSpokenOf(net, RecordGoes(), xs);
    GoRipe(start, evs, net, RecordGoes(), net', xs, 3220 * MS, 320 * MS);
  }

  /** An event that no assumption in xs speaks of. */
  lemma NotSpokenOf(net: Net, ev: Event, xs: set<Assumption>)
    requires Enabled(net, ev.action) && SmallNumbers !in xs && NoEqualRerr !in xs && !ev.action.RouteFires?
    requires ev.action.Deliver? ==> !ev.action.p.msg.RrepMsg?
    ensures MeetsAll(net, ev, xs)
  {
  }

  /** All the while A's record waits. */
  lemma RecordWaits(start: Net, evs: seq<Event>, net: Net, net1: Net, net2: Net, s: u32, xs: set<Assumption>)
    requires Ran(start, evs, net, xs, 320 * MS) && SmallNumbers !in xs && NoEqualRerr !in xs
    requires Moves(net, Complains(), net1) && Timely(net, Complains())
    requires Moves(net1, HearsComplaint(s), net2) && Timely(net1, HearsComplaint(s))
    requires A in net.nodes && (D, 1) in net.nodes[A].records
    requires A in net1.nodes && net1.nodes[A] == net.nodes[A]
    requires A in net2.nodes && net2.nodes[A].records == net.nodes[A].records
    ensures RanSince(start, evs + [Complains()] + [HearsComplaint(s)], net2, xs, 3220 * MS, RecordGoes().action,
                     320 * MS)
  {
    var a := RecordGoes().action;
    NotSpokenOf(net, Complains(), xs);
    NotSpokenOf(net1, HearsComplaint(s), xs);
    StartsWaiting(start, evs, net, xs, 320 * MS, a);
    GoOn(start, evs, net, Complains(), net1, xs, 320 * MS, a, 320 * MS);
    GoOn(start, evs + [Complains()], net1, HearsComplaint(s), net2, xs, 3220 * MS, a, 320 * MS);
  }

  /** C has heard the attempt from D, and has no other route. */
  ghost predicate CHeard(net: Net, s: u32) {
    && C in net.nodes && Knows(net.nodes[C], C, {1}, 3300 * MS) && Holds(net.nodes[C], s, true)
    && net.nodes[C].table.entries.Keys == {D} && OnlyTheTwo(net, A, C)
  }

  /** A has heard it from C. */
  ghost predicate AHeard(net: Net, s: u32) {
    && A in net.nodes && Knows(net.nodes[A], A, {1}, 3300 * MS) && Holds(net.nodes[A], s, true)
    && KnowsC(net.nodes[A]) && (D, 1) in net.nodes[A].records
  }

  /** C complains, A hears it, and A's record of D's attempt ends. */
  lemma Loses(start: Net, evs: seq<Event>, net: Net, s: u32, xs: set<Assumption>) returns (net': Net)
    requires Ran(start, evs, net, xs, 320 * MS) && SmallNumbers !in xs && NoEqualRerr !in xs
    requires CHeard(net, s) && AHeard(net, s)
    ensures Ran(start, evs + [Complains()] + [HearsComplaint(s)] + [RecordGoes()], net', xs, 5920 * MS)
    ensures A in net'.nodes && net.soup <= net'.soup
    ensures B in net.nodes ==> B in net'.nodes && net'.nodes[B] == net.nodes[B]
    ensures Holds(net'.nodes[A], s, false) && Knows(net'.nodes[A], A, {}, 6100 * MS) && Quiet(net', 6100 * MS)
  {
    var net2 := Breaks(start, evs, net, s, xs);
    net' := Unrecords(start, evs + [Complains()] + [HearsComplaint(s)], net2, s, xs);
  }

  lemma Breaks(start: Net, evs: seq<Event>, net: Net, s: u32, xs: set<Assumption>) returns (net2: Net)
    requires Ran(start, evs, net, xs, 320 * MS) && SmallNumbers !in xs && NoEqualRerr !in xs
    requires CHeard(net, s) && AHeard(net, s)
    ensures RanSince(start, evs + [Complains()] + [HearsComplaint(s)], net2, xs, 3220 * MS, RecordGoes().action,
                     320 * MS)
    ensures A in net2.nodes && net.soup <= net2.soup
    ensures B in net.nodes ==> B in net2.nodes && net2.nodes[B] == net.nodes[B]
    ensures Holds(net2.nodes[A], s, false) && Knows(net2.nodes[A], A, {1}, 6100 * MS) && Quiet(net2, 6100 * MS)
  {
    var net1;
    net1, net2 := Complained(net, s);
    RecordWaits(start, evs, net, net1, net2, s, xs);
  }

  lemma Complained(net: Net, s: u32) returns (net1: Net, net2: Net)
    requires CHeard(net, s) && AHeard(net, s)
    ensures Moves(net, Complains(), net1) && Timely(net, Complains())
    ensures Moves(net1, HearsComplaint(s), net2) && Timely(net1, HearsComplaint(s))
    ensures A in net1.nodes && net1.nodes[A] == net.nodes[A] && A in net2.nodes && net.soup <= net2.soup
    ensures B in net.nodes ==> B in net2.nodes && net2.nodes[B] == net.nodes[B]
    ensures Holds(net2.nodes[A], s, false) && Knows(net2.nodes[A], A, {1}, 6100 * MS) && Quiet(net2, 6100 * MS)
    ensures net2.nodes[A].records == net.nodes[A].records
  {
    TheOther(net, C, A, 3300 * MS, 3300 * MS);
    net1 := ComplainStep(net, {1}, s);
    TheOther(net1, A, C, 3300 * MS, 6100 * MS);
    net2 := LosesStep(net1, s);
  }

  /** The attempt as C sends it on, as A does, and as B does. */
  function OneHop(h: u32): (m: Rreq) { Attempt(h).(hopcnt := 1) }

  function TwoHops(h: u32): (m: Rreq) { Attempt(h).(hopcnt := 2) }

  function ThreeHops(h: u32): (m: Rreq) { Attempt(h).(hopcnt := 3) }

  lemma SameCopies(h: u32)
    ensures Copy(C, 4, Attempt(h)) == AskFrom(C, 3, OneHop(h))
    ensures Copy(A, 3, OneHop(h)) == AskFrom(A, 2, TwoHops(h))
    ensures Copy(B, 2, TwoHops(h)) == AskFrom(B, 1, ThreeHops(h))
  {
  }

  /** C has heard the attempt. */
  function Underway(h: u32): (evs: seq<Event>) {
    [] + [AsksFirst()] + [AsksFurther()] + [PassesOn(D, 4, Attempt(h), C, 320 * MS)]
  }

  lemma CHears(net: Net, h: u32, xs: set<Assumption>) returns (net3: Net)
    requires StartsAt(net, {D, A, B, C}, h) && SmallNumbers !in xs
    ensures Ran(net, Underway(h), net3, xs, 320 * MS)
    ensures A in net3.nodes && Blank(net3.nodes[A], A, h) && B in net3.nodes && Blank(net3.nodes[B], B, h)
    ensures CHeard(net3, Attempt(h).origSeqno) && AskFrom(C, 3, OneHop(h)) in net3.soup
  {
    assert {} + {1} == {1 as u32};
    SameCopies(h);
    FirstHears(net.nodes[C], 320 * MS, 4, Attempt(h));
    var net2 := AskFurther(net, h, xs);
    net3 := Passes(net, [] + [AsksFirst()] + [AsksFurther()], net2, D, 4, Attempt(h), C, {}, xs,
                   320 * MS, 320 * MS, 3300 * MS);
  }

  /** ... and so has A. */
  function Halfway(h: u32): (evs: seq<Event>) { Underway(h) + [PassesOn(C, 3, OneHop(h), A, 320 * MS)] }

  lemma HalfwayThere(net: Net, h: u32, s: u32, xs: set<Assumption>) returns (net4: Net)
    requires StartsAt(net, {D, A, B, C}, h) && SmallNumbers !in xs && s == SeqnoIncr(SeqnoIncr(h))
    ensures Ran(net, Halfway(h), net4, xs, 320 * MS)
    ensures CHeard(net4, s) && AHeard(net4, s)
    ensures B in net4.nodes && Blank(net4.nodes[B], B, h) && AskFrom(A, 2, TwoHops(h)) in net4.soup
  {
    var net3 := CHears(net, h, xs);
    net4 := AHearsToo(net, Underway(h), net3, h, s, xs);
  }

  lemma AHearsToo(start: Net, evs: seq<Event>, net3: Net, h: u32, s: u32, xs: set<Assumption>) returns (net4: Net)
    requires Ran(start, evs, net3, xs, 320 * MS) && SmallNumbers !in xs && s == SeqnoIncr(SeqnoIncr(h))
    requires A in net3.nodes && Blank(net3.nodes[A], A, h) && CHeard(net3, s) && AskFrom(C, 3, OneHop(h)) in net3.soup
    ensures Ran(start, evs + [PassesOn(C, 3, OneHop(h), A, 320 * MS)], net4, xs, 320 * MS)
    ensures CHeard(net4, s) && AHeard(net4, s)
    ensures net4.nodes == net3.nodes[A := net4.nodes[A]] && AskFrom(A, 2, TwoHops(h)) in net4.soup
  {
    assert {} + {1} == {1 as u32};
    SameCopies(h);
    AHearsC(net3.nodes[A], h, 3, OneHop(h));
    net4 := Passes(start, evs, net3, C, 3, OneHop(h), A, {}, xs, 320 * MS, 320 * MS, 3300 * MS);
  }

  function EqualRerrRun(h: u32): (evs: seq<Event>) {
    Halfway(h) + [Complains()] + [HearsComplaint(SeqnoIncr(SeqnoIncr(h)))] + [RecordGoes()]
    + [PassesOn(A, 2, TwoHops(h), B, 5970 * MS)] + [PassesOn(B, 1, ThreeHops(h), A, 6020 * MS)]
  }

  /** A's copy reaches B late, and B's reaches A, which no longer remembers the attempt. */
  lemma ComesBack(start: Net, evs: seq<Event>, net: Net, h: u32, s: u32, xs: set<Assumption>) returns (net': Net)
    requires Ran(start, evs, net, xs, 5920 * MS) && SmallNumbers !in xs && s == SeqnoIncr(SeqnoIncr(h))
    requires A in net.nodes && Knows(net.nodes[A], A, {}, 6100 * MS) && Holds(net.nodes[A], s, false)
    requires B in net.nodes && Blank(net.nodes[B], B, h) && AskFrom(A, 2, TwoHops(h)) in net.soup
    requires Quiet(net, 6100 * MS)
    ensures Ran(start, evs + [PassesOn(A, 2, TwoHops(h), B, 5970 * MS)] + [PassesOn(B, 1, ThreeHops(h), A, 6020 * MS)],
                net', xs, 6020 * MS)
    ensures StandingLoop(net', 6020 * MS)
  {
    SameCopies(h);
    var net1 := Passes(start, evs, net, A, 2, TwoHops(h), B, {}, xs, 5920 * MS, 5970 * MS, 6100 * MS);
    net' := LastTurn(start, evs + [PassesOn(A, 2, TwoHops(h), B, 5970 * MS)], net1, h, s, xs);
  }

  lemma LastTurn(start: Net, evs: seq<Event>, net: Net, h: u32, s: u32, xs: set<Assumption>) returns (net': Net)
    requires Ran(start, evs, net, xs, 5970 * MS) && SmallNumbers !in xs && s == SeqnoIncr(SeqnoIncr(h))
    requires A in net.nodes && Knows(net.nodes[A], A, {}, 6100 * MS) && Holds(net.nodes[A], s, false)
    requires Hop(net, D, B, A) && Quiet(net, 6100 * MS) && AskFrom(B, 1, ThreeHops(h)) in net.soup
    ensures Ran(start, evs + [PassesOn(B, 1, ThreeHops(h), A, 6020 * MS)], net', xs, 6020 * MS)
    ensures StandingLoop(net', 6020 * MS)
  {
    net' := ATurnsStep(net, 1, ThreeHops(h), {}, 6020 * MS);
    GoOrdinarily(start, evs, net, PassesOn(B, 1, ThreeHops(h), A, 6020 * MS), net', xs, 5970 * MS);
  }

  /** A RERR that lists the stored number itself lowers the net sequence number by one. */
  lemma EqualRerrLoop(net: Net, h: u32)
    requires StartsAt(net, {D, A, B, C}, h) && 1 <= h < 0x7fff_fff0
    ensures Initial(net) && EndsInLoop(net, EqualRerrRun(h), ALL - {NoEqualRerr})
  {
    var s: u32, xs := h + 2, ALL - {NoEqualRerr} - {SmallNumbers};
    StartsInitial(net, {D, A, B, C}, h);
    var net4 := HalfwayThere(net, h, s, xs);
    var net7 := Loses(net, Halfway(h), net4, s, xs);
    var net9 := ComesBack(net, Halfway(h) + [Complains()] + [HearsComplaint(s)] + [RecordGoes()], net7, h, s, xs);
    ShortRun(net, EqualRerrRun(h), net9, ALL - {NoEqualRerr}, {D, A, B, C}, h, 6020 * MS);
  }

  // ----- a longer RREP over a unidirectional route -----------------------------------------------------------

  /** D asks for B. A has heard it; its route to D is a one-hop route whose link nobody has questioned. */
  ghost predicate HasNeighborD(n: NodeState, s: u32, unidir: bool) {
    && n.self == A && |n.table.buckets| == TABLE_SIZE && n.blacklist == {} && n.table.seeks == map[]
    && Holds(n, s, true) && n.table.entries[D].next == D && n.table.entries[D].hops == 1
    && n.table.entries[D].unidir == unidir && NoneDue(n.table, 0)
  }

  /** B's route to D goes through A, and its route to A is direct. */
  ghost predicate HasRouteOverA(n: NodeState, s: u32) {
    && n.self == B && |n.table.buckets| == TABLE_SIZE && n.blacklist == {} && n.records == {(D, 0)}
    && Holds(n, s, true) && n.table.entries[D].next == A && n.table.entries[D].hops == 2
    && A in n.table.entries && !n.table.entries[A].unidir && n.table.entries[A].seqno == 0 && NoneDue(n.table, 0)
  }

  function AskB(src: Addr, k: nat, s: u32): (p: Packet) { AskFrom(src, 2 - k, Request(0, B, k, s)) }

  /** B's answer to D. */
  function Answer(h: u32): (p: Packet) {
    Packet(B, A, MAXTTL, RREP_SIZE, RrepMsg(Rrep(0, B, h, D, MY_ROUTE_TIMEOUT, false)))
  }

  lemma AHearsAskB(n: NodeState, h: u32, s: u32)
    requires Blank(n, A, h)
    ensures var (n', out) := Receive(n, 0, AskB(D, 0, s));
            && HasNeighborD(n', s, false) && !n'.table.entries[D].ackUsed && n'.table.entries.Keys == {D}
            && n'.hostSeq == h && n'.rreqId == 0 && AskB(A, 1, s) in out
  {
    var m := Request(0, B, 0, s);
    var n1 := HearNeighbor(n, 0, D);
    assert n1.table.entries.Keys == {D};
    var n2 := ReverseRoute(n1, 0, m, D).0;
    assert AnswerOrForward(n2, 0, m, RREQ_SIZE, 2) == (n2, [AskB(A, 1, s)]);
  }

  lemma BAnswers(n: NodeState, h: u32, s: u32)
    requires Blank(n, B, h)
    ensures var (n', out) := Receive(n, 0, AskB(A, 1, s));
            HasRouteOverA(n', s) && Answer(h) in out
  {
    var m := Request(0, B, 1, s);
    var n1 := HearNeighbor(n, 0, A);
    var n2 := ReverseRoute(n1, 0, m, A).0;
    assert n2.table.entries.Keys == {A, D};
    assert BreakUnidir(n2.table, 0, D) == (n2.table, NoRerr);
    var (n3, out) := RrepSend(n2, 0, Rrep(0, B, h, D, MY_ROUTE_TIMEOUT, false), D, 0, false);
    assert n3 == n2 && out[|out| - 1] == Answer(h);
  }

  /** B's answer gives A a route to B. */
  lemma ATakesAnswer(n: NodeState, h: u32, s: u32)
    requires HasNeighborD(n, s, false) && n.table.entries.Keys == {D}
    ensures var n1 := HearNeighbor(n, 0, B);
            var (t, dr, accepted) := ForwardTable(n1.table, 0, Answer(h).msg.rrep, B);
            && accepted && n1 == n.(table := n1.table) && |t.buckets| == TABLE_SIZE && t.seeks == map[]
            && t.entries.Keys == {D, B} && t.entries[D] == n.table.entries[D] && NoneDue(t, 0)
  {
    assert HearNeighbor(n, 0, B).table.entries.Keys == {D, B};
  }

  /** Forwarding it, A asks D for an acknowledgement and marks the link until it comes. */
  lemma AMarks(n: NodeState, m: Rrep, s: u32)
    requires HasNeighborD(n, s, false) && !n.table.entries[D].ackUsed && n.table.entries.Keys == {D, B}
    ensures var n' := RrepForward(n, 0, m, RREP_SIZE, D, B, MAXTTL - 1).0;
            HasNeighborD(n', s, true) && n'.hostSeq == n.hostSeq && n'.rreqId == n.rreqId
  {
  }

  lemma AForwards(n: NodeState, h: u32, s: u32)
    requires HasNeighborD(n, s, false) && !n.table.entries[D].ackUsed && n.table.entries.Keys == {D}
    requires n.hostSeq == h && n.rreqId == 0
    ensures var n' := Receive(n, 0, Answer(h)).0;
            HasNeighborD(n', s, true) && n'.hostSeq == h && n'.rreqId == 0
  {
    var m := Answer(h).msg.rrep;
    ATakesAnswer(n, h, s);
    var n1 := HearNeighbor(n, 0, B);
    var t := ForwardTable(n1.table, 0, m, B).0;
    AMarks(n1.(table := t), m, s);
    assert RrepProcess(n1, 0, m, RREP_SIZE, B, MAXTTL).0
        == RrepForward(n1.(table := t), 0, m, RREP_SIZE, D, B, MAXTTL - 1).0;
  }

  /** A's own request for D. */
  function AskBack(h: u32, s: u32): (p: Packet) {
    Packet(A, BROADCAST, 3, RREQ_SIZE, RreqMsg(Rreq(0, 0, D, s, A, SeqnoIncr(h), false, false)))
  }

  lemma AAsks(n: NodeState, h: u32, s: u32)
    requires HasNeighborD(n, s, true) && n.hostSeq == h && n.rreqId == 0
    ensures var (n', out) := Discover(n, 0, D);
            Holds(n', s, true) && AskBack(h, s) in out && n'.table.entries[D].unidir
            && n'.self == A && |n'.table.buckets| == TABLE_SIZE && NoneDue(n'.table, 0)
            && n'.table.entries[D].hops == 1
  {
  }

  /** B's answer to that, from its table. */
  predicate FromB(p: Packet, s: u32) {
    && p.src == B && p.dst == A && p.ttl == MAXTTL && p.len == RREP_SIZE && p.msg.RrepMsg?
    && p.msg.rrep.hopcnt == 2 && p.msg.rrep.dest == D && p.msg.rrep.destSeqno == s && p.msg.rrep.orig == A
    && !p.msg.rrep.ack
  }

  /** B after it has taken A's request. */
  ghost predicate HasBoth(n: NodeState, s: u32) {
    && n.self == B && Holds(n, s, true) && n.table.entries[D].next == A && n.table.entries[D].hops == 2
    && A in n.table.entries && !n.table.entries[A].unidir && n.table.entries[A].next == A
    && NoneDue(n.table, 0)
  }

  lemma BTakesA(n: NodeState, h: u32, s: u32)
    requires HasRouteOverA(n, s)
    ensures var n1 := HearNeighbor(n, 0, A);
            |n1.table.buckets| == TABLE_SIZE && n1.records == n.records && n1.blacklist == n.blacklist && n1.self == B
            && HasBoth(ReverseRoute(n1, 0, AskBack(h, s).msg.rreq, A).0, s)
  {
    var m := AskBack(h, s).msg.rreq;
    Hears(n, 0, A);
    HearsLasts(n, 0, A, 0);
    var n1 := HearNeighbor(n, 0, A);
    UpdateTakes(n1.table, 0, A, A, 1, m.origSeqno, ReverseLifetime(1), n1.table.entries[A].unidir);
    UpdateLasts(n1.table, 0, A, A, 1, m.origSeqno, ReverseLifetime(1), n1.table.entries[A].unidir, 0);
  }

  lemma BSends(n: NodeState, h: u32, s: u32) returns (p: Packet)
    requires HasBoth(n, s) && 1 <= s < 0x8000_0000
    ensures var (n', out) := AnswerOrForward(n, 0, AskBack(h, s).msg.rreq, RREQ_SIZE, 3);
            && p in out && FromB(p, s) && D in n'.table.entries && n'.table.entries[D].valid
            && n'.table.entries[D].next == A && NoneDue(n'.table, 0)
  {
    assert BreakUnidir(n.table, 0, A) == (n.table, NoRerr);
    var out := FromTable(n, 0, AskBack(h, s).msg.rreq).1;
    p := out[|out| - 1];
  }

  lemma BAnswersFromTable(n: NodeState, h: u32, s: u32) returns (p: Packet)
    requires HasRouteOverA(n, s) && 1 <= s < 0x8000_0000
    ensures var (n', out) := Receive(n, 0, AskBack(h, s));
            && p in out && FromB(p, s) && D in n'.table.entries && n'.table.entries[D].valid
            && n'.table.entries[D].next == A && NoneDue(n'.table, 0)
  {
    BTakesA(n, h, s);
    p := BSends(ReverseRoute(HearNeighbor(n, 0, A), 0, AskBack(h, s).msg.rreq, A).0, h, s);
  }

  /** A RREP for this node's own request changes the table and goes no further. */
  lemma RrepEndsHere(n: NodeState, now: int, m: Rrep, src: Addr)
    requires |n.table.buckets| == TABLE_SIZE && m.orig == n.self && m.dest != n.self
    requires ForwardTable(n.table, now, m, src).2
    ensures RrepProcess(n, now, m, RREP_SIZE, src, MAXTTL).0 == n.(table := ForwardTable(n.table, now, m, src).0)
  {
  }

  lemma ATakesLonger(n: NodeState, s: u32, p: Packet)
    requires Holds(n, s, true) && n.table.entries[D].unidir && n.self == A && |n.table.buckets| == TABLE_SIZE
    requires FromB(p, s) && n.table.entries[D].hops == 1 && NoneDue(n.table, 0)
    ensures var t := Receive(n, 0, p).0.table;
            D in t.entries && t.entries[D].valid && t.entries[D].next == B && NoneDue(t, 0)
  {
    var m := p.msg.rrep;
    Hears(n, 0, B);
    HearsLasts(n, 0, B, 0);
    var n1 := HearNeighbor(n, 0, B);
    UpdateTakes(n1.table, 0, D, B, 3, s, m.lifetime, true);
    SlipLasts(n1.table, 0, D, B, 3, s, m.lifetime, true, 0);
    RrepEndsHere(n1, 0, m, B);
  }

  // ... as a run

  function DAsksForB(): (ev: Event) { Event(0, Action.Seek(D, B)) }

  function HearsPacket(i: Addr, p: Packet): (ev: Event) { Event(0, Deliver(p, i)) }

  function AAsksForD(): (ev: Event) { Event(0, Action.Seek(A, D)) }

  /** p is B's second answer, whose lifetime depends on the clock alone. */
  function UnidirRun(h: u32, p: Packet): (evs: seq<Event>) {
    var s := SeqnoIncr(h);
    [] + [DAsksForB()] + [HearsPacket(A, AskB(D, 0, s))] + [HearsPacket(B, AskB(A, 1, s))] + [HearsPacket(A, Answer(h))]
    + [AAsksForD()] + [HearsPacket(B, AskBack(h, s))] + [HearsPacket(A, p)]
  }

  /** A packet in the soup is delivered, whatever it is. */
  lemma Arrives(start: Net, evs: seq<Event>, net: Net, p: Packet, i: Addr, xs: set<Assumption>) returns (net': Net)
    requires Ran(start, evs, net, xs, 0) && SmallNumbers !in xs && NoUnidirDowngrade !in xs && !p.msg.RerrMsg?
    requires p in net.soup && i in net.nodes && |net.nodes[i].table.buckets| == TABLE_SIZE
    requires i != p.src && (p.dst == i || p.dst == BROADCAST) && Quiet(net, 0)
    ensures Ran(start, evs + [HearsPacket(i, p)], net', xs, 0)
    ensures var (n', out) := Receive(net.nodes[i], 0, p);
            net' == Commit(net, i, n', out)
  {
    net' := NetStep(net, HearsPacket(i, p));
    Go(start, evs, net, HearsPacket(i, p), net', xs, 0);
  }

  lemma UnidirOpens(net: Net, h: u32, xs: set<Assumption>) returns (net1: Net)
    requires StartsAt(net, {D, A, B}, h) && SmallNumbers !in xs
    ensures Ran(net, [] + [DAsksForB()], net1, xs, 0) && Quiet(net1, 0)
    ensures D in net1.nodes && net1.nodes == net.nodes[D := net1.nodes[D]] && AskB(D, 0, SeqnoIncr(h)) in net1.soup
  {
    net1 := SeekStep(net, 0, B, h);
    RanNowhere(net, xs, 0);
    GoOrdinarily(net, [], net, DAsksForB(), net1, xs, 0);
  }

  /** D's request reaches B over A, and the answer comes back to A. */
  lemma UnidirMarks(start: Net, evs: seq<Event>, net1: Net, h: u32, s: u32, xs: set<Assumption>) returns (net4: Net)
    requires Ran(start, evs, net1, xs, 0) && SmallNumbers !in xs && NoUnidirDowngrade !in xs
    requires A in net1.nodes && Blank(net1.nodes[A], A, h) && B in net1.nodes && Blank(net1.nodes[B], B, h)
    requires AskB(D, 0, s) in net1.soup && Quiet(net1, 0)
    ensures Ran(start, evs + [HearsPacket(A, AskB(D, 0, s))] + [HearsPacket(B, AskB(A, 1, s))]
            + [HearsPacket(A, Answer(h))], net4, xs, 0)
    ensures A in net4.nodes && HasNeighborD(net4.nodes[A], s, true)
    ensures net4.nodes[A].hostSeq == h && net4.nodes[A].rreqId == 0
    ensures B in net4.nodes && HasRouteOverA(net4.nodes[B], s) && Quiet(net4, 0)
  {
    var net2 := ReachesA(start, evs, net1, h, s, xs);
    var net3 := ReachesB(start, evs + [HearsPacket(A, AskB(D, 0, s))], net2, h, s, xs);
    AForwards(net3.nodes[A], h, s);
    net4 := Arrives(start, evs + [HearsPacket(A, AskB(D, 0, s))]
        + [HearsPacket(B, AskB(A, 1, s))], net3, Answer(h), A, xs);
  }

  /** A's only route is that to D, and nothing has been asked of it yet. */
  ghost predicate AtA(net: Net, h: u32, s: u32) {
    A in net.nodes && HasNeighborD(net.nodes[A], s, false) && !net.nodes[A].table.entries[D].ackUsed
    && net.nodes[A].table.entries.Keys == {D} && net.nodes[A].hostSeq == h && net.nodes[A].rreqId == 0
    && Quiet(net, 0)
  }

  lemma ReachesA(start: Net, evs: seq<Event>, net1: Net, h: u32, s: u32, xs: set<Assumption>) returns (net2: Net)
    requires Ran(start, evs, net1, xs, 0) && SmallNumbers !in xs && NoUnidirDowngrade !in xs
    requires A in net1.nodes && Blank(net1.nodes[A], A, h) && AskB(D, 0, s) in net1.soup && Quiet(net1, 0)
    ensures Ran(start, evs + [HearsPacket(A, AskB(D, 0, s))], net2, xs, 0) && AtA(net2, h, s)
    ensures AskB(A, 1, s) in net2.soup && net2.nodes == net1.nodes[A := net2.nodes[A]]
  {
    AHearsAskB(net1.nodes[A], h, s);
    net2 := Arrives(start, evs, net1, AskB(D, 0, s), A, xs);
  }

  lemma ReachesB(start: Net, evs: seq<Event>, net2: Net, h: u32, s: u32, xs: set<Assumption>) returns (net3: Net)
    requires Ran(start, evs, net2, xs, 0) && SmallNumbers !in xs && NoUnidirDowngrade !in xs
    requires AtA(net2, h, s) && B in net2.nodes && Blank(net2.nodes[B], B, h) && AskB(A, 1, s) in net2.soup
    ensures Ran(start, evs + [HearsPacket(B, AskB(A, 1, s))], net3, xs, 0) && AtA(net3, h, s)
    ensures B in net3.nodes && HasRouteOverA(net3.nodes[B], s) && Answer(h) in net3.soup
  {
    BAnswers(net2.nodes[B], h, s);
    net3 := Arrives(start, evs, net2, AskB(A, 1, s), B, xs);
  }

  /** A asks for D itself and takes the longer route from B. */
  lemma UnidirTurns(start: Net, evs: seq<Event>, net4: Net, h: u32, s: u32, xs: set<Assumption>)
    returns (net7: Net, p: Packet)
    requires Ran(start, evs, net4, xs, 0) && SmallNumbers !in xs && NoUnidirDowngrade !in xs && 1 <= s < 0x8000_0000
    requires A in net4.nodes && HasNeighborD(net4.nodes[A], s, true)
    requires net4.nodes[A].hostSeq == h && net4.nodes[A].rreqId == 0
    requires B in net4.nodes && HasRouteOverA(net4.nodes[B], s) && Quiet(net4, 0)
    ensures Ran(start, evs + [AAsksForD()] + [HearsPacket(B, AskBack(h, s))] + [HearsPacket(A, p)], net7, xs, 0)
    ensures FromB(p, s) && StandingLoop(net7, 0)
  {
    AAsks(net4.nodes[A], h, s);
    var net5 := NetStep(net4, AAsksForD());
    GoOrdinarily(start, evs, net4, AAsksForD(), net5, xs, 0);
    net7, p := UnidirCloses(start, evs + [AAsksForD()], net5, h, s, xs);
  }

  lemma UnidirCloses(start: Net, evs: seq<Event>, net5: Net, h: u32, s: u32, xs: set<Assumption>)
    returns (net7: Net, p: Packet)
    requires Ran(start, evs, net5, xs, 0) && SmallNumbers !in xs && NoUnidirDowngrade !in xs && 1 <= s < 0x8000_0000
    requires A in net5.nodes && Holds(net5.nodes[A], s, true) && net5.nodes[A].table.entries[D].unidir
    requires net5.nodes[A].self == A && |net5.nodes[A].table.buckets| == TABLE_SIZE
    requires net5.nodes[A].table.entries[D].hops == 1 && AskBack(h, s) in net5.soup
    requires B in net5.nodes && HasRouteOverA(net5.nodes[B], s) && Quiet(net5, 0)
    ensures Ran(start, evs + [HearsPacket(B, AskBack(h, s))] + [HearsPacket(A, p)], net7, xs, 0)
    ensures FromB(p, s) && StandingLoop(net7, 0)
  {
    var net6;
    net6, p := BAnswersBack(start, evs, net5, h, s, xs);
    ATakesLonger(net6.nodes[A], s, p);
    net7 := Arrives(start, evs + [HearsPacket(B, AskBack(h, s))], net6, p, A, xs);
    TwoHopsMakeALoop(net7, 0);
  }

  lemma BAnswersBack(start: Net, evs: seq<Event>, net5: Net, h: u32, s: u32, xs: set<Assumption>)
    returns (net6: Net, p: Packet)
    requires Ran(start, evs, net5, xs, 0) && SmallNumbers !in xs && NoUnidirDowngrade !in xs && 1 <= s < 0x8000_0000
    requires AskBack(h, s) in net5.soup && B in net5.nodes && HasRouteOverA(net5.nodes[B], s) && Quiet(net5, 0)
    ensures Ran(start, evs + [HearsPacket(B, AskBack(h, s))], net6, xs, 0)
    ensures FromB(p, s) && p in net6.soup && Hop(net6, D, B, A) && Quiet(net6, 0)
    ensures net6.nodes == net5.nodes[B := net6.nodes[B]]
  {
    p := BAnswersFromTable(net5.nodes[B], h, s);
    net6 := Arrives(start, evs, net5, AskBack(h, s), B, xs);
  }

  lemma UnidirRan(net: Net, h: u32, s: u32, xs: set<Assumption>) returns (net7: Net, p: Packet)
    requires StartsAt(net, {D, A, B}, h) && 1 <= h < 0x7fff_fff0 && s == SeqnoIncr(h)
    requires SmallNumbers !in xs && NoUnidirDowngrade !in xs
    ensures FromB(p, s) && Ran(net, UnidirRun(h, p), net7, xs, 0) && StandingLoop(net7, 0)
  {
    var net1 := UnidirOpens(net, h, xs);
    var net4 := UnidirMarks(net, [] + [DAsksForB()], net1, h, s, xs);
    var evs := [] + [DAsksForB()] + [HearsPacket(A, AskB(D, 0, s))] + [HearsPacket(B, AskB(A, 1, s))]
        + [HearsPacket(A, Answer(h))];
    net7, p := UnidirTurns(net, evs, net4, h, s, xs);
  }

  /** RT_UNIDIR lets a longer RREP of equal number replace a VALID route. All of it takes place in one instant;
      it presupposes that RREPs are sent, that is, that `wait_on_reboot` has been cleared. */
  lemma UnidirLoop(net: Net, h: u32) returns (p: Packet)
    requires StartsAt(net, {D, A, B}, h) && 1 <= h < 0x7fff_fff0
    ensures Initial(net) && FromB(p, h + 1)
    ensures EndsInLoop(net, UnidirRun(h, p), ALL - {NoUnidirDowngrade})
  {
    var net7;
    StartsInitial(net, {D, A, B}, h);
    net7, p := UnidirRan(net, h, h + 1, ALL - {NoUnidirDowngrade} - {SmallNumbers});
    ShortRun(net, UnidirRun(h, p), net7, ALL - {NoUnidirDowngrade}, {D, A, B}, h, 0);
  }
}
