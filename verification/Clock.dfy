/**
 Runs in time: with a clock that does not run backwards, in which every route timer of every node fires when it
 is due, and no other timer fires before its period is over. Safety does not need this, since an event may
 happen at any time there; a run that is to show a failure does.
 */
module Clock {
  import opened Params
  import opened RouteSpec
  import opened AodvSpec
  import opened Network

  ghost predicate Moves(net: Net, ev: Event, net': Net) {
    Enabled(net, ev.action) && net' == NetStep(net, ev)
  }

  /** The entry's rt_timer should have fired by now. */
  predicate Due(e: Entry, now: int) { e.armed && e.deadline <= now }

  ghost predicate NoneDue(t: Table, now: int) {
    forall d :: d in t.entries ==> !Due(t.entries[d], now)
  }

  /** No route timer is due at any node but i. */
  ghost predicate QuietBut(net: Net, i: Addr, now: int) {
    forall j :: j in net.nodes && j != i ==> NoneDue(net.nodes[j].table, now)
  }

  /** No route timer is due anywhere. */
  ghost predicate Quiet(net: Net, now: int) {
    forall j :: j in net.nodes ==> NoneDue(net.nodes[j].table, now)
  }

  /** No event finds a route timer due at any node, except the one that fires, and that one fires on time. */
  ghost predicate Timely(net: Net, ev: Event)
    requires Enabled(net, ev.action)
  {
    var i, t, a := Site(ev.action), net.nodes[Site(ev.action)].table, ev.action;
    && QuietBut(net, i, ev.now)
    && forall d :: d in t.entries ==>
         && (Due(t.entries[d], ev.now) <==> a == RouteFires(i, d))
         && (a == RouteFires(i, d) ==> t.entries[d].deadline == ev.now)
  }

  /** What the timer behind a timer event was set for, in milliseconds; a route's own deadline says so itself. */
  function Period(n: NodeState, a: Action): (ms: int)
    requires Ready(n, a)
  {
    match a
    case SeekFires(_, d) => 2 * NODE_TRAVERSAL_TIME * (n.table.seeks[d].ttl + TIMEOUT_BUFFER)
    case RecordFires(_, _, _) => PATH_DISCOVERY_TIME
    case AckFires(_, _) => NEXT_HOP_WAIT
    case BlacklistFires(_, _) => BLACKLIST_TIMEOUT
    case _ => 0
  }

  /** The timer behind a runs in state m as it does in state n. */
  predicate Pending(m: NodeState, n: NodeState, a: Action) {
    match a
    case SeekFires(_, d) => d in m.table.seeks && d in n.table.seeks && m.table.seeks[d] == n.table.seeks[d]
    case RecordFires(_, orig, id) => (orig, id) in m.records
    case AckFires(_, d) => d in m.table.entries && m.table.entries[d].ackUsed
    case BlacklistFires(_, d) => d in m.blacklist
    case _ => true
  }

  /** When event k happens its timer has been running for its period, or for longer. */
  ghost predicate Ripe(states: seq<Net>, evs: seq<Event>, k: nat)
    requires k < |evs| <= |states| && Enabled(states[k], evs[k].action)
  {
    var a := evs[k].action;
    var n := states[k].nodes[Site(a)];
    forall j :: 0 <= j <= k && evs[j].now > evs[k].now - 1000 * Period(n, a) ==>
                  Site(a) in states[j].nodes && Pending(states[j].nodes[Site(a)], n, a)
  }

  predicate Monotone(evs: seq<Event>) {
    forall i, j :: 0 <= i < j < |evs| ==> evs[i].now <= evs[j].now
  }

  /** `states` is a run of `evs` in time, event by event. */
  ghost predicate Timed(states: seq<Net>, evs: seq<Event>) {
    && |states| == |evs| + 1 && Monotone(evs)
    && forall k :: 0 <= k < |evs| ==>
         Moves(states[k], evs[k], states[k + 1]) && Timely(states[k], evs[k]) && Ripe(states, evs, k)
  }

  ghost predicate InTime(net: Net, evs: seq<Event>) {
    exists states :: Timed(states, evs) && states[0] == net
  }

  /** A routing loop, when no route timer is due anywhere. */
  ghost predicate StandingLoop(net: Net, now: int) {
    !LoopFree(net) && Quiet(net, now)
  }
}
