/**
 How to build a run in time, one event after the other.
 */
module TimedRuns {
  import opened RouteSpec
  import opened AodvSpec
  import opened Network
  import opened Clock

  // ----- runs, one event at a time ---------------------------------------------------------------------

  /** An event that no assumption but that on numbers speaks of, and whose only timer is a route's. */
  predicate Ordinary(a: Action) {
    !a.RouteFires? && !Clocked(a) && (a.Deliver? ==> !a.p.msg.RerrMsg? && !a.p.msg.RrepMsg?)
  }

  predicate Clocked(a: Action) { a.SeekFires? || a.RecordFires? || a.AckFires? || a.BlacklistFires? }

  ghost predicate MeetsAll(net: Net, ev: Event, xs: set<Assumption>)
    requires Enabled(net, ev.action)
  {
    forall x :: x in xs ==> Meets(net, ev, x)
  }

  /** A run in time, each event meeting every assumption in xs. */
  ghost predicate Trace(states: seq<Net>, evs: seq<Event>, xs: set<Assumption>) {
    Timed(states, evs)
    && forall k :: 0 <= k < |evs| ==> Moves(states[k], evs[k], states[k + 1]) && MeetsAll(states[k], evs[k], xs)
  }

  ghost predicate From(states: seq<Net>, evs: seq<Event>, net: Net, net': Net, now: int) {
    |states| == |evs| + 1 && states[0] == net && states[|evs|] == net'
    && forall k :: 0 <= k < |evs| ==> evs[k].now <= now
  }

  /** `evs` leads from net to net' in such a run, no later than now. */
  ghost predicate Ran(net: Net, evs: seq<Event>, net': Net, xs: set<Assumption>, now: int) {
    exists states :: Trace(states, evs, xs) && From(states, evs, net, net', now)
  }

  /** ... and a's timer has been running since. */
  ghost predicate RanSince(net: Net, evs: seq<Event>, net': Net, xs: set<Assumption>, now: int, a: Action, since: int) {
    exists states :: Trace(states, evs, xs) && From(states, evs, net, net', now) && Since(states, evs, net', a, since)
  }

  ghost predicate Since(states: seq<Net>, evs: seq<Event>, net': Net, a: Action, since: int) {
    |states| == |evs| + 1 && StillPending(net', net', a)
    && forall j :: 0 <= j < |evs| && evs[j].now > since ==> StillPending(states[j], net', a)
  }

  predicate StillPending(net: Net, net': Net, a: Action) {
    Site(a) in net.nodes && Site(a) in net'.nodes && Pending(net.nodes[Site(a)], net'.nodes[Site(a)], a)
  }

  lemma RanNowhere(net: Net, xs: set<Assumption>, now: int)
    ensures Ran(net, [], net, xs, now)
  {
    assert Trace([net], [], xs) && From([net], [], net, net, now);
  }

  lemma RipeStays(states: seq<Net>, evs: seq<Event>, k: nat, s: Net, ev: Event)
    requires k < |evs| < |states| && Enabled(states[k], evs[k].action) && Ripe(states, evs, k)
    ensures Ripe(states + [s], evs + [ev], k)
  {
    var states', evs' := states + [s], evs + [ev];
    forall j | 0 <= j <= k
      ensures states'[j] == states[j] && evs'[j] == evs[j]
    {
    }
  }

  lemma TraceOneMore(states: seq<Net>, evs: seq<Event>, xs: set<Assumption>, ev: Event, s: Net)
    requires Trace(states, evs, xs) && Moves(states[|evs|], ev, s) && Timely(states[|evs|], ev)
    requires MeetsAll(states[|evs|], ev, xs) && (forall k :: 0 <= k < |evs| ==> evs[k].now <= ev.now)
    requires Ripe(states + [s], evs + [ev], |evs|)
    ensures Trace(states + [s], evs + [ev], xs)
  {
    var states', evs' := states + [s], evs + [ev];
    forall k | 0 <= k < |evs'|
      ensures Moves(states'[k], evs'[k], states'[k + 1]) && Timely(states'[k], evs'[k]) && Ripe(states', evs', k)
      ensures MeetsAll(states'[k], evs'[k], xs)
    {
      if k < |evs| {
        assert states'[k] == states[k] && evs'[k] == evs[k] && states'[k + 1] == states[k + 1];
        RipeStays(states, evs, k, s, ev);
      }
    }
  }

  lemma Go(net: Net, evs: seq<Event>, net1: Net, ev: Event, net2: Net, xs: set<Assumption>, now: int)
    requires Ran(net, evs, net1, xs, now) && Moves(net1, ev, net2) && Timely(net1, ev) && MeetsAll(net1, ev, xs)
    requires now <= ev.now && !Clocked(ev.action)
    ensures Ran(net, evs + [ev], net2, xs, ev.now)
  {
    var states :| Trace(states, evs, xs) && From(states, evs, net, net1, now);
    TraceOneMore(states, evs, xs, ev, net2);
    assert From(states + [net2], evs + [ev], net, net2, ev.now);
  }

  lemma StartsWaiting(net: Net, evs: seq<Event>, net1: Net, xs: set<Assumption>, now: int, a: Action)
    requires Ran(net, evs, net1, xs, now) && StillPending(net1, net1, a)
    ensures RanSince(net, evs, net1, xs, now, a, now)
  {
    var states :| Trace(states, evs, xs) && From(states, evs, net, net1, now);
    assert Since(states, evs, net1, a, now);
  }

  lemma GoOn(net: Net, evs: seq<Event>, net1: Net, ev: Event, net2: Net, xs: set<Assumption>, now: int,
             a: Action, since: int)
    requires RanSince(net, evs, net1, xs, now, a, since)
    requires Moves(net1, ev, net2) && Timely(net1, ev) && MeetsAll(net1, ev, xs) && now <= ev.now && !Clocked(ev.action)
    requires StillPending(net1, net2, a) && StillPending(net2, net2, a)
    ensures RanSince(net, evs + [ev], net2, xs, ev.now, a, since)
  {
    var states :| Trace(states, evs, xs) && From(states, evs, net, net1, now) && Since(states, evs, net1, a, since);
    TraceOneMore(states, evs, xs, ev, net2);
    var states', evs' := states + [net2], evs + [ev];
    assert From(states', evs', net, net2, ev.now);
    forall j | 0 <= j < |evs'| && evs'[j].now > since
      ensures StillPending(states'[j], net2, a)
    {
      if j < |evs| {
        assert states'[j] == states[j] && evs'[j] == evs[j];
      }
    }
    assert Since(states', evs', net2, a, since);
  }

  /** The timer fires after its period. */
  lemma GoRipe(net: Net, evs: seq<Event>, net1: Net, ev: Event, net2: Net, xs: set<Assumption>, now: int, since: int)
    requires RanSince(net, evs, net1, xs, now, ev.action, since)
    requires Moves(net1, ev, net2) && Timely(net1, ev) && MeetsAll(net1, ev, xs) && now <= ev.now
    requires since + 1000 * Period(net1.nodes[Site(ev.action)], ev.action) <= ev.now
    ensures Ran(net, evs + [ev], net2, xs, ev.now)
  {
    var states :| Trace(states, evs, xs) && From(states, evs, net, net1, now)
                  && Since(states, evs, net1, ev.action, since);
    var states', evs' := states + [net2], evs + [ev];
    assert states'[|evs|] == net1;
    forall j | 0 <= j <= |evs| && evs'[j].now > since
      ensures StillPending(states'[j], net1, ev.action)
    {
      if j < |evs| {
        assert states'[j] == states[j] && evs'[j] == evs[j];
      }
    }
    TraceOneMore(states, evs, xs, ev, net2);
    assert From(states', evs', net, net2, ev.now);
  }

  lemma GoOrdinarily(net: Net, evs: seq<Event>, net1: Net, ev: Event, net2: Net, xs: set<Assumption>, now: int)
    requires Ran(net, evs, net1, xs, now) && Moves(net1, ev, net2) && Timely(net1, ev) && now <= ev.now
    requires Ordinary(ev.action) && SmallNumbers !in xs
    ensures Ran(net, evs + [ev], net2, xs, ev.now)
  {
    Go(net, evs, net1, ev, net2, xs, now);
  }

  lemma {:induction false} TraceMeets(states: seq<Net>, evs: seq<Event>, xs: set<Assumption>)
    requires |states| == |evs| + 1
    requires forall k :: 0 <= k < |evs| ==> Moves(states[k], evs[k], states[k + 1]) && MeetsAll(states[k], evs[k], xs)
    ensures RunsMeeting(states[0], evs, xs) && Outcome(states[0], evs) == states[|evs|]
    decreases evs
  {
    if evs != [] {
      assert Moves(states[0], evs[0], states[1]);
      TraceMeets(states[1..], evs[1..], xs);
    }
  }

  lemma RanMeets(net: Net, evs: seq<Event>, net': Net, xs: set<Assumption>, now: int)
    requires Ran(net, evs, net', xs, now)
    ensures RunsMeeting(net, evs, xs) && Outcome(net, evs) == net' && InTime(net, evs)
  {
    var states :| Trace(states, evs, xs) && From(states, evs, net, net', now);
    TraceMeets(states, evs, xs);
  }

  /** The run can happen in time, each event meets every assumption in xs, and it ends in a routing loop of
      routes that are not due to expire. */
  ghost predicate EndsInLoop(net: Net, evs: seq<Event>, xs: set<Assumption>) {
    RunsMeeting(net, evs, xs) && InTime(net, evs) && evs != []
    && StandingLoop(Outcome(net, evs), evs[|evs| - 1].now)
  }

  lemma Ends(net: Net, evs: seq<Event>, net': Net, xs: set<Assumption>, now: int)
    requires Ran(net, evs, net', xs, now) && evs != [] && now == evs[|evs| - 1].now && StandingLoop(net', now)
    ensures EndsInLoop(net, evs, xs)
  {
    RanMeets(net, evs, net', xs, now);
  }
}
