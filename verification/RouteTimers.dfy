/**
 The routing table and the timer queue together: which timer calls each table operation makes, and that every
 running rt_timer is linked exactly once, with the deadline of its entry, whatever else uses the queue.
 */
module RouteTimers {
  import opened Words
  import opened Params
  import opened RouteSpec
  import opened TimerOrder
  import opened TableRuns
  import opened LifeCycle
  import C = Clock
  import Q = RreqWindow

  /** tq, and while timer_timeout runs its list of expired timers. */
  datatype Timers = Timers(queue: seq<Q.Pending>, expired: seq<Q.Pending>)

  /** timer_set_timeout and timer_remove on the rt_timer of an entry. */
  datatype Call = SetTimeout(dest: Addr, msec: int) | Cancel(dest: Addr)

  /** An entry's rt_timer, linked with this deadline. */
  function Timer(d: Addr, deadline: int): (p: Q.Pending) { Q.Pending(Q.Other(Q.Route(d)), deadline) }

  function Unlink(ts: Timers, o: Q.Owner): (ts': Timers) {
    Timers(Q.Disarmed(ts.queue, o), Q.Disarmed(ts.expired, o))
  }

  /** timer_set_timeout. */
  function Set(ts: Timers, now: int, o: Q.Owner, msec: int): (ts': Timers) {
    var r := Unlink(ts, o);
    if msec < 0 then r else r.(queue := Q.Armed(r.queue, Q.Pending(o, now + 1000 * msec)))
  }

  function Called(ts: Timers, now: int, c: Call): (ts': Timers) {
    match c
    case SetTimeout(d, msec) => Set(ts, now, Q.Other(Q.Route(d)), msec)
    case Cancel(d) => Unlink(ts, Q.Other(Q.Route(d)))
  }

  function AllCalled(ts: Timers, now: int, cs: seq<Call>): (ts': Timers)
    decreases |cs|
  {
    if cs == [] then ts else AllCalled(Called(ts, now, cs[0]), now, cs[1..])
  }

  lemma {:induction false} AllCalledAppend(ts: Timers, now: int, a: seq<Call>, b: seq<Call>)
    ensures AllCalled(ts, now, a + b) == AllCalled(AllCalled(ts, now, a), now, b)
    decreases |a|
  {
    if a == [] {
      assert a + b == b;
    } else {
      assert (a + b)[1..] == a[1..] + b;
      AllCalledAppend(Called(ts, now, a[0]), now, a[1..], b);
    }
  }

  lemma OneCall(ts: Timers, now: int, c: Call)
    ensures AllCalled(ts, now, [c]) == Called(ts, now, c)
  {
    assert [c][1..] == [];
  }

  // ----- the calls of a table operation ------------------------------------------------------------------

  /** rt_table_invalidate, on a VALID entry only (routing_table.c:273); timer_set_timeout unlinks the timer. */
  function InvalidateCalls(t: Table, d: Addr): (cs: seq<Call>) {
    if d in t.entries && t.entries[d].valid then [SetTimeout(d, DELETE_PERIOD)] else []
  }

  function BreakCalls(t: Table, broken: Addr, u: Addr): (cs: seq<Call>) {
    if u in t.entries && t.entries[u].next == broken && u != broken then InvalidateCalls(t, u) else []
  }

  function CascadeCalls(t: Table, now: int, broken: Addr, work: seq<Addr>, dr: Draft): (cs: seq<Call>)
    decreases work
  {
    if work == [] then []
    else
      var u := work[0];
      var (t1, dr1) := CascadeOne(t, now, broken, u, dr);
      BreakCalls(t, broken, u) + CascadeCalls(t1, now, broken, work[1..], dr1)
  }

  function LinkBreakCalls(t: Table, now: int, d: Addr): (cs: seq<Call>)
    requires d in t.entries
  {
    if t.entries[d].hops != 1 then []
    else
      var t1 := InvalidateSpec(t, now, d);
      var e := t1.entries[d];
      InvalidateCalls(t, d)
      + CascadeCalls(ClearPrecursorsSpec(t1, d), now, d, Flatten(t.buckets), Report(NoRerr, d, e.seqno, e.precs))
  }

  /** rt_table_update_timeout. */
  function ExtendCalls(t: Table, now: int, d: Addr, lifetime: u32): (cs: seq<Call>)
    requires d in t.entries
  {
    if Extends(t.entries[d], now, lifetime) then [SetTimeout(d, AsSigned(lifetime))] else []
  }

  /** What an update finds after the link break it may cause. */
  function BeforeInstalling(t: Table, now: int, d: Addr, next: Addr, hops: nat): (t2: Table)
    requires d in t.entries
    ensures d in t2.entries
  {
    var t1 := AnnounceSpec(t, d, next, true);
    if hops > 1 && t1.entries[d].hops == 1 then LinkBreakSpec(t1, now, d).0 else t1
  }

  function BreakFirstCalls(t: Table, now: int, d: Addr, next: Addr, hops: nat): (cs: seq<Call>)
    requires d in t.entries
  {
    if hops > 1 && t.entries[d].hops == 1 then LinkBreakCalls(AnnounceSpec(t, d, next, true), now, d) else []
  }

  /** The timer calls of one table operation, in order. */
  function Calls(t: Table, now: int, op: Op): (cs: seq<Call>)
    requires Allowed(t, op)
  {
    match op
    case Insert(d, _, _, _, lifetime) => if lifetime != 0 then [SetTimeout(d, AsSigned(lifetime))] else []
    case Update(d, next, hops, _, lifetime, _) =>
      BreakFirstCalls(t, now, d, next, hops)
      + ExtendCalls(BeforeInstalling(t, now, d, next, hops), now, d, lifetime)
    case Prolong(d, lifetime) => ExtendCalls(t, now, d, lifetime)
    case Invalidate(d) => InvalidateCalls(t, d)
    case LinkBreak(d) => LinkBreakCalls(t, now, d)
    case Delete(d) => [Cancel(d)]
    case _ => []
  }

  // ----- well-formed timers ------------------------------------------------------------------------------

  predicate Has(ts: Timers, p: Q.Pending) { p in ts.queue || p in ts.expired }

  /** Both lists are in order, and no timer is linked twice. */
  ghost predicate WellFormed(ts: Timers) {
    && Ordered(Q.Deadlines(ts.queue)) && Ordered(Q.Deadlines(ts.expired))
    && Q.OneTimerEach(ts.queue + ts.expired)
  }

  lemma UnlinkKeeps(ts: Timers, o: Q.Owner)
    requires WellFormed(ts)
    ensures WellFormed(Unlink(ts, o))
    ensures forall p :: Has(Unlink(ts, o), p) <==> Has(ts, p) && p.owner != o
  {
    Q.OneTimerSplit(ts.queue, ts.expired);
    Q.DisarmedKeeps(ts.queue, o);
    Q.DisarmedKeeps(ts.expired, o);
    Q.DisarmedMembers(ts.queue, o);
    Q.DisarmedMembers(ts.expired, o);
    Q.OneTimerSplit(Q.Disarmed(ts.queue, o), Q.Disarmed(ts.expired, o));
  }

  lemma SetKeeps(ts: Timers, now: int, o: Q.Owner, msec: int)
    requires WellFormed(ts)
    ensures WellFormed(Set(ts, now, o, msec))
    ensures forall p :: Has(Set(ts, now, o, msec), p)
                        <==> (Has(ts, p) && p.owner != o) || (msec >= 0 && p == Q.Pending(o, now + 1000 * msec))
  {
    UnlinkKeeps(ts, o);
    if msec >= 0 {
      var r, p := Unlink(ts, o), Q.Pending(o, now + 1000 * msec);
      assert Q.Free(r.queue, o) && Q.Free(r.expired, o) by {
        assert forall p :: p in r.queue || p in r.expired ==> Has(r, p);
      }
      Q.OneTimerSplit(r.queue, r.expired);
      Q.ArmedKeeps(r.queue, p);
      Q.OneTimerSplit(Q.Armed(r.queue, p), r.expired);
    }
  }

  // ----- table and timers in step --------------------------------------------------------------------------

  /** The rt_timer of d is running and runs out at `deadline`; d is none of those just taken off the list. */
  predicate Runs(t: Table, busy: set<Addr>, d: Addr, deadline: int) {
    d in t.entries && d !in busy && t.entries[d].armed && t.entries[d].deadline == deadline
  }

  /** The linked route timers are exactly the running ones. */
  ghost predicate InStep(t: Table, ts: Timers, busy: set<Addr>) {
    WellFormed(ts) && forall d, deadline :: Has(ts, Timer(d, deadline)) <==> Runs(t, busy, d, deadline)
  }

  /** No timer starts, stops or moves. */
  ghost predicate SameTimers(t: Table, t': Table) {
    t'.entries.Keys == t.entries.Keys
    && forall d :: d in t.entries ==>
         t'.entries[d].armed == t.entries[d].armed && t'.entries[d].deadline == t.entries[d].deadline
  }

  lemma SameKeepsStep(t: Table, t': Table, ts: Timers, busy: set<Addr>)
    requires InStep(t, ts, busy) && SameTimers(t, t')
    ensures InStep(t', ts, busy)
  {
    forall d, deadline
      ensures Runs(t', busy, d, deadline) <==> Runs(t, busy, d, deadline)
    {
    }
  }

  /** A call on one timer, and what it does to the entry. */
  lemma SetKeepsStep(t: Table, t': Table, ts: Timers, now: int, d: Addr, msec: int, busy: set<Addr>)
    requires InStep(t, ts, busy) && d in t'.entries && t'.entries == t.entries[d := t'.entries[d]]
    requires t'.entries[d].armed == (msec >= 0) && (msec >= 0 ==> t'.entries[d].deadline == now + 1000 * msec)
    ensures InStep(t', Called(ts, now, SetTimeout(d, msec)), busy - {d})
  {
    SetKeeps(ts, now, Q.Other(Q.Route(d)), msec);
    var ts' := Called(ts, now, SetTimeout(d, msec));
    forall a, deadline
      ensures Has(ts', Timer(a, deadline)) <==> Runs(t', busy - {d}, a, deadline)
    {
      assert Has(ts, Timer(a, deadline)) <==> Runs(t, busy, a, deadline);
    }
  }

  lemma InvalidateKeepsStep(t: Table, ts: Timers, now: int, d: Addr, busy: set<Addr>)
    requires InStep(t, ts, busy) && d in t.entries && (t.entries[d].valid || d !in busy)
    ensures InStep(InvalidateSpec(t, now, d), AllCalled(ts, now, InvalidateCalls(t, d)), busy - {d})
  {
    if t.entries[d].valid {
      OneCall(ts, now, SetTimeout(d, DELETE_PERIOD));
      SetKeepsStep(t, InvalidateSpec(t, now, d), ts, now, d, DELETE_PERIOD, busy);
    } else {
      assert busy - {d} == busy;
    }
  }

  lemma {:induction false} CascadeKeepsStep(t: Table, ts: Timers, now: int, broken: Addr, work: seq<Addr>, dr: Draft)
    requires InStep(t, ts, {})
    ensures InStep(Cascade(t, now, broken, work, dr).0,
                   AllCalled(ts, now, CascadeCalls(t, now, broken, work, dr)), {})
    decreases work
  {
    if work != [] {
      var u, rest := work[0], work[1..];
      assert work == [u] + rest;
      CascadeStep(t, now, broken, u, rest, dr);
      var (t1, dr1) := CascadeOne(t, now, broken, u, dr);
      var cs := BreakCalls(t, broken, u);
      AllCalledAppend(ts, now, cs, CascadeCalls(t1, now, broken, rest, dr1));
      if cs != [] {
        InvalidateKeepsStep(t, ts, now, u, {});
        SameKeepsStep(InvalidateSpec(t, now, u), t1, AllCalled(ts, now, cs), {} - {u});
      }
      CascadeKeepsStep(t1, AllCalled(ts, now, cs), now, broken, rest, dr1);
    }
  }

  lemma LinkBreakKeepsStep(t: Table, ts: Timers, now: int, d: Addr, busy: set<Addr>)
    requires d in t.entries && InStep(t, ts, busy) && busy <= {d}
    requires busy == {} || (t.entries[d].hops == 1 && t.entries[d].valid)
    ensures InStep(LinkBreakSpec(t, now, d).0, AllCalled(ts, now, LinkBreakCalls(t, now, d)), {})
  {
    if t.entries[d].hops == 1 {
      var t1 := InvalidateSpec(t, now, d);
      var e := t1.entries[d];
      var dr := Report(NoRerr, d, e.seqno, e.precs);
      var t2, work, cs := ClearPrecursorsSpec(t1, d), Flatten(t.buckets), InvalidateCalls(t, d);
      InvalidateKeepsStep(t, ts, now, d, busy);
      assert busy - {d} == {};
      SameKeepsStep(t1, t2, AllCalled(ts, now, cs), {});
      CascadeKeepsStep(t2, AllCalled(ts, now, cs), now, d, work, dr);
      AllCalledAppend(ts, now, cs, CascadeCalls(t2, now, d, work, dr));
    }
  }

  lemma ExtendKeepsStep(t: Table, ts: Timers, now: int, d: Addr, lifetime: u32, t': Table)
    requires InStep(t, ts, {}) && d in t.entries && d in t'.entries && t'.entries == t.entries[d := t'.entries[d]]
    requires var e := Extend(t.entries[d], now, lifetime);
             t'.entries[d].armed == e.armed && t'.entries[d].deadline == e.deadline
    ensures InStep(t', AllCalled(ts, now, ExtendCalls(t, now, d, lifetime)), {})
  {
    if Extends(t.entries[d], now, lifetime) {
      OneCall(ts, now, SetTimeout(d, AsSigned(lifetime)));
      SetKeepsStep(t, t', ts, now, d, AsSigned(lifetime), {});
      assert {} - {d} == {};
    } else {
      SameKeepsStep(t, t', ts, {});
    }
  }

  lemma UpdateKeepsStep(t: Table, ts: Timers, now: int, op: Op)
    requires |t.buckets| == TABLE_SIZE && Allowed(t, op) && op.Update? && InStep(t, ts, {})
    ensures InStep(Do(t, now, op), AllCalled(ts, now, Calls(t, now, op)), {})
  {
    var d := op.d;
    var t2, cs := BeforeInstalling(t, now, d, op.next, op.hops), BreakFirstCalls(t, now, d, op.next, op.hops);
    BreakFirstKeepsStep(t, ts, now, d, op.next, op.hops);
    AllCalledAppend(ts, now, cs, ExtendCalls(t2, now, d, op.lifetime));
    ExtendKeepsStep(t2, AllCalled(ts, now, cs), now, d, op.lifetime, Do(t, now, op));
  }

  lemma BreakFirstKeepsStep(t: Table, ts: Timers, now: int, d: Addr, next: Addr, hops: nat)
    requires d in t.entries && InStep(t, ts, {})
    ensures InStep(BeforeInstalling(t, now, d, next, hops),
                   AllCalled(ts, now, BreakFirstCalls(t, now, d, next, hops)), {})
  {
    var t1 := AnnounceSpec(t, d, next, true);
    SameKeepsStep(t, t1, ts, {});
    if hops > 1 && t.entries[d].hops == 1 {
      LinkBreakKeepsStep(t1, ts, now, d, {});
    }
  }

  /** Each operation's calls keep the timers in step with the table. */
  lemma DoKeepsStep(t: Table, ts: Timers, now: int, op: Op)
    requires |t.buckets| == TABLE_SIZE && Allowed(t, op) && InStep(t, ts, {})
    ensures InStep(Do(t, now, op), AllCalled(ts, now, Calls(t, now, op)), {})
  {
    var t' := Do(t, now, op);
    match op
    case Update(_, _, _, _, _, _) => UpdateKeepsStep(t, ts, now, op);
    case Prolong(d, lifetime) => ExtendKeepsStep(t, ts, now, d, lifetime, t');
    case LinkBreak(d) => LinkBreakKeepsStep(t, ts, now, d, {});
    case Invalidate(d) =>
      InvalidateKeepsStep(t, ts, now, d, {});
      assert {} - {d} == {};
    case Insert(d, _, _, _, lifetime) => InsertKeepsStep(t, ts, now, op);
    case Delete(d) => DeleteKeepsStep(t, ts, now, d, {});
    case _ => SameKeepsStep(t, t', ts, {});
  }

  lemma InsertKeepsStep(t: Table, ts: Timers, now: int, op: Op)
    requires |t.buckets| == TABLE_SIZE && Allowed(t, op) && op.Insert? && InStep(t, ts, {})
    ensures InStep(Do(t, now, op), AllCalled(ts, now, Calls(t, now, op)), {})
  {
    var t', d := Do(t, now, op), op.d;
    if op.lifetime != 0 {
      OneCall(ts, now, SetTimeout(d, AsSigned(op.lifetime)));
      SetKeepsStep(t, t', ts, now, d, AsSigned(op.lifetime), {});
      assert {} - {d} == {};
    } else {
      forall a, deadline
        ensures Runs(t', {}, a, deadline) <==> Runs(t, {}, a, deadline)
      {
      }
    }
  }

  lemma DeleteKeepsStep(t: Table, ts: Timers, now: int, d: Addr, busy: set<Addr>)
    requires |t.buckets| == TABLE_SIZE && d in t.entries && InStep(t, ts, busy) && busy <= {d}
    ensures InStep(DeleteSpec(t, d), AllCalled(ts, now, [Cancel(d)]), {})
  {
    OneCall(ts, now, Cancel(d));
    UnlinkKeeps(ts, Q.Other(Q.Route(d)));
    var t', ts' := DeleteSpec(t, d), Called(ts, now, Cancel(d));
    forall a, deadline
      ensures Has(ts', Timer(a, deadline)) <==> Runs(t', {}, a, deadline)
    {
      assert Has(ts, Timer(a, deadline)) <==> Runs(t, busy, a, deadline);
    }
  }

  // ----- firing --------------------------------------------------------------------------------------------

  /** The timer calls of the handler that an entry's rt_timer runs. */
  function FireCalls(t: Table, now: int, d: Addr): (cs: seq<Call>) {
    if d !in t.entries then []
    else match t.entries[d].handler
      case DeleteHandler => [Cancel(d)]
      case ExpireHandler => if t.entries[d].hops == 1 then LinkBreakCalls(t, now, d) else InvalidateCalls(t, d)
  }

  /** timer_timeout has taken the timer of d off its list, and runs the handler. */
  lemma FireKeepsStep(t: Table, ts: Timers, now: int, d: Addr)
    requires |t.buckets| == TABLE_SIZE && d in t.entries && Fit(t.entries[d]) && InStep(t, ts, {d})
    ensures InStep(Fire(t, now, d), AllCalled(ts, now, FireCalls(t, now, d)), {})
  {
    match t.entries[d].handler
    case DeleteHandler => DeleteKeepsStep(t, ts, now, d, {d});
    case ExpireHandler =>
      if t.entries[d].hops == 1 {
        LinkBreakKeepsStep(t, ts, now, d, {d});
      } else {
        InvalidateKeepsStep(t, ts, now, d, {d});
        assert {d} - {d} == {};
        SameKeepsStep(InvalidateSpec(t, now, d), Fire(t, now, d), AllCalled(ts, now, FireCalls(t, now, d)), {});
      }
  }

  // ----- runs ------------------------------------------------------------------------------------------------

  datatype Sys = Sys(t: Table, ts: Timers)

  /** A table operation; a call by another part of the daemon on a timer of its own; the first half of
      timer_timeout; and one turn of its second half, which runs the handler of the first expired timer. What a
      handler of another part does comes as operations and calls of its own. */
  datatype Step =
    | Operate(now: int, op: Op)
    | SetOther(now: int, o: Q.Owner, msec: int)
    | StopOther(o: Q.Owner)
    | Harvest(now: int)
    | FireFirst(now: int)

  predicate IsRoute(o: Q.Owner) { o.Other? && o.who.Route? }

  predicate CanStep(s: Sys, st: Step) {
    |s.t.buckets| == TABLE_SIZE
    && match st
       case Operate(_, op) => Allowed(s.t, op)
       case SetOther(_, o, _) => !IsRoute(o)
       case StopOther(o) => !IsRoute(o)
       case Harvest(_) => s.ts.expired == []
       case FireFirst(_) => s.ts.expired != []
  }

  function Stepped(s: Sys, st: Step): (s': Sys)
    requires CanStep(s, st)
  {
    match st
    case Operate(now, op) => Sys(Do(s.t, now, op), AllCalled(s.ts, now, Calls(s.t, now, op)))
    case SetOther(now, o, msec) => s.(ts := Set(s.ts, now, o, msec))
    case StopOther(o) => s.(ts := Unlink(s.ts, o))
    case Harvest(now) => s.(ts := Harvested(s.ts, now))
    case FireFirst(now) => FiredFirst(s, now)
  }

  function Harvested(ts: Timers, now: int): (ts': Timers) {
    var k := Due(Q.Deadlines(ts.queue), now);
    Timers(ts.queue[k..], ts.queue[..k])
  }

  function FiredFirst(s: Sys, now: int): (s': Sys)
    requires CanStep(s, FireFirst(now))
  {
    var o, ts := s.ts.expired[0].owner, s.ts.(expired := s.ts.expired[1..]);
    if IsRoute(o)
    then Sys(Fire(s.t, now, o.who.dest), AllCalled(ts, now, FireCalls(s.t, now, o.who.dest)))
    else s.(ts := ts)
  }

  /** Every running rt_timer is linked, once and with its entry's deadline, and no other is; handlers fit. */
  ghost predicate Together(s: Sys) {
    |s.t.buckets| == TABLE_SIZE && AllFit(s.t) && InStep(s.t, s.ts, {})
  }

  lemma SetOtherKeepsStep(s: Sys, now: int, o: Q.Owner, msec: int)
    requires Together(s) && !IsRoute(o)
    ensures Together(s.(ts := Set(s.ts, now, o, msec))) && Together(s.(ts := Unlink(s.ts, o)))
  {
    SetKeeps(s.ts, now, o, msec);
    UnlinkKeeps(s.ts, o);
    forall d, deadline
      ensures Has(Set(s.ts, now, o, msec), Timer(d, deadline)) <==> Has(s.ts, Timer(d, deadline))
      ensures Has(Unlink(s.ts, o), Timer(d, deadline)) <==> Has(s.ts, Timer(d, deadline))
    {
    }
  }

  lemma HarvestKeepsStep(s: Sys, now: int)
    requires Together(s) && s.ts.expired == []
    ensures Together(s.(ts := Harvested(s.ts, now)))
  {
    var q, ts' := s.ts.queue, Harvested(s.ts, now);
    var k := Due(Q.Deadlines(q), now);
    assert q == q[..k] + q[k..] && s.ts.queue + s.ts.expired == q;
    assert Q.Deadlines(q[k..]) == Q.Deadlines(q)[k..] && Q.Deadlines(q[..k]) == Q.Deadlines(q)[..k];
    Q.OneTimerSplit(q[..k], q[k..]);
    Q.OneTimerSplit(q[k..], q[..k]);
    forall d, deadline
      ensures Has(ts', Timer(d, deadline)) <==> Has(s.ts, Timer(d, deadline))
    {
    }
  }

  /** The first expired timer is unlinked before its handler runs. */
  lemma FirstGoes(t: Table, ts: Timers)
    requires InStep(t, ts, {}) && ts.expired != []
    ensures var o, ts1 := ts.expired[0].owner, ts.(expired := ts.expired[1..]);
            && (IsRoute(o) ==> o.who.dest in t.entries)
            && InStep(t, ts1, if IsRoute(o) then {o.who.dest} else {})
  {
    var p, ts1 := ts.expired[0], ts.(expired := ts.expired[1..]);
    FirstUnlinked(ts);
    if IsRoute(p.owner) {
      assert Has(ts, Timer(p.owner.who.dest, p.deadline));
    }
    forall d, deadline
      ensures Has(ts1, Timer(d, deadline))
              <==> Runs(t, if IsRoute(p.owner) then {p.owner.who.dest} else {}, d, deadline)
    {
      assert Has(ts, Timer(d, deadline)) <==> Runs(t, {}, d, deadline);
    }
  }

  lemma FirstUnlinked(ts: Timers)
    requires WellFormed(ts) && ts.expired != []
    ensures var ts1 := ts.(expired := ts.expired[1..]);
            WellFormed(ts1) && forall p :: Has(ts1, p) <==> Has(ts, p) && p.owner != ts.expired[0].owner
  {
    var p, rest := ts.expired[0], ts.expired[1..];
    assert ts.expired == [p] + rest;
    Q.OneTimerSplit(ts.queue, ts.expired);
    Q.OneTimerSplit([p], rest);
    Q.OneTimerSplit(ts.queue, rest);
    assert Q.Deadlines(ts.expired) == [p.deadline] + Q.Deadlines(rest);
    OrderedCons(p.deadline, Q.Deadlines(rest));
    assert Q.Free(ts.queue, p.owner) && Q.Free(rest, p.owner);
  }

  lemma FireFirstKeepsStep(s: Sys, now: int)
    requires Together(s) && CanStep(s, FireFirst(now))
    ensures Together(FiredFirst(s, now))
  {
    FirstGoes(s.t, s.ts);
    var o := s.ts.expired[0].owner;
    if IsRoute(o) {
      var d := o.who.dest;
      FireKeepsStep(s.t, s.ts.(expired := s.ts.expired[1..]), now, d);
      FiringLowersRank(s.t, now, now, d);
    }
  }

  /** Whatever happens next, table and timers stay in step. */
  lemma StepKeepsTogether(s: Sys, st: Step)
    requires Together(s) && CanStep(s, st)
    ensures Together(Stepped(s, st))
  {
    match st
    case Operate(now, op) =>
      DoKeepsStep(s.t, s.ts, now, op);
      DoKeepsFit(s.t, now, op);
      DoKeepsBuckets(s.t, now, op);
    case SetOther(now, o, msec) => SetOtherKeepsStep(s, now, o, msec);
    case StopOther(o) => SetOtherKeepsStep(s, 0, o, 0);
    case Harvest(now) => HarvestKeepsStep(s, now);
    case FireFirst(now) => FireFirstKeepsStep(s, now);
  }

  ghost predicate CanRun(s: Sys, steps: seq<Step>)
    decreases steps
  {
    steps == [] || (CanStep(s, steps[0]) && CanRun(Stepped(s, steps[0]), steps[1..]))
  }

  ghost function After(s: Sys, steps: seq<Step>): (s': Sys)
    requires CanRun(s, steps)
    decreases steps
  {
    if steps == [] then s else After(Stepped(s, steps[0]), steps[1..])
  }

  lemma {:induction false} RunKeepsTogether(s: Sys, steps: seq<Step>)
    requires Together(s) && CanRun(s, steps)
    ensures Together(After(s, steps))
    decreases steps
  {
    if steps != [] {
      StepKeepsTogether(s, steps[0]);
      RunKeepsTogether(Stepped(s, steps[0]), steps[1..]);
    }
  }

  lemma {:induction false} OneTimerAt(q: seq<Q.Pending>, i: nat, j: nat)
    requires Q.OneTimerEach(q) && i < j < |q|
    ensures q[i].owner != q[j].owner
    decreases q
  {
    if i == 0 {
      assert q[j] == q[1..][j - 1];
    } else {
      OneTimerAt(q[1..], i - 1, j - 1);
    }
  }

  /** Over every run from the empty table and an empty queue, whatever else uses timers: a routing entry's timer is
      linked with a deadline if and only if it is running with it; no timer is linked twice; the queue is in order. */
  lemma OneTimerOverRuns(t: Table, steps: seq<Step>)
    requires IsEmpty(t) && CanRun(Sys(t, Timers([], [])), steps)
    ensures var s' := After(Sys(t, Timers([], [])), steps);
            && (forall d, deadline :: Has(s'.ts, Timer(d, deadline)) <==> Runs(s'.t, {}, d, deadline))
            && (var q := s'.ts.queue + s'.ts.expired;
                forall i, j :: 0 <= i < j < |q| ==> q[i].owner != q[j].owner)
            && Ordered(Q.Deadlines(s'.ts.queue))
  {
    var s := Sys(t, Timers([], []));
    assert Together(s);
    RunKeepsTogether(s, steps);
    var ts := After(s, steps).ts;
    forall i, j | 0 <= i < j < |ts.queue + ts.expired|
      ensures (ts.queue + ts.expired)[i].owner != (ts.queue + ts.expired)[j].owner
    {
      OneTimerAt(ts.queue + ts.expired, i, j);
    }
  }

  // ----- a whole pass ----------------------------------------------------------------------------------------

  /** What handlers do in a pass of timer_timeout: none takes a route, and a hold is for a millisecond or more. */
  predicate InPass(st: Step, now: int) {
    match st
    case Operate(n, op) => n == now && !op.Insert? && !op.Update? && (op.Prolong? ==> Starts(op.lifetime))
    case FireFirst(n) => n == now
    case Harvest(_) => false
    case _ => true
  }

  predicate Later(ts: Timers, now: int) {
    forall p :: p in ts.queue && IsRoute(p.owner) ==> p.deadline > now
  }

  predicate Positive(cs: seq<Call>) {
    forall c :: c in cs && c.SetTimeout? ==> c.msec >= 1
  }

  lemma SetStaysLater(ts: Timers, n: int, now: int, o: Q.Owner, msec: int)
    requires Later(ts, now) && (IsRoute(o) ==> n == now && msec != 0)
    ensures Later(Unlink(ts, o), now) && Later(Set(ts, n, o, msec), now)
  {
    Q.DisarmedMembers(ts.queue, o);
    if msec >= 0 {
      var q := Unlink(ts, o).queue;
      var k := Place(Q.Deadlines(q), n + 1000 * msec);
      assert Set(ts, n, o, msec).queue == q[..k] + [Q.Pending(o, n + 1000 * msec)] + q[k..];
    }
  }

  lemma {:induction false} CallsStayLater(ts: Timers, now: int, cs: seq<Call>)
    requires Later(ts, now) && Positive(cs)
    ensures Later(AllCalled(ts, now, cs), now)
    decreases |cs|
  {
    if cs != [] {
      var d := cs[0].dest;
      assert cs[0].SetTimeout? ==> cs[0].msec >= 1;
      SetStaysLater(ts, now, now, Q.Other(Q.Route(d)), if cs[0].SetTimeout? then cs[0].msec else 1);
      CallsStayLater(Called(ts, now, cs[0]), now, cs[1..]);
    }
  }

  lemma {:induction false} CascadePositive(t: Table, now: int, broken: Addr, work: seq<Addr>, dr: Draft)
    ensures Positive(CascadeCalls(t, now, broken, work, dr))
    decreases work
  {
    if work != [] {
      var (t1, dr1) := CascadeOne(t, now, broken, work[0], dr);
      CascadePositive(t1, now, broken, work[1..], dr1);
    }
  }

  lemma LinkBreakPositive(t: Table, now: int, d: Addr)
    requires d in t.entries
    ensures Positive(LinkBreakCalls(t, now, d))
  {
    if t.entries[d].hops == 1 {
      var t1 := InvalidateSpec(t, now, d);
      var e := t1.entries[d];
      CascadePositive(ClearPrecursorsSpec(t1, d), now, d, Flatten(t.buckets), Report(NoRerr, d, e.seqno, e.precs));
    }
  }

  lemma StepStaysLater(s: Sys, now: int, st: Step)
    requires CanStep(s, st) && InPass(st, now) && Later(s.ts, now)
    ensures Later(Stepped(s, st).ts, now)
  {
    match st
    case Operate(_, op) =>
      if op.LinkBreak? {
        LinkBreakPositive(s.t, now, op.d);
      }
      CallsStayLater(s.ts, now, Calls(s.t, now, op));
    case SetOther(n, o, msec) => SetStaysLater(s.ts, n, now, o, msec);
    case StopOther(o) => SetStaysLater(s.ts, now, now, o, 0);
    case FireFirst(_) =>
      var o := s.ts.expired[0].owner;
      if IsRoute(o) {
        if o.who.dest in s.t.entries {
          LinkBreakPositive(s.t, now, o.who.dest);
        }
        CallsStayLater(s.ts.(expired := s.ts.expired[1..]), now, FireCalls(s.t, now, o.who.dest));
      }
  }

  lemma {:induction false} PassStaysLater(s: Sys, now: int, steps: seq<Step>)
    requires CanRun(s, steps) && (forall st :: st in steps ==> InPass(st, now)) && Later(s.ts, now)
    ensures Later(After(s, steps).ts, now)
    decreases steps
  {
    if steps != [] {
      StepStaysLater(s, now, steps[0]);
      PassStaysLater(Stepped(s, steps[0]), now, steps[1..]);
    }
  }

  /** When a pass of timer_timeout has run the handlers of all the timers it harvested, no route timer is due. */
  lemma PassLeavesNoneDue(s: Sys, now: int, steps: seq<Step>)
    requires Together(s) && CanStep(s, Harvest(now)) && CanRun(Stepped(s, Harvest(now)), steps)
    requires forall st :: st in steps ==> InPass(st, now)
    requires After(Stepped(s, Harvest(now)), steps).ts.expired == []
    ensures C.NoneDue(After(Stepped(s, Harvest(now)), steps).t, now)
  {
    var s1 := Stepped(s, Harvest(now));
    StepKeepsTogether(s, Harvest(now));
    HarvestLeavesLater(s.ts, now);
    PassStaysLater(s1, now, steps);
    RunKeepsTogether(s1, steps);
    var s2 := After(s1, steps);
    forall d | d in s2.t.entries && s2.t.entries[d].armed
      ensures s2.t.entries[d].deadline > now
    {
      assert Runs(s2.t, {}, d, s2.t.entries[d].deadline);
      assert Has(s2.ts, Timer(d, s2.t.entries[d].deadline));
    }
  }

  lemma HarvestLeavesLater(ts: Timers, now: int)
    requires WellFormed(ts)
    ensures Later(Harvested(ts, now), now)
  {
    var ds := Q.Deadlines(ts.queue);
    var k := Due(ds, now);
    DueIsSound(ds, now);
    forall p | p in ts.queue[k..]
      ensures p.deadline > now
    {
      var i :| 0 <= i < |ts.queue[k..]| && ts.queue[k..][i] == p;
      assert ds[k + i] == p.deadline;
    }
  }
}
