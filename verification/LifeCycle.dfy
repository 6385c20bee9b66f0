/**
 The life of a routing entry: which timer it has, when that timer runs, and that each firing brings the
 entry closer to its end.
 */
module LifeCycle {
  import opened Words
  import opened Params
  import opened RouteSpec
  import opened TableRuns

  /** The entry's timer has the handler that fits its state. */
  predicate Fit(e: Entry) {
    if e.valid then e.handler == ExpireHandler else e.handler == DeleteHandler
  }

  ghost predicate AllFit(t: Table) {
    forall a :: a in t.entries ==> Fit(t.entries[a])
  }

  lemma BrokenKeepsFit(t: Table, now: int, t': Table)
    requires AllFit(t) && AllKeptOrBroken(t, now, t')
    ensures AllFit(t')
  {
    forall a | a in t'.entries
      ensures Fit(t'.entries[a])
    {
      assert KeptOrBroken(t.entries[a], now, t'.entries[a]);
    }
  }

  lemma DoKeepsFit(t: Table, now: int, op: Op)
    requires |t.buckets| == TABLE_SIZE && Allowed(t, op) && AllFit(t)
    ensures AllFit(Do(t, now, op))
  {
    match op
    case Update(d, next, hops, s, life, unidir) => UpdateKeepsFit(t, now, d, next, hops, s, life, unidir);
    case LinkBreak(d) =>
      LinkBreakShape(t, now, d);
      BrokenKeepsFit(t, now, LinkBreakSpec(t, now, d).0);
    case _ =>
  }

  lemma UpdateKeepsFit(t: Table, now: int, d: Addr, next: Addr, hops: nat, seqno: u32, lifetime: u32, unidir: bool)
    requires d in t.entries && AllFit(t)
    ensures AllFit(UpdateSpec(t, now, d, next, hops, seqno, lifetime, true, unidir).0)
  {
    var t2 := UpdateShape(t, now, d, next, hops, seqno, lifetime, unidir);
    BrokenKeepsFit(t, now, t2);
    assert Fit(UpdatedEntry(t2.entries[d], now, next, hops, seqno, lifetime, true, unidir));
  }

  lemma {:induction false} RunKeepsFit(t: Table, ops: seq<Timed>)
    requires RunAllowed(t, ops) && AllFit(t)
    ensures AllFit(Run(t, ops))
    decreases ops
  {
    if ops != [] {
      DoKeepsFit(t, ops[0].now, ops[0].op);
      RunKeepsFit(Do(t, ops[0].now, ops[0].op), ops[1..]);
    }
  }

  /** timer_set_timeout starts a timer for this lifetime. */
  predicate Starts(lifetime: u32) {
    1 <= lifetime < 0x8000_0000
  }

  ghost predicate AllArmed(t: Table) {
    forall a :: a in t.entries ==> t.entries[a].armed
  }

  /** A new timeout of `lifetime` would be later than the present one, by a millisecond or more. */
  predicate Extends(e: Entry, now: int, lifetime: u32) {
    e.valid && DiffMs(e.deadline - (now + 1000 * lifetime)) < 0
  }

  /** The operation leaves its entry with a timer that is not running: a lifetime of 0 on insertion, or one
      of 2^31 or more, which is negative as an argument of timer_set_timeout. */
  predicate Stops(t: Table, now: int, op: Op)
    requires Allowed(t, op)
  {
    match op
    case Insert(_, _, _, _, lifetime) => !Starts(lifetime)
    case Update(d, _, hops, _, lifetime, _) =>
      lifetime >= 0x8000_0000 && Extends(t.entries[d], now, lifetime) && !(hops > 1 && t.entries[d].hops == 1)
    case Prolong(d, lifetime) => lifetime >= 0x8000_0000 && Extends(t.entries[d], now, lifetime)
    case _ => false
  }

  lemma LinkBreakKeepsArmed(t: Table, now: int, d: Addr)
    requires d in t.entries && AllArmed(t)
    ensures AllArmed(LinkBreakSpec(t, now, d).0)
    ensures t.entries[d].hops == 1 ==> !LinkBreakSpec(t, now, d).0.entries[d].valid
    ensures t.entries[d].hops != 1 ==> LinkBreakSpec(t, now, d).0 == t
  {
    if t.entries[d].hops == 1 {
      var t1 := InvalidateSpec(t, now, d);
      var e := t1.entries[d];
      CascadeShape(ClearPrecursorsSpec(t1, d), now, d, Flatten(t.buckets), Report(NoRerr, d, e.seqno, e.precs));
    }
  }

  lemma UpdateKeepsArmedIff(t: Table, now: int, op: Op)
    requires |t.buckets| == TABLE_SIZE && Allowed(t, op) && AllArmed(t) && op.Update?
    ensures AllArmed(Do(t, now, op)) <==> !Stops(t, now, op)
  {
    var d := op.d;
    var t1 := AnnounceSpec(t, d, op.next, true);
    assert t1.entries == t.entries;
    LinkBreakKeepsArmed(t1, now, d);
    var t2 := if op.hops > 1 && t1.entries[d].hops == 1 then LinkBreakSpec(t1, now, d).0 else t1;
    var e := UpdatedEntry(t2.entries[d], now, op.next, op.hops, op.seqno, op.lifetime, true, op.unidir);
    assert e.armed <==> !Stops(t, now, op);
    OneEntryDecides(t2, d, e, Do(t, now, op));
  }

  lemma OneEntryDecides(t: Table, d: Addr, e: Entry, t': Table)
    requires AllArmed(t) && t'.entries == t.entries[d := e]
    ensures AllArmed(t') <==> e.armed
  {
    assert t'.entries[d] == e;
  }

  /** One operation leaves every timer running if and only if it is not one of those. */
  lemma DoKeepsArmedIff(t: Table, now: int, op: Op)
    requires |t.buckets| == TABLE_SIZE && Allowed(t, op) && AllArmed(t)
    ensures AllArmed(Do(t, now, op)) <==> !Stops(t, now, op)
  {
    var t' := Do(t, now, op);
    match op
    case Update(_, _, _, _, _, _) => UpdateKeepsArmedIff(t, now, op);
    case LinkBreak(d) => LinkBreakKeepsArmed(t, now, d);
    case Insert(d, _, _, _, _) => assert d in t'.entries;
    case Prolong(d, _) => assert d in t'.entries;
    case _ =>
  }

  /** No operation of the run stops a timer. */
  predicate NeverStops(t: Table, ops: seq<Timed>)
    requires RunAllowed(t, ops)
    decreases ops
  {
    ops == []
    || (!Stops(t, ops[0].now, ops[0].op) && NeverStops(Do(t, ops[0].now, ops[0].op), ops[1..]))
  }

  /** Lifetimes in the range a timer accepts. */
  predicate LifetimeOk(op: Op) {
    (op.Insert? ==> Starts(op.lifetime)) && (op.Update? || op.Prolong? ==> op.lifetime < 0x8000_0000)
  }

  lemma {:induction false} LifetimesNeverStop(t: Table, ops: seq<Timed>)
    requires RunAllowed(t, ops) && forall x :: x in ops ==> LifetimeOk(x.op)
    ensures NeverStops(t, ops)
    decreases ops
  {
    if ops != [] {
      assert LifetimeOk(ops[0].op);
      LifetimesNeverStop(Do(t, ops[0].now, ops[0].op), ops[1..]);
    }
  }

  lemma {:induction false} RunArmed(t: Table, ops: seq<Timed>)
    requires RunAllowed(t, ops) && AllArmed(t) && NeverStops(t, ops)
    ensures AllArmed(Run(t, ops))
    decreases ops
  {
    if ops != [] {
      DoKeepsArmedIff(t, ops[0].now, ops[0].op);
      RunArmed(Do(t, ops[0].now, ops[0].op), ops[1..]);
    }
  }

  /** Over any run every entry has the expire handler exactly when VALID and the delete handler exactly when
      INVALID; and if no operation of the run stops a timer, every timer is running. */
  lemma LifeCycleOverRuns(t: Table, ops: seq<Timed>, d: Addr)
    requires IsEmpty(t) && RunAllowed(t, ops) && d in Run(t, ops).entries
    ensures var e := Run(t, ops).entries[d];
            && (e.valid <==> e.handler == ExpireHandler) && (!e.valid <==> e.handler == DeleteHandler)
            && (NeverStops(t, ops) ==> e.armed)
  {
    RunKeepsFit(t, ops);
    assert Fit(Run(t, ops).entries[d]);
    if NeverStops(t, ops) {
      RunArmed(t, ops);
    }
  }

  /** An inserted route is the one given, unmarked, without users and not waiting for an acknowledgement; nothing
      else in the table changes. */
  lemma InsertStores(t: Table, now: int, op: Op)
    requires |t.buckets| == TABLE_SIZE && Allowed(t, op) && op.Insert?
    ensures var t' := Do(t, now, op);
            && t'.entries.Keys == t.entries.Keys + {op.d}
            && (forall a :: a in t.entries ==> t'.entries[a] == t.entries[a])
            && var e := t'.entries[op.d];
               && e.next == op.next && e.hops == op.hops && e.seqno == op.seqno && e.valid
               && !e.unidir && !e.ackUsed && e.precs == []
               && (Starts(op.lifetime) ==> e.deadline == now + 1000 * op.lifetime)
  {
  }

  /** The time an updated route has: a VALID one that does not break its own link has the later of its own deadline and
      the new one, up to a millisecond. One that was INVALID comes back with the deadline its deletion had, whatever
      the lifetime; and one that breaks its own link gets DELETE_PERIOD. */
  lemma UpdatedDeadline(t: Table, now: int, op: Op)
    requires |t.buckets| == TABLE_SIZE && Allowed(t, op) && op.Update? && op.lifetime < 0x8000_0000
    ensures var e, e' := t.entries[op.d], Do(t, now, op).entries[op.d];
            var life := now + 1000 * op.lifetime;
            && e'.valid && e'.next == op.next && e'.hops == op.hops && e'.seqno == op.seqno && e'.unidir == op.unidir
            && if !e.valid then e'.deadline == e.deadline && e'.armed == e.armed
               else if op.hops > 1 && e.hops == 1 then e'.deadline == now + 1000 * DELETE_PERIOD && e'.armed
               else e'.deadline == (if life - e.deadline >= 1000 then life else e.deadline) && e'.deadline > life - 1000
  {
    var t1 := AnnounceSpec(t, op.d, op.next, true);
    var t2 := if op.hops > 1 && t1.entries[op.d].hops == 1 then LinkBreakSpec(t1, now, op.d).0 else t1;
    if op.hops > 1 && t.entries[op.d].hops == 1 {
      BrokenEntry(t1, now, op.d);
    }
    InstalledDeadline(t2.entries[op.d], now, op);
    assert Do(t, now, op).entries[op.d]
        == UpdatedEntry(t2.entries[op.d], now, op.next, op.hops, op.seqno, op.lifetime, true, op.unidir);
  }

  /** So a route that is taken just before its old entry is deleted lasts hardly at all. */
  lemma RevivedBriefly(t: Table, now: int, op: Op)
    requires |t.buckets| == TABLE_SIZE && Allowed(t, op) && op.Update? && op.lifetime == 6000
    requires !t.entries[op.d].valid && t.entries[op.d].deadline == now + 1
    ensures var e' := Do(t, now, op).entries[op.d];
            e'.valid && e'.deadline == now + 1 && e'.handler == ExpireHandler
  {
    UpdatedDeadline(t, now, op);
  }

  lemma InstalledDeadline(e: Entry, now: int, op: Op)
    requires op.Update? && op.lifetime < 0x8000_0000
    ensures var e' := UpdatedEntry(e, now, op.next, op.hops, op.seqno, op.lifetime, true, op.unidir);
            var life := now + 1000 * op.lifetime;
            && e'.valid && e'.next == op.next && e'.hops == op.hops && e'.seqno == op.seqno && e'.unidir == op.unidir
            && (!e.valid ==> e'.deadline == e.deadline && e'.armed == e.armed)
            && (e.valid ==> e'.deadline == (if life - e.deadline >= 1000 then life else e.deadline)
                            && e'.deadline > life - 1000)
  {
    DiffMsSign(e.deadline - (now + 1000 * op.lifetime));
  }

  lemma BrokenEntry(t: Table, now: int, d: Addr)
    requires d in t.entries && t.entries[d].hops == 1
    ensures var e, e' := t.entries[d], LinkBreakSpec(t, now, d).0.entries[d];
            && !e'.valid
            && if e.valid then e'.deadline == now + 1000 * DELETE_PERIOD && e'.armed
               else e'.deadline == e.deadline && e'.armed == e.armed
  {
    var t1 := InvalidateSpec(t, now, d);
    var e := t1.entries[d];
    CascadeShape(ClearPrecursorsSpec(t1, d), now, d, Flatten(t.buckets), Report(NoRerr, d, e.seqno, e.precs));
  }

  /** A prolonged VALID route has the later deadline, up to a millisecond; an INVALID one is not touched. */
  lemma ProlongedDeadline(t: Table, now: int, d: Addr, lifetime: u32)
    requires d in t.entries && lifetime < 0x8000_0000
    ensures var e, e' := t.entries[d], UpdateTimeoutSpec(t, now, d, lifetime).entries[d];
            var life := now + 1000 * lifetime;
            && e' == e.(armed := e'.armed, deadline := e'.deadline)
            && (e.valid ==> e'.deadline == if life - e.deadline >= 1000 then life else e.deadline)
            && (!e.valid ==> e' == e)
  {
    DiffMsSign(t.entries[d].deadline - (now + 1000 * lifetime));
  }

  /** A route that goes down keeps where it led to and who used it, is one newer, waits for no acknowledgement and is
      deleted after DELETE_PERIOD; no other entry changes. One that is down already stays as it is. */
  lemma GoesDown(t: Table, now: int, d: Addr)
    requires d in t.entries
    ensures var e, t' := t.entries[d], InvalidateSpec(t, now, d);
            && t'.entries.Keys == t.entries.Keys
            && (forall a :: a in t.entries && a != d ==> t'.entries[a] == t.entries[a])
            && var e' := t'.entries[d];
               && (!e.valid ==> t' == t)
               && (e.valid ==> !e'.valid && e'.seqno == SeqnoIncr(e.seqno) && e'.next == e.next && e'.hops == e.hops
                               && e'.precs == e.precs && e'.unidir == e.unidir && !e'.ackUsed
                               && e'.handler == DeleteHandler && e'.armed && e'.deadline == now + 1000 * DELETE_PERIOD)
  {
  }

  /** A route of several hops that expires goes down alone, loses its users and is reported to nobody. */
  lemma ExpiresAlone(t: Table, now: int, d: Addr)
    requires d in t.entries && t.entries[d].hops != 1
    ensures var (t', dr) := ExpireSpec(t, now, d);
            && dr == NoRerr && t'.entries == InvalidateSpec(t, now, d).entries[d := t'.entries[d]]
            && t'.entries[d] == InvalidateSpec(t, now, d).entries[d].(precs := [])
  {
  }

  /** VALID before INVALID before gone. */
  function Rank(t: Table, d: Addr): (r: nat) {
    if d !in t.entries then 0 else if t.entries[d].valid then 2 else 1
  }

  /** The entry's rt_timer fires. */
  function Fire(t: Table, now: int, d: Addr): (t': Table)
    requires |t.buckets| == TABLE_SIZE
    ensures |t'.buckets| == TABLE_SIZE
  {
    if d !in t.entries then t
    else match t.entries[d].handler
      case ExpireHandler => ExpireSpec(t, now, d).0
      case DeleteHandler => DeleteSpec(t, d)
  }

  lemma BrokenIsArmed(t: Table, now: int, d: Addr)
    requires d in t.entries && t.entries[d].valid && t.entries[d].hops == 1
    ensures LinkBreakSpec(t, now, d).0.entries[d].armed && !LinkBreakSpec(t, now, d).0.entries[d].valid
  {
    var t1 := InvalidateSpec(t, now, d);
    var e := t1.entries[d];
    CascadeSpares(ClearPrecursorsSpec(t1, d), now, d, Flatten(t.buckets), Report(NoRerr, d, e.seqno, e.precs));
  }

  lemma ExpiryInvalidates(t: Table, now: int, d: Addr)
    requires AllFit(t) && d in t.entries && t.entries[d].valid
    ensures var t' := ExpireSpec(t, now, d).0;
            AllFit(t') && d in t'.entries && !t'.entries[d].valid && t'.entries[d].armed
  {
    if t.entries[d].hops == 1 {
      LinkBreakShape(t, now, d);
      BrokenKeepsFit(t, now, LinkBreakSpec(t, now, d).0);
      BrokenIsArmed(t, now, d);
    }
  }

  /** Every firing strictly lowers the entry's rank and starts the next timer if there is one to start; so an
      entry nobody refreshes is gone after at most two firings. */
  lemma FiringLowersRank(t: Table, now: int, now': int, d: Addr)
    requires |t.buckets| == TABLE_SIZE && AllFit(t) && d in t.entries
    ensures var t' := Fire(t, now, d);
            && Rank(t', d) < Rank(t, d) && AllFit(t')
            && (d in t'.entries ==> t'.entries[d].armed)
            && d !in Fire(t', now', d).entries
  {
    assert Fit(t.entries[d]);
    if t.entries[d].valid {
      ExpiryInvalidates(t, now, d);
      assert Fit(Fire(t, now, d).entries[d]);
    }
  }

  /** The lifetime range is exact: an entry inserted as VALID starts its timer if and only if the lifetime,
      read as signed, is positive. A reverse route 70 hops long has lifetime 0 and never expires. */
  lemma InsertArmsIff(t: Table, now: int, d: Addr, next: Addr, hops: nat, seqno: u32, lifetime: u32)
    requires |t.buckets| == TABLE_SIZE && d !in t.entries
    ensures InsertSpec(t, now, d, next, hops, seqno, lifetime, true, false).entries[d].armed
            <==> Starts(lifetime)
  {
  }

  /** Exactly when updating a route leaves it VALID with a stopped timer that was running before. */
  lemma UpdateStopsIff(t: Table, now: int, d: Addr, next: Addr, hops: nat, seqno: u32, lifetime: u32, unidir: bool)
    requires d in t.entries && t.entries[d].armed
    ensures var e, e' := t.entries[d], UpdateSpec(t, now, d, next, hops, seqno, lifetime, true, unidir).0.entries[d];
            !e'.armed <==> lifetime >= 0x8000_0000 && Extends(e, now, lifetime) && !(hops > 1 && e.hops == 1)
  {
    var t1 := AnnounceSpec(t, d, next, true);
    if hops > 1 && t.entries[d].hops == 1 && t.entries[d].valid {
      BrokenIsArmed(t1, now, d);
    }
    if t.entries[d].hops == 1 {
      BrokenIsInvalid(t1, now, d);
    }
  }

  lemma BrokenIsInvalid(t: Table, now: int, d: Addr)
    requires d in t.entries && t.entries[d].hops == 1
    ensures var e' := LinkBreakSpec(t, now, d).0.entries[d];
            !e'.valid && (!t.entries[d].valid ==> e'.armed == t.entries[d].armed)
  {
    var t1 := InvalidateSpec(t, now, d);
    var e := t1.entries[d];
    CascadeSpares(ClearPrecursorsSpec(t1, d), now, d, Flatten(t.buckets), Report(NoRerr, d, e.seqno, e.precs));
  }

  /** Exactly when prolonging a route stops its timer. */
  lemma ProlongStopsIff(t: Table, now: int, d: Addr, lifetime: u32)
    requires d in t.entries && t.entries[d].armed
    ensures !UpdateTimeoutSpec(t, now, d, lifetime).entries[d].armed
            <==> lifetime >= 0x8000_0000 && Extends(t.entries[d], now, lifetime)
  {
  }
}
