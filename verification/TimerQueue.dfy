/**
 timer_queue.c over linked nodes: the queue `tq`, the list of expired timers, and the pass that
 fires them while handlers cancel and re-arm timers of either list.
 */
module TimerQueue {
  import opened Words
  import opened IntrusiveList
  import opened TimerOrder
  import opened Firing
  import opened Sequences

  predicate Normal(t: Timeval) { 0 <= t.usec < 1_000_000 }

  /** What a handler can do to a timer. Freeing one is cancelling it and never touching it again. */
  datatype TimerOp = Cancel(t: Node) | Rearm(t: Node, at: Timeval, msec: int)

  datatype Sleep = Forever | Until(remaining: Timeval)

  function TimersOf(ops: seq<TimerOp>): (x: set<Node>) {
    if ops == [] then {} else TimersOf(ops[..|ops| - 1]) + {ops[|ops| - 1].t}
  }

  predicate OpsOk(ops: seq<TimerOp>, timers: set<Node>) {
    forall op :: op in ops ==> op.t in timers && (op.Rearm? ==> Normal(op.at))
  }

  /** Every reading of the clock is at or after `floor`. */
  predicate ClockFrom(ops: seq<TimerOp>, floor: int) {
    forall op :: op in ops && op.Rearm? ==> floor <= Micros(op.at)
  }

  predicate ScriptOk(script: map<Node, seq<TimerOp>>, timers: set<Node>) {
    forall t :: t in script ==> OpsOk(script[t], timers)
  }

  predicate ScriptFrom(script: map<Node, seq<TimerOp>>, floor: int) {
    forall t :: t in script ==> ClockFrom(script[t], floor)
  }

  /** Which timers the handler of each timer touches. */
  function Touches(script: map<Node, seq<TimerOp>>): (m: map<Node, set<Node>>) {
    map t | t in script :: TimersOf(script[t])
  }

  ghost function Deadlines(s: seq<Node>): (ds: seq<int>)
    reads s
  {
    seq(|s|, i requires 0 <= i < |s| reads s => Micros(s[i].timeout))
  }

  twostate lemma SameDeadlines(s: seq<Node>)
    requires forall t :: t in s ==> t.timeout == old(t.timeout)
    ensures Deadlines(s) == old(Deadlines(s))
  {
    assert forall i :: 0 <= i < |s| ==> s[i] in s;
  }

  lemma InsertedDeadlines(s: seq<Node>, t: Node, k: nat)
    requires k <= |s|
    ensures Deadlines(s[..k] + [t] + s[k..]) == Deadlines(s)[..k] + [Micros(t.timeout)] + Deadlines(s)[k..]
  {
  }

  /** A time to sleep from `now` while the timers due at `ds` are pending. */
  predicate SleepOk(remaining: Timeval, ds: seq<int>, now: int) {
    && Normal(remaining) && remaining.sec >= 0
    && ds != [] && now + Micros(remaining) == ds[0]
    && forall i :: 0 <= i < |ds| ==> now + Micros(remaining) < ds[i] + 1000
  }

  lemma PlacedNotBefore(ds: seq<int>, d: int, floor: int)
    requires NotBefore(ds, floor) && floor <= d
    ensures NotBefore(Placed(ds, d), floor)
  {
  }

  lemma {:induction false} DistinctHasNoDuplicates(s: seq<Node>)
    requires Distinct(s)
    ensures NoDuplicates(s)
  {
    if s != [] {
      DistinctHasNoDuplicates(s[1..]);
    }
  }

  lemma {:induction false} WithoutOne(s: seq<Node>, k: nat)
    requires Distinct(s) && k < |s|
    ensures Without(s, {s[k]}) == s[..k] + s[k + 1..]
  {
    if k == 0 {
      WithoutNone(s[1..], {s[0]});
    } else {
      WithoutOne(s[1..], k - 1);
      assert s[1..][k - 1] == s[k];
      assert s[..k] + s[k + 1..] == [s[0]] + (s[1..][..k - 1] + s[1..][k..]);
    }
  }

  /** Removing a timer keeps the order and drops no deadline below a bound. */
  lemma WithoutKeepsOrder(s: seq<Node>, t: Node, floor: int)
    requires Distinct(s)
    ensures Ordered(Deadlines(s)) ==> Ordered(Deadlines(Without(s, {t})))
    ensures NotBefore(Deadlines(s), floor) ==> NotBefore(Deadlines(Without(s, {t})), floor)
  {
    if t in s {
      var k :| 0 <= k < |s| && s[k] == t;
      WithoutOne(s, k);
      assert Deadlines(s[..k] + s[k + 1..]) == Deadlines(s)[..k] + Deadlines(s)[k + 1..];
    } else {
      WithoutNone(s, {t});
    }
  }

  /** Two rings with no node in common. */
  ghost predicate Apart(head: Node, s: seq<Node>, other: Node, r: seq<Node>) {
    head != other && head !in r && other !in s && forall t :: t in s ==> t !in r
  }

  lemma Untouched(r: seq<Node>, t: Node)
    requires t !in r
    ensures Without(r, {t}) == r
  {
    WithoutNone(r, {t});
  }

  /** list_remove on one ring leaves the other alone. */
  method Detach(t: Node, ghost head: Node, ghost s: seq<Node>, ghost other: Node, ghost r: seq<Node>)
    requires Ring(head, s) && Ring(other, r) && Apart(head, s, other, r) && t in s
    modifies head, s
    ensures Ring(head, Without(s, {t})) && Ring(other, r) && t.Unattached()
    ensures Without(r, {t}) == r
    ensures forall u :: u in s ==> u.timeout == old(u.timeout) && u.used == old(u.used)
  {
    ghost var k: nat :| k < |s| && s[k] == t;
    assert forall i :: 0 <= i < |r| ==> r[i] in r;
    IntrusiveList.Remove(t, head, s, k);
    WithoutOne(s, k);
    Untouched(r, t);
  }

  /** list_insert into one ring leaves the other alone. */
  method Attach(t: Node, prev: Node, next: Node, ghost head: Node, ghost s: seq<Node>, ghost k: nat,
                ghost other: Node, ghost r: seq<Node>)
    requires Ring(head, s) && Ring(other, r) && Apart(head, s, other, r) && k <= |s|
    requires t !in s && t !in r && t != head && t != other
    requires prev == Elem(head, s, k - 1) && next == Elem(head, s, k)
    modifies t, head, s
    ensures Ring(head, s[..k] + [t] + s[k..]) && Ring(other, r)
    ensures t.timeout == old(t.timeout) && t.used == old(t.used)
    ensures forall u :: u in s ==> u.timeout == old(u.timeout) && u.used == old(u.used)
  {
    assert forall i :: 0 <= i < |r| ==> r[i] in r;
    IntrusiveList.Insert(t, prev, next, head, s, k);
  }

  /** list_push_back on one ring leaves the other alone. */
  method Append(t: Node, head: Node, ghost s: seq<Node>, ghost other: Node, ghost r: seq<Node>)
    requires Ring(head, s) && Ring(other, r) && Apart(head, s, other, r)
    requires t !in s && t !in r && t != head && t != other
    modifies t, head, s
    ensures Ring(head, s + [t]) && Ring(other, r)
    ensures t.timeout == old(t.timeout) && t.used == old(t.used)
    ensures forall u :: u in s ==> u.timeout == old(u.timeout) && u.used == old(u.used)
  {
    assert forall i :: 0 <= i < |r| ==> r[i] in r;
    PushBack(head, t, s);
  }

  lemma WithoutFirst(s: seq<Node>)
    requires Distinct(s) && s != []
    ensures Without(s, {s[0]}) == s[1..]
  {
    WithoutOne(s, 0);
    assert s[..0] + s[1..] == s[1..];
  }

  /** list_remove of the first node. */
  method DetachFirst(t: Node, ghost head: Node, ghost s: seq<Node>, ghost other: Node, ghost r: seq<Node>)
    requires Ring(head, s) && Ring(other, r) && Apart(head, s, other, r) && s != [] && t == s[0]
    modifies head, s
    ensures Ring(head, s[1..]) && Ring(other, r) && t.Unattached()
    ensures forall u :: u in s ==> u.timeout == old(u.timeout) && u.used == old(u.used)
  {
    WithoutFirst(s);
    Detach(t, head, s, other, r);
  }

  /** The first node of one ring becomes the last of the other. */
  method MoveToBack(t: Node, ghost head: Node, ghost s: seq<Node>, other: Node, ghost r: seq<Node>)
    requires Ring(head, s) && Ring(other, r) && Apart(head, s, other, r) && s != [] && t == s[0]
    modifies head, s, other, r
    ensures Ring(head, s[1..]) && Ring(other, r + [s[0]])
    ensures forall u :: u in s || u in r ==> u.timeout == old(u.timeout) && u.used == old(u.used)
  {
    assert forall u :: u in s[1..] ==> u in s;
    DetachFirst(t, head, s, other, r);
    Append(t, other, r, head, s[1..]);
  }

  class TimerQueue {
    const tq: Node
    const exptq: Node
    ghost var timers: set<Node>  // every initialised timer
    ghost var queue: seq<Node>
    ghost var expired: seq<Node>

    /** Both lists are well formed and have no timer in common. */
    ghost predicate Linked()
      reads this, tq, exptq, queue, expired
    {
      && Ring(tq, queue) && Ring(exptq, expired) && Apart(tq, queue, exptq, expired)
      && tq !in timers && exptq !in timers
      && (forall t :: t in queue ==> t in timers) && (forall t :: t in expired ==> t in timers)
    }

    /** `used` says exactly which timers are linked. */
    ghost predicate TimerOk(t: Node)
      reads this, t
    {
      && (t.used <==> t in queue || t in expired) && (!t.used ==> t.Unattached())
      && Normal(t.timeout)
    }

    ghost predicate Valid()
      reads this, tq, exptq, timers, queue, expired
    {
      Linked() && forall t :: t in timers ==> TimerOk(t)
    }

    constructor ()
      ensures Valid() && queue == [] && expired == [] && timers == {}
    {
      tq := new Node.Head();
      exptq := new Node.Head();
      timers := {};
      queue := [];
      expired := [];
    }

    /** timer_init on a new timer. */
    method Init() returns (t: Node)
      requires Valid()
      modifies this`timers
      ensures Valid() && fresh(t) && timers == old(timers) + {t} && !t.used
    {
      t := new Node.Timer();
      timers := timers + {t};
      forall u | u in timers
        ensures TimerOk(u)
      {
        assert u != t ==> old(TimerOk(u));
      }
    }

    lemma LinkedIffUsed(t: Node)
      requires Valid() && t in timers
      ensures t.used <==> !t.Unattached()
    {
      assert TimerOk(t);
      if t in queue {
        var k :| 0 <= k < |queue| && queue[k] == t;
        assert LinkedAt(tq, queue, k);
      } else if t in expired {
        var k :| 0 <= k < |expired| && expired[k] == t;
        assert LinkedAt(exptq, expired, k);
      }
    }

    /** list_remove on whichever list the timer is in. */
    method UnlinkNode(t: Node)
      requires Valid() && t in timers && t.used
      modifies tq, exptq, timers
      ensures Ring(tq, Without(queue, {t})) && Ring(exptq, Without(expired, {t})) && t.Unattached()
      ensures forall u :: u in timers ==> u.timeout == old(u.timeout) && u.used == old(u.used)
      ensures forall u :: u in timers && !old(u.used) ==> u.Unattached()
    {
      assert TimerOk(t);
      assert forall u :: u in timers && !u.used ==> old(TimerOk(u));
      ghost var queued := t in queue;
      ghost var head, s := if queued then tq else exptq, if queued then queue else expired;
      ghost var other, r := if queued then exptq else tq, if queued then expired else queue;
      Detach(t, head, s, other, r);
    }

    method Unlink(t: Node)
      requires Valid() && t in timers && t.used
      modifies this`queue, this`expired, tq, exptq, timers
      ensures Linked() && t.Unattached()
      ensures queue == Without(old(queue), {t}) && expired == Without(old(expired), {t})
      ensures forall u :: u in timers ==> u.timeout == old(u.timeout) && u.used == old(u.used)
      ensures forall u :: u in timers && !old(u.used) ==> u.Unattached()
      ensures forall u :: u in timers ==>
                && (u in queue <==> u != t && u in old(queue))
                && (u in expired <==> u != t && u in old(expired))
    {
      UnlinkNode(t);
      WithoutShrinks(queue, {t});
      WithoutShrinks(expired, {t});
      queue, expired := Without(queue, {t}), Without(expired, {t});
    }

    method Remove(t: Node) returns (res: int)
      requires Valid() && t in timers
      modifies this`queue, this`expired, tq, exptq, timers
      ensures Valid()
      ensures queue == Without(old(queue), {t}) && expired == Without(old(expired), {t})
      ensures !t.used && (res == 1 <==> old(t.used))
      ensures forall u :: u in timers ==> u.timeout == old(u.timeout)
    {
      LinkedIffUsed(t);
      if t.Unattached() {
        res := 0;
        assert TimerOk(t);
        Untouched(queue, t);
        Untouched(expired, t);
      } else {
        res := 1;
        Release(t);
      }
    }

    /** list_remove, and the timer is no longer used. */
    method Release(t: Node)
      requires Valid() && t in timers && t.used
      modifies this`queue, this`expired, tq, exptq, timers
      ensures Valid() && !t.used
      ensures queue == Without(old(queue), {t}) && expired == Without(old(expired), {t})
      ensures forall u :: u in timers ==> u.timeout == old(u.timeout)
    {
      assert forall u :: u in timers ==> old(TimerOk(u));
      Unlink(t);
      t.used := false;
    }

    /** The search of timer_add. */
    method FindPlace(t: Node) returns (pos: Node, ghost k: nat)
      requires Linked() && t !in queue
      ensures k == Place(Deadlines(queue), Micros(t.timeout))
      ensures pos == Elem(tq, queue, Place(Deadlines(queue), Micros(t.timeout)))
    {
      pos, k := tq.next, 0;
      while pos != tq
        invariant k <= |queue| && pos == Elem(tq, queue, k)
        invariant forall i :: 0 <= i < k ==> DiffMs(Micros(t.timeout) - Deadlines(queue)[i]) >= 0
        decreases |queue| - k
      {
        if DiffMs(Micros(t.timeout) - Micros(pos.timeout)) < 0 {
          break;
        }
        assert LinkedAt(tq, queue, k);
        pos, k := pos.next, k + 1;
      }
      PlaceAt(Deadlines(queue), Micros(t.timeout), k);
    }

    /** The node after which timer_add links the timer. */
    method Predecessor(t: Node) returns (prev: Node, ghost k: nat)
      requires Linked() && t !in queue
      ensures k == Place(Deadlines(queue), Micros(t.timeout))
      ensures prev == Elem(tq, queue, Place(Deadlines(queue), Micros(t.timeout)) - 1) && prev.next == Elem(tq, queue, k)
    {
      RingIsEmpty(tq, queue);
      if tq.IsEmpty() {
        prev, k := tq, 0;
      } else {
        var pos;
        pos, k := FindPlace(t);
        assert 0 < k ==> LinkedAt(tq, queue, k - 1);
        assert k < |queue| ==> LinkedAt(tq, queue, k);
        prev := pos.prev;
      }
    }

    /** list_push_front after a node of the queue. */
    method PushAfter(prev: Node, t: Node, ghost k: nat)
      requires Linked() && t in timers && t !in queue && t !in expired
      requires k <= |queue| && prev == Elem(tq, queue, k - 1) && prev.next == Elem(tq, queue, k)
      modifies this`queue, tq, t, queue
      ensures Linked() && queue == old(queue)[..k] + [t] + old(queue)[k..]
      ensures Deadlines(queue) == old(Deadlines(queue))[..k] + [Micros(t.timeout)] + old(Deadlines(queue))[k..]
      ensures forall u :: u in queue <==> u == t || u in old(queue)
      ensures forall u :: u in timers ==> u.timeout == old(u.timeout) && u.used == old(u.used)
    {
      ghost var q := queue;
      Attach(t, prev, prev.next, tq, queue, k, exptq, expired);
      queue := q[..k] + [t] + q[k..];
      assert q == q[..k] + q[k..];
      SameDeadlines(q);
      InsertedDeadlines(q, t, k);
    }

    /** timer_add, on a timer that is not linked. */
    method Add(t: Node)
      requires Linked() && t in timers && t !in queue && t !in expired
      requires forall u :: u in timers && u != t ==> TimerOk(u)
      requires Normal(t.timeout) && !t.used
      modifies this`queue, tq, timers
      ensures Valid() && t.used
      ensures var k := Place(old(Deadlines(queue)), Micros(t.timeout));
              queue == old(queue)[..k] + [t] + old(queue)[k..]
      ensures Deadlines(queue) == Placed(old(Deadlines(queue)), Micros(t.timeout))
      ensures forall u :: u in timers ==> u.timeout == old(u.timeout)
    {
      assert forall u :: u in timers && u != t ==> old(TimerOk(u));
      t.used := true;
      SameDeadlines(queue);
      ghost var k;
      var prev;
      prev, k := Predecessor(t);
      PushAfter(prev, t, k);
    }

    /** The rest of timer_set_timeout, once the timer is not linked. */
    method Arm(t: Node, now: Timeval, msec: int)
      requires Valid() && t in timers && Normal(now) && !t.used
      modifies this`queue, tq, timers
      ensures Valid() && (t.used <==> msec >= 0)
      ensures Micros(t.timeout) == Micros(now) + if msec < 0 then 0 else msec * 1000
      ensures forall u :: u in timers && u != t ==> u.timeout == old(u.timeout)
      ensures var k := Place(old(Deadlines(queue)), Micros(t.timeout));
              queue == if msec < 0 then old(queue) else old(queue)[..k] + [t] + old(queue)[k..]
      ensures Deadlines(queue) == if msec < 0 then old(Deadlines(queue))
              else Placed(old(Deadlines(queue)), Micros(t.timeout))
    {
      assert TimerOk(t);
      assert forall u :: u in timers && u != t ==> old(TimerOk(u));
      t.timeout := now;
      SameDeadlines(queue);
      if msec < 0 {
        return;
      }
      var us := t.timeout.usec + msec * 1000;
      t.timeout := Timeval(t.timeout.sec + us / 1_000_000, us % 1_000_000);
      SameDeadlines(queue);
      Add(t);
    }

    /** timer_set_timeout, reading the clock as `now`. A negative time leaves the timer unarmed. */
    method SetTimeout(t: Node, now: Timeval, msec: int)
      requires Valid() && t in timers && Normal(now)
      modifies this`queue, this`expired, tq, exptq, timers
      ensures Valid()
      ensures expired == Without(old(expired), {t})
      ensures t.used <==> msec >= 0
      ensures Micros(t.timeout) == Micros(now) + if msec < 0 then 0 else msec * 1000
      ensures forall u :: u in timers && u != t ==> u.timeout == old(u.timeout)
      ensures var q, ds := Without(old(queue), {t}), old(Deadlines(Without(queue, {t})));
              var k := Place(ds, Micros(t.timeout));
              && queue == (if msec < 0 then q else q[..k] + [t] + q[k..])
              && Deadlines(queue) == if msec < 0 then ds else Placed(ds, Micros(t.timeout))
    {
      assert TimerOk(t);
      ghost var q, ds := Without(queue, {t}), Deadlines(Without(queue, {t}));
      if t.used {
        var _ := Remove(t);
        SameDeadlines(queue);
      } else {
        Untouched(queue, t);
        Untouched(expired, t);
      }
      Arm(t, now, msec);
    }

    /** What a handler does to one timer. */
    method Perform(op: TimerOp, ghost floor: int)
      requires Valid() && op.t in timers && (op.Rearm? ==> Normal(op.at))
      modifies this`queue, this`expired, tq, exptq, timers
      ensures Valid() && expired == Without(old(expired), {op.t})
      ensures old(Ordered(Deadlines(queue))) ==> Ordered(Deadlines(queue))
      ensures old(NotBefore(Deadlines(queue), floor)) && (op.Rearm? ==> floor <= Micros(op.at))
              ==> NotBefore(Deadlines(queue), floor)
    {
      WithoutKeepsOrder(queue, op.t, floor);
      ghost var q, ds := Without(queue, {op.t}), Deadlines(Without(queue, {op.t}));
      match op
      case Cancel(t) =>
        var _ := Remove(t);
        SameDeadlines(queue);
      case Rearm(t, at, msec) =>
        SetTimeout(t, at, msec);
        if Ordered(ds) {
          PlaceKeepsOrder(ds, Micros(t.timeout));
        }
        if NotBefore(ds, floor) && floor <= Micros(at) {
          PlacedNotBefore(ds, Micros(t.timeout), floor);
        }
    }

    /** What a handler does, timer by timer. */
    method RunHandler(ops: seq<TimerOp>, ghost floor: int)
      requires Valid() && OpsOk(ops, timers)
      modifies this`queue, this`expired, tq, exptq, timers
      ensures Valid() && expired == Without(old(expired), TimersOf(ops))
      ensures old(Ordered(Deadlines(queue))) ==> Ordered(Deadlines(queue))
      ensures old(NotBefore(Deadlines(queue), floor)) && ClockFrom(ops, floor) ==> NotBefore(Deadlines(queue), floor)
    {
      WithoutNone(expired, {});
      for i := 0 to |ops|
        invariant Valid() && expired == Without(old(expired), TimersOf(ops[..i]))
        invariant old(Ordered(Deadlines(queue))) ==> Ordered(Deadlines(queue))
        invariant old(NotBefore(Deadlines(queue), floor)) && ClockFrom(ops, floor)
                  ==> NotBefore(Deadlines(queue), floor)
      {
        WithoutTwice(old(expired), TimersOf(ops[..i]), {ops[i].t});
        assert ops[..i + 1][..i] == ops[..i];
        Perform(ops[i], floor);
      }
      assert ops[..|ops|] == ops;
    }

    /** One turn of the harvest loop. */
    method MoveFirst(pos: Node) returns (tmp: Node)
      requires Valid() && queue != [] && pos == queue[0]
      modifies this`queue, this`expired, tq, exptq, timers
      ensures Valid()
      ensures queue == old(queue)[1..] && expired == old(expired) + [old(queue)[0]]
      ensures tmp == Elem(tq, queue, 0) && Deadlines(queue) == old(Deadlines(queue))[1..]
      ensures forall u :: u in timers ==> u.timeout == old(u.timeout) && u.used == old(u.used)
    {
      assert forall u :: u in timers ==> old(TimerOk(u));
      ghost var q, e := queue, expired;
      assert LinkedAt(tq, q, 0);
      tmp := pos.next;
      MoveToBack(pos, tq, q, exptq, e);
      queue, expired := q[1..], e + [q[0]];
      assert forall u :: u in q <==> u == q[0] || u in queue;
      SameDeadlines(q);
    }

    /** The first loop of timer_timeout: the due prefix of the queue becomes the list of expired timers. */
    method Harvest(now: Timeval)
      requires Valid() && expired == []
      modifies this`queue, this`expired, tq, exptq, timers
      ensures Valid()
      ensures var k := Due(old(Deadlines(queue)), Micros(now));
              && expired == old(queue)[..k] && queue == old(queue)[k..]
              && Deadlines(queue) == old(Deadlines(queue))[k..]
      ensures forall u :: u in timers ==> u.timeout == old(u.timeout)
    {
      ghost var q, ds, k := queue, Deadlines(queue), 0;
      var pos := tq.next;
      while pos != tq
        invariant Valid() && k <= |q| && queue == q[k..] && expired == q[..k]
        invariant pos == Elem(tq, queue, 0) && Deadlines(queue) == ds[k..]
        invariant Due(ds, Micros(now)) == k + Due(ds[k..], Micros(now))
        invariant forall u :: u in timers ==> u.timeout == old(u.timeout)
        decreases |q| - k
      {
        assert pos == queue[0] && Deadlines(queue)[0] == Micros(pos.timeout);
        if DiffMs(Micros(pos.timeout) - Micros(now)) > 0 {
          break;
        }
        DueStep(ds, Micros(now), k);
        pos := MoveFirst(pos);
        k := k + 1;
      }
    }

    method PopExpired(t: Node)
      requires Valid() && expired != [] && t == expired[0]
      modifies this`expired, tq, exptq, timers
      ensures Valid() && !t.used && expired == old(expired)[1..]
      ensures forall u :: u in timers ==> u.timeout == old(u.timeout)
    {
      assert forall u :: u in timers ==> old(TimerOk(u));
      ghost var e := expired;
      DetachFirst(t, exptq, e, tq, queue);
      t.used := false;
      expired := e[1..];
      assert forall u :: u in e <==> u == t || u in expired;
    }

    /** One turn of the firing loop: the handler of t runs `ops`. */
    method FireOne(t: Node, ops: seq<TimerOp>, ghost floor: int)
      requires Valid() && expired != [] && t == expired[0] && OpsOk(ops, timers)
      modifies this`queue, this`expired, tq, exptq, timers
      ensures Valid() && expired == Without(old(expired)[1..], TimersOf(ops))
      ensures exptq.IsEmpty() <==> expired == []
      ensures old(Ordered(Deadlines(queue))) ==> Ordered(Deadlines(queue))
      ensures old(NotBefore(Deadlines(queue), floor)) && ClockFrom(ops, floor) ==> NotBefore(Deadlines(queue), floor)
    {
      PopExpired(t);
      SameDeadlines(queue);
      RunHandler(ops, floor);
      RingIsEmpty(exptq, expired);
    }

    /** The second loop of timer_timeout. Whatever the handlers do, it ends, and it fires exactly the timers
        that no earlier handler took away. */
    method FireAll(script: map<Node, seq<TimerOp>>, ghost floor: int) returns (fired: seq<Node>)
      requires Valid() && ScriptOk(script, timers)
      modifies this`queue, this`expired, tq, exptq, timers
      ensures Valid() && expired == []
      ensures fired == Fired(old(expired), Touches(script))
      ensures old(Ordered(Deadlines(queue))) ==> Ordered(Deadlines(queue))
      ensures old(NotBefore(Deadlines(queue), floor)) && ScriptFrom(script, floor)
              ==> NotBefore(Deadlines(queue), floor)
    {
      fired := [];
      RingIsEmpty(exptq, expired);
      while !exptq.IsEmpty()
        invariant Valid() && (exptq.IsEmpty() <==> expired == [])
        invariant fired + Fired(expired, Touches(script)) == Fired(old(expired), Touches(script))
        invariant old(Ordered(Deadlines(queue))) ==> Ordered(Deadlines(queue))
        invariant old(NotBefore(Deadlines(queue), floor)) && ScriptFrom(script, floor)
                  ==> NotBefore(Deadlines(queue), floor)
        decreases |expired|
      {
        var t: Node := exptq.next;
        var ops := if t in script then script[t] else [];
        FiredStep(expired, Touches(script));
        FireOne(t, ops, floor);
        fired := fired + [t];
      }
    }

    /** timer_timeout: the timers that are due fire once each, unless a handler takes them away first. With a
        clock that does not run backwards no timer that is left is due before now. */
    method Timeout(now: Timeval, script: map<Node, seq<TimerOp>>) returns (fired: seq<Node>)
      requires Valid() && expired == [] && Ordered(Deadlines(queue)) && ScriptOk(script, timers)
      modifies this`queue, this`expired, tq, exptq, timers
      ensures Valid() && expired == [] && Ordered(Deadlines(queue))
      ensures fired == Fired(old(queue)[..Due(old(Deadlines(queue)), Micros(now))], Touches(script))
              && NoDuplicates(fired)
      ensures ScriptFrom(script, Micros(now)) ==> NotBefore(Deadlines(queue), Micros(now))
    {
      LeftIsLater(Deadlines(queue), Micros(now));
      Harvest(now);
      DistinctHasNoDuplicates(expired);
      FiredOnce(expired, Touches(script));
      fired := FireAll(script, Micros(now));
    }

    /** timer_age_queue: fire, and say how long the daemon may sleep. With a clock that does not run backwards
        the sleep is normalised, not negative, exact for the head of the queue and too long for no timer by a
        millisecond or more. */
    method AgeQueue(now: Timeval, script: map<Node, seq<TimerOp>>) returns (sleep: Sleep, fired: seq<Node>)
      requires Valid() && expired == [] && Ordered(Deadlines(queue))
      requires Normal(now) && ScriptOk(script, timers) && ScriptFrom(script, Micros(now))
      modifies this`queue, this`expired, tq, exptq, timers
      ensures Valid() && expired == [] && Ordered(Deadlines(queue))
      ensures fired == Fired(old(queue)[..Due(old(Deadlines(queue)), Micros(now))], Touches(script))
              && NoDuplicates(fired)
      ensures sleep.Forever? <==> queue == []
      ensures sleep.Until? ==> SleepOk(sleep.remaining, Deadlines(queue), Micros(now))
    {
      RingIsEmpty(tq, queue);
      if tq.IsEmpty() {
        return Forever, [];
      }
      fired := Timeout(now, script);
      RingIsEmpty(tq, queue);
      if tq.IsEmpty() {
        return Forever, fired;
      }
      var t := tq.next;
      assert TimerOk(t) && t == queue[0];
      var sec, usec := t.timeout.sec - now.sec, t.timeout.usec - now.usec;
      if usec < 0 {
        sec, usec := sec - 1, usec + 1_000_000;
      }
      sleep := Until(Timeval(sec, usec));
    }
  }
}
