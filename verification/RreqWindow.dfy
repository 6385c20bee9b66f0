/**
 The filter against duplicate route requests: the list of RREQ records together with the timers that
 expire them. Each handler reads the clock once, in microseconds.
 */
module RreqWindow {
  import opened Words
  import opened Params
  import opened RouteSpec
  import opened TimerOrder
  import opened Firing
  import opened Sequences

  type Key = (Addr, u32)  // originator and RREQ id

  /** Whose timer: a record's, or some other part of the daemon's, such as a routing entry. */
  datatype Owner = Record(key: Key) | Other(who: Party)

  datatype Party = Route(dest: Addr) | Elsewhere(n: int)

  datatype Pending = Pending(owner: Owner, deadline: int)

  datatype Filter = Filter(records: seq<Key>, queue: seq<Pending>)

  /** PATH_DISCOVERY_TIME in microseconds. */
  const WINDOW := 1000 * PATH_DISCOVERY_TIME

  function Deadlines(q: seq<Pending>): (ds: seq<int>)
    ensures |ds| == |q|
  {
    seq(|q|, i requires 0 <= i < |q| => q[i].deadline)
  }

  /** timer_remove by owner. */
  function Disarmed(q: seq<Pending>, o: Owner): (r: seq<Pending>) {
    if q == [] then [] else if q[0].owner == o then Disarmed(q[1..], o) else [q[0]] + Disarmed(q[1..], o)
  }

  /** timer_add. */
  function Armed(q: seq<Pending>, p: Pending): (r: seq<Pending>) {
    var k := Place(Deadlines(q), p.deadline);
    q[..k] + [p] + q[k..]
  }

  /** rreq_record_check and rreq_record_insert, as rreq_process calls them. */
  function Heard(f: Filter, now: int, key: Key): (f': Filter) {
    if key in f.records then f
    else Filter([key] + f.records, Armed(f.queue, Pending(Record(key), now + WINDOW)))
  }

  /** Which records a list of fired timers expires. */
  function RecordsOf(q: seq<Pending>): (s: set<Key>) {
    if q == [] then {}
    else RecordsOf(q[..|q| - 1]) + match q[|q| - 1].owner case Record(key) => {key} case Other(_) => {}
  }

  /** timer_timeout, where a record's timer runs rreq_record_timeout. */
  function Aged(f: Filter, now: int): (f': Filter) {
    var k := Due(Deadlines(f.queue), now);
    Filter(Without(f.records, RecordsOf(f.queue[..k])), f.queue[k..])
  }

  datatype Event =
    | Hear(now: int, key: Key)
    | Age(now: int)
    | SetOther(now: int, who: Party, msec: nat)
    | StopOther(now: int, who: Party)

  function Next(f: Filter, ev: Event): (f': Filter) {
    match ev
    case Hear(now, key) => Heard(f, now, key)
    case Age(now) => Aged(f, now)
    case SetOther(now, who, msec) =>
      f.(queue := Armed(Disarmed(f.queue, Other(who)), Pending(Other(who), now + msec * 1000)))
    case StopOther(_, who) => f.(queue := Disarmed(f.queue, Other(who)))
  }

  predicate Monotone(evs: seq<Event>, from: int) {
    evs == [] || (from <= evs[0].now && Monotone(evs[1..], evs[0].now))
  }

  /** The requests that pass the filter, each with the time at which it did. */
  function Passed(f: Filter, evs: seq<Event>): (s: seq<(Key, int)>)
    decreases evs
  {
    if evs == [] then []
    else if Passes(f, evs[0]) then [(evs[0].key, evs[0].now)] + Passed(Next(f, evs[0]), evs[1..])
    else Passed(Next(f, evs[0]), evs[1..])
  }

  predicate Passes(f: Filter, ev: Event) { ev.Hear? && ev.key !in f.records }

  lemma PassedStep(f: Filter, evs: seq<Event>)
    requires evs != []
    ensures var rest := Passed(Next(f, evs[0]), evs[1..]);
            Passed(f, evs) == if Passes(f, evs[0]) then [(evs[0].key, evs[0].now)] + rest else rest
  {
  }

  // ----- the invariant -------------------------------------------------------------------------------

  lemma {:induction false} RecordsOfIff(q: seq<Pending>, key: Key)
    ensures key in RecordsOf(q) <==> !Free(q, Record(key))
  {
    if q != [] {
      RecordsOfIff(q[..|q| - 1], key);
      FreeSplit(q[..|q| - 1], [q[|q| - 1]], Record(key));
      assert q == q[..|q| - 1] + [q[|q| - 1]];
    }
  }

  lemma FreeSplit(a: seq<Pending>, b: seq<Pending>, o: Owner)
    ensures Free(a + b, o) <==> Free(a, o) && Free(b, o)
  {
    if Free(a + b, o) {
      assert forall p :: p in a || p in b ==> p in a + b;
    }
  }

  /** The two parts of a queue share no owner. */
  lemma {:induction false} OneTimerSplit(a: seq<Pending>, b: seq<Pending>)
    ensures OneTimerEach(a + b) <==> OneTimerEach(a) && OneTimerEach(b) && forall p :: p in a ==> Free(b, p.owner)
  {
    if a == [] {
      assert a + b == b;
    } else {
      assert (a + b)[1..] == a[1..] + b;
      OneTimerSplit(a[1..], b);
    }
  }

  predicate Free(q: seq<Pending>, o: Owner) {
    forall p :: p in q ==> p.owner != o
  }

  predicate OneTimerEach(q: seq<Pending>) {
    q == [] || (Free(q[1..], q[0].owner) && OneTimerEach(q[1..]))
  }

  /** Records are distinct and are exactly the keys of the record timers; no owner has two timers. */
  ghost predicate Inv(f: Filter) {
    && NoDuplicates(f.records) && Ordered(Deadlines(f.queue)) && OneTimerEach(f.queue)
    && (forall key :: key in f.records <==> !Free(f.queue, Record(key)))
  }

  lemma {:induction false} DisarmedMembers(q: seq<Pending>, o: Owner)
    ensures forall p :: p in Disarmed(q, o) <==> p in q && p.owner != o
    ensures |Disarmed(q, o)| <= |q|
  {
    if q != [] {
      DisarmedMembers(q[1..], o);
    }
  }

  lemma {:induction false} DisarmedKeeps(q: seq<Pending>, o: Owner)
    requires Ordered(Deadlines(q)) && OneTimerEach(q)
    ensures Ordered(Deadlines(Disarmed(q, o))) && OneTimerEach(Disarmed(q, o))
  {
    if q != [] {
      var rest := Disarmed(q[1..], o);
      assert Deadlines(q) == [q[0].deadline] + Deadlines(q[1..]);
      assert Deadlines([q[0]] + rest) == [q[0].deadline] + Deadlines(rest);
      OrderedCons(q[0].deadline, Deadlines(q[1..]));
      OrderedCons(q[0].deadline, Deadlines(rest));
      DisarmedKeeps(q[1..], o);
      DisarmedMembers(q[1..], o);
      forall i | 0 <= i < |rest|
        ensures exists j :: 0 <= j < |q| - 1 && Deadlines(q[1..])[j] == Deadlines(rest)[i]
      {
        assert rest[i] in rest;
        var j :| 0 <= j < |q| - 1 && q[1..][j] == rest[i];
        assert Deadlines(q[1..])[j] == Deadlines(rest)[i];
      }
      assert ([q[0]] + rest)[1..] == rest;
    }
  }

  lemma ArmedKeeps(q: seq<Pending>, p: Pending)
    requires Ordered(Deadlines(q)) && OneTimerEach(q) && Free(q, p.owner)
    ensures Ordered(Deadlines(Armed(q, p))) && OneTimerEach(Armed(q, p))
    ensures forall r :: r in Armed(q, p) <==> r == p || r in q
  {
    var k := Place(Deadlines(q), p.deadline);
    PlaceKeepsOrder(Deadlines(q), p.deadline);
    assert Deadlines(Armed(q, p)) == Placed(Deadlines(q), p.deadline);
    assert q == q[..k] + q[k..] && Armed(q, p) == q[..k] + ([p] + q[k..]);
    OneTimerSplit(q[..k], q[k..]);
    OneTimerSplit([p], q[k..]);
    OneTimerSplit(q[..k], [p] + q[k..]);
  }

  lemma NextKeepsInv(f: Filter, ev: Event)
    requires Inv(f)
    ensures Inv(Next(f, ev))
  {
    match ev
    case Hear(now, key) => HeardKeepsInv(f, now, key);
    case Age(now) => AgedKeepsInv(f, now);
    case SetOther(now, who, msec) => SetKeepsInv(f, now, who, msec);
    case StopOther(now, who) => StopKeepsInv(f, now, who);
  }

  lemma HeardKeepsInv(f: Filter, now: int, key: Key)
    requires Inv(f)
    ensures Inv(Next(f, Hear(now, key)))
  {
    if key !in f.records {
      ArmedKeeps(f.queue, Pending(Record(key), now + WINDOW));
      assert ([key] + f.records)[1..] == f.records;
    }
  }

  lemma StopKeepsInv(f: Filter, now: int, who: Party)
    requires Inv(f)
    ensures Inv(Next(f, StopOther(now, who)))
  {
    DisarmedKeeps(f.queue, Other(who));
    DisarmedMembers(f.queue, Other(who));
  }

  lemma SetKeepsInv(f: Filter, now: int, who: Party, msec: nat)
    requires Inv(f)
    ensures Inv(Next(f, SetOther(now, who, msec)))
  {
    var g, p := Next(f, StopOther(now, who)), Pending(Other(who), now + msec * 1000);
    StopKeepsInv(f, now, who);
    assert Free(g.queue, p.owner) by { DisarmedMembers(f.queue, Other(who)); }
    ArmedKeepsInv(g, p);
    assert Next(f, SetOther(now, who, msec)) == g.(queue := Armed(g.queue, p));
  }

  lemma ArmedKeepsInv(f: Filter, p: Pending)
    requires Inv(f) && p.owner.Other? && Free(f.queue, p.owner)
    ensures Inv(f.(queue := Armed(f.queue, p)))
  {
    ArmedKeeps(f.queue, p);
    forall key: Key
      ensures Free(Armed(f.queue, p), Record(key)) <==> Free(f.queue, Record(key))
    {
      if Free(Armed(f.queue, p), Record(key)) {
        assert forall r :: r in f.queue ==> r in Armed(f.queue, p);
      }
    }
  }

  lemma AgedKeepsInv(f: Filter, now: int)
    requires Inv(f)
    ensures Inv(Next(f, Age(now)))
    ensures forall key ::
              key in Aged(f, now).records
              <==> key in f.records && Free(f.queue[..Due(Deadlines(f.queue), now)], Record(key))
  {
    var k := Due(Deadlines(f.queue), now);
    WithoutKeepsNoDuplicates(f.records, RecordsOf(f.queue[..k]));
    WithoutShrinks(f.records, RecordsOf(f.queue[..k]));
    assert Deadlines(f.queue[k..]) == Deadlines(f.queue)[k..];
    HarvestSplits(f.queue, k);
  }

  /** Every owner's timer is on one side of a cut. */
  lemma HarvestSplits(q: seq<Pending>, k: nat)
    requires k <= |q| && OneTimerEach(q)
    ensures OneTimerEach(q[k..])
    ensures forall key: Key :: key in RecordsOf(q[..k]) <==> !Free(q[..k], Record(key))
    ensures forall key: Key :: Free(q, Record(key)) <==> Free(q[..k], Record(key)) && Free(q[k..], Record(key))
    ensures forall key: Key :: Free(q[..k], Record(key)) || Free(q[k..], Record(key))
  {
    var a, b := q[..k], q[k..];
    assert q == a + b;
    OneTimerSplit(a, b);
    forall key: Key
      ensures key in RecordsOf(a) <==> !Free(a, Record(key))
      ensures Free(q, Record(key)) <==> Free(a, Record(key)) && Free(b, Record(key))
      ensures Free(a, Record(key)) || Free(b, Record(key))
    {
      RecordsOfIff(a, key);
      FreeSplit(a, b, Record(key));
    }
  }

  /** The request that passed at `at` is still remembered, by a record and its timer. */
  predicate Guarded(f: Filter, key: Key, at: int) {
    key in f.records && Pending(Record(key), at + WINDOW) in f.queue
  }

  /** An aging pass forgets every request whose window has ended, and no request whose window ends a
      millisecond or more later. */
  lemma AgedGuard(f: Filter, now: int, key: Key, at: int)
    requires Inv(f) && Guarded(f, key, at)
    ensures Guarded(Aged(f, now), key, at) || (key !in Aged(f, now).records && at + WINDOW < now + 1000)
    ensures at + WINDOW <= now ==> key !in Aged(f, now).records
  {
    var p, k := Pending(Record(key), at + WINDOW), Due(Deadlines(f.queue), now);
    AgedKeepsInv(f, now);
    var before := CutAt(f.queue, now, p);
    if !before {
      AgedSpares(f.queue, k, p);
    }
  }

  /** On which side of the cut p is, and what that says of its deadline. */
  lemma CutAt(q: seq<Pending>, now: int, p: Pending) returns (before: bool)
    requires Ordered(Deadlines(q)) && p in q
    ensures var k := Due(Deadlines(q), now);
            if before then p in q[..k] && p.deadline < now + 1000 else p in q[k..] && p.deadline > now
  {
    var k := Due(Deadlines(q), now);
    DueIsSound(Deadlines(q), now);
    var i :| 0 <= i < |q| && q[i] == p;
    assert Deadlines(q)[i] == p.deadline;
    before := i < k;
    if before {
      assert q[..k][i] == p;
    } else {
      assert q[k..][i - k] == p;
    }
  }

  lemma AgedSpares(q: seq<Pending>, k: nat, p: Pending)
    requires k <= |q| && OneTimerEach(q) && p in q[k..]
    ensures Free(q[..k], p.owner)
  {
    assert q == q[..k] + q[k..];
    OneTimerSplit(q[..k], q[k..]);
  }

  /** A request that has passed is remembered until less than a millisecond before its window ends. */
  lemma GuardMoves(f: Filter, ev: Event, key: Key, at: int)
    requires Inv(f) && Guarded(f, key, at)
    ensures Guarded(Next(f, ev), key, at) || (ev.Age? && at + WINDOW < ev.now + 1000)
  {
    var p := Pending(Record(key), at + WINDOW);
    match ev
    case Hear(now, key2) =>
      if key2 !in f.records {
        ArmedKeeps(f.queue, Pending(Record(key2), now + WINDOW));
      }
    case Age(now) =>
      AgedGuard(f, now, key, at);
    case SetOther(now, who, msec) =>
      DisarmedKeeps(f.queue, Other(who));
      DisarmedMembers(f.queue, Other(who));
      ArmedKeeps(Disarmed(f.queue, Other(who)), Pending(Other(who), now + msec * 1000));
    case StopOther(_, who) =>
      DisarmedMembers(f.queue, Other(who));
  }

  /** Once a request has passed at `at`, it does not pass again for the length of the window less one
      millisecond, whatever happens in between. */
  lemma {:induction false} GuardedApart(f: Filter, evs: seq<Event>, key: Key, at: int, from: int, j: nat)
    requires Inv(f) && Monotone(evs, from) && j < |Passed(f, evs)| && Passed(f, evs)[j].0 == key
    requires Guarded(f, key, at) || at + WINDOW < from + 1000
    ensures Passed(f, evs)[j].1 > at + WINDOW - 1000
    decreases evs
  {
    PassedStep(f, evs);
    if Passes(f, evs[0]) && j == 0 {
      assert !Guarded(f, key, at);
    } else {
      NextKeepsInv(f, evs[0]);
      if Guarded(f, key, at) {
        GuardMoves(f, evs[0], key, at);
      }
      GuardedApart(Next(f, evs[0]), evs[1..], key, at, evs[0].now, if Passes(f, evs[0]) then j - 1 else j);
    }
  }

  lemma PassingGuards(f: Filter, ev: Event)
    requires Inv(f) && Passes(f, ev)
    ensures Guarded(Next(f, ev), ev.key, ev.now)
  {
    ArmedKeeps(f.queue, Pending(Record(ev.key), ev.now + WINDOW));
  }

  /** In every run with a monotone clock, two RREQs with one originator and id that both pass the filter
      are more than PATH_DISCOVERY_TIME less a millisecond apart. */
  lemma {:induction false} PassedApart(f: Filter, evs: seq<Event>, from: int, i: nat, j: nat)
    requires Inv(f) && Monotone(evs, from)
    requires i < j < |Passed(f, evs)| && Passed(f, evs)[i].0 == Passed(f, evs)[j].0
    ensures Passed(f, evs)[j].1 - Passed(f, evs)[i].1 > WINDOW - 1000
    decreases evs
  {
    var f', first := Next(f, evs[0]), Passes(f, evs[0]);
    PassedStep(f, evs);
    NextKeepsInv(f, evs[0]);
    if first && i == 0 {
      PassingGuards(f, evs[0]);
      GuardedApart(f', evs[1..], evs[0].key, evs[0].now, evs[0].now, j - 1);
    } else {
      PassedApart(f', evs[1..], evs[0].now, if first then i - 1 else i, if first then j - 1 else j);
    }
  }

  // ----- the record list as the daemon keeps it ------------------------------------------------------------

  class RecordList {
    var records: seq<Key>
    var queue: seq<Pending>

    ghost function State(): (f: Filter)
      reads this
    {
      Filter(records, queue)
    }

    constructor ()
      ensures State() == Filter([], []) && Inv(State())
    {
      records, queue := [], [];
    }

    /** rreq_record_check. */
    method Check(key: Key) returns (found: bool)
      ensures found <==> key in records
    {
      var i := 0;
      while i < |records|
        invariant 0 <= i <= |records| && key !in records[..i]
      {
        if records[i] == key {
          return true;
        }
        i := i + 1;
      }
      return false;
    }

    /** rreq_record_check, then rreq_record_insert unless the request is known. */
    method Hear(now: int, key: Key) returns (passed: bool)
      requires Inv(State())
      modifies this
      ensures State() == Heard(old(State()), now, key) && Inv(State())
      ensures passed <==> key !in old(records)
    {
      NextKeepsInv(State(), Event.Hear(now, key));
      var known := Check(key);
      if known {
        return false;
      }
      records := [key] + records;
      queue := Armed(queue, Pending(Record(key), now + WINDOW));
      return true;
    }

    /** timer_timeout: harvest, then run the handlers in order. */
    method Age(now: int)
      requires Inv(State())
      modifies this
      ensures State() == Aged(old(State()), now) && Inv(State())
    {
      AgedKeepsInv(State(), now);
      var k := Due(Deadlines(queue), now);
      var expired := queue[..k];
      queue := queue[k..];
      WithoutNone(records, {});
      for i := 0 to |expired|
        invariant queue == old(queue)[k..] && records == Without(old(records), RecordsOf(expired[..i]))
      {
        assert expired[..i + 1][..i] == expired[..i];
        match expired[i].owner
        case Record(key) =>
          WithoutTwice(old(records), RecordsOf(expired[..i]), {key});
          records := Without(records, {key});
        case Other(_) =>
          assert RecordsOf(expired[..i + 1]) == RecordsOf(expired[..i]);
      }
      assert expired[..|expired|] == expired;
    }
  }
}
