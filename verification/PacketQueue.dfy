/**
 The kernel's queue of packets that wait for a route. The list is written from its tail, which is where
 every walk starts: new entries are added at the other end.
 */
module PacketQueue {
  import opened Words
  import opened ExpiryList

  const MAX_QUEUE := 1024

  /** A held packet and the destination it was filed under. */
  datatype Held = Held(skb: seq<int>, daddr: u32)

  /** How a packet left the queue: handed back to the stack along a route, or freed. */
  datatype Outcome = Sent(route: Route) | Dropped

  /** `accepted` and `released` are the histories: what was ever queued, and what left, in order. */
  datatype Queue = Queue(held: seq<Held>, total: int, accepted: seq<Held>, released: seq<(Held, Outcome)>)

  function For(q: seq<Held>, d: u32): (r: seq<Held>) {
    if q == [] then [] else if q[0].daddr == d then [q[0]] + For(q[1..], d) else For(q[1..], d)
  }

  function NotFor(q: seq<Held>, d: u32): (r: seq<Held>) {
    if q == [] then [] else if q[0].daddr == d then NotFor(q[1..], d) else [q[0]] + NotFor(q[1..], d)
  }

  function All(q: seq<Held>, o: Outcome): (r: seq<(Held, Outcome)>)
    ensures |r| == |q|
  {
    seq(|q|, i requires 0 <= i < |q| => (q[i], o))
  }

  lemma AllStep(q: seq<Held>, k: nat, o: Outcome)
    requires k < |q|
    ensures All(q[..k + 1], o) == All(q[..k], o) + [(q[k], o)]
  {
    assert q[..k + 1] == q[..k] + [q[k]];
  }

  function Packets(r: seq<(Held, Outcome)>): (q: seq<Held>)
    ensures |q| == |r|
  {
    seq(|r|, i requires 0 <= i < |r| => r[i].0)
  }

  /** kaodv_queue_enqueue_packet. */
  function Enqueued(s: Queue, p: Held): (s': Queue) {
    if s.total >= MAX_QUEUE then s
    else s.(held := s.held + [p], total := s.total + 1, accepted := s.accepted + [p])
  }

  /** kaodv_queue_set_verdict: every packet for d leaves, oldest first, with one outcome. */
  function Judged(s: Queue, d: u32, o: Outcome): (s': Queue) {
    s.(held := NotFor(s.held, d), total := s.total - |For(s.held, d)|, released := s.released + All(For(s.held, d), o))
  }

  /** The packets for d, those released and then those held, are the ones accepted for d, in order; and the
      counter is the length of the list. */
  ghost predicate Fifo(s: Queue) {
    && s.total == |s.held| <= MAX_QUEUE
    && forall d: u32 :: For(Packets(s.released), d) + For(s.held, d) == For(s.accepted, d)
  }

  lemma {:induction false} ForConcat(a: seq<Held>, b: seq<Held>, d: u32)
    ensures For(a + b, d) == For(a, d) + For(b, d)
  {
    if a == [] {
      assert a + b == b;
    } else {
      assert (a + b)[1..] == a[1..] + b;
      ForConcat(a[1..], b, d);
    }
  }

  lemma {:induction false} ForOthers(q: seq<Held>, d: u32, e: u32)
    ensures For(NotFor(q, d), e) == if d == e then [] else For(q, e)
    ensures For(For(q, d), e) == if d == e then For(q, d) else []
    ensures |For(q, d)| + |NotFor(q, d)| == |q|
  {
    if q != [] {
      ForOthers(q[1..], d, e);
      if q[0].daddr == d {
        assert ([q[0]] + For(q[1..], d))[1..] == For(q[1..], d);
      } else {
        assert ([q[0]] + NotFor(q[1..], d))[1..] == NotFor(q[1..], d);
      }
    }
  }

  lemma EnqueuedKeeps(s: Queue, p: Held)
    requires Fifo(s)
    ensures Fifo(Enqueued(s, p))
  {
    forall d: u32
      ensures For(Packets(s.released), d) + For(s.held + [p], d) == For(s.accepted + [p], d)
    {
      ForConcat(s.held, [p], d);
      ForConcat(s.accepted, [p], d);
    }
  }

  lemma JudgedKeeps(s: Queue, d: u32, o: Outcome)
    requires Fifo(s)
    ensures Fifo(Judged(s, d, o))
  {
    ForOthers(s.held, d, d);
    var out := All(For(s.held, d), o);
    assert Packets(out) == For(s.held, d);
    assert Packets(s.released + out) == Packets(s.released) + Packets(out);
    forall e: u32
      ensures For(Packets(s.released + out), e) + For(NotFor(s.held, d), e) == For(s.accepted, e)
    {
      ForConcat(Packets(s.released), Packets(out), e);
      ForOthers(s.held, d, e);
    }
  }

  // ----- runs ----------------------------------------------------------------------------------------

  datatype Op = Enqueue(p: Held) | Judge(d: u32, o: Outcome) | Flush

  function Flushed(s: Queue): (s': Queue) {
    s.(held := [], total := 0, released := s.released + All(s.held, Dropped))
  }

  function Do(s: Queue, op: Op): (s': Queue) {
    match op
    case Enqueue(p) => Enqueued(s, p)
    case Judge(d, o) => Judged(s, d, o)
    case Flush => Flushed(s)
  }

  function Run(s: Queue, ops: seq<Op>): (s': Queue)
    decreases ops
  {
    if ops == [] then s else Run(Do(s, ops[0]), ops[1..])
  }

  lemma FlushedKeeps(s: Queue)
    requires Fifo(s)
    ensures Fifo(Flushed(s))
  {
    var out := All(s.held, Dropped);
    assert Packets(out) == s.held;
    assert Packets(s.released + out) == Packets(s.released) + Packets(out);
    forall e: u32
      ensures For(Packets(s.released + out), e) + For([], e) == For(s.accepted, e)
    {
      ForConcat(Packets(s.released), Packets(out), e);
    }
  }

  /** In every run, for every destination, packets leave in the order in which they were accepted. */
  lemma {:induction false} FifoOverRuns(s: Queue, ops: seq<Op>)
    requires Fifo(s)
    ensures Fifo(Run(s, ops))
    decreases ops
  {
    if ops != [] {
      match ops[0] {
        case Enqueue(p) => EnqueuedKeeps(s, p);
        case Judge(d, o) => JudgedKeeps(s, d, o);
        case Flush => FlushedKeeps(s);
      }
      FifoOverRuns(Do(s, ops[0]), ops[1..]);
    }
  }

  /** Conservation: every accepted packet is in exactly one of queued, sent and dropped. */
  lemma Conservation(s: Queue)
    requires Fifo(s)
    ensures multiset(s.accepted) == multiset(s.held) + multiset(Packets(s.released))
  {
    forall p: Held
      ensures multiset(s.accepted)[p] == multiset(s.held)[p] + multiset(Packets(s.released))[p]
    {
      var d := p.daddr;
      CountFor(s.accepted, p);
      CountFor(s.held, p);
      CountFor(Packets(s.released), p);
      assert multiset(For(Packets(s.released), d) + For(s.held, d))
          == multiset(For(Packets(s.released), d)) + multiset(For(s.held, d));
    }
  }

  lemma {:induction false} CountFor(q: seq<Held>, p: Held)
    ensures multiset(q)[p] == multiset(For(q, p.daddr))[p]
  {
    if q != [] {
      CountFor(q[1..], p);
      assert q == [q[0]] + q[1..];
      assert multiset(q) == multiset{q[0]} + multiset(q[1..]);
    }
  }

  /** A flush drops every packet that waits, and none waits afterwards. */
  lemma FlushDropsAll(s: Queue, p: Held)
    requires p in s.held
    ensures Flushed(s).held == [] && |s.released| <= |Flushed(s).released| == |s.released| + |s.held|
    ensures (p, Dropped) in Flushed(s).released[|s.released|..]
  {
    var out := All(s.held, Dropped);
    var i :| 0 <= i < |s.held| && s.held[i] == p;
    assert Flushed(s).released[|s.released|..] == out && out[i] == (p, Dropped);
  }

  // ----- the queue as the kernel module keeps it -------------------------------------------------------

  datatype Match = Any | Dest(d: u32)

  predicate Matches(m: Match, p: Held) { m.Any? || m.d == p.daddr }

  /** The oldest packet that matches, or the length of the queue. */
  function Oldest(q: seq<Held>, m: Match): (k: nat)
    ensures k <= |q|
  {
    if q == [] || Matches(m, q[0]) then 0 else 1 + Oldest(q[1..], m)
  }

  lemma {:induction false} OldestSplits(q: seq<Held>, d: u32)
    ensures var k := Oldest(q, Dest(d));
            && (k < |q| ==>
                  For(q, d) == [q[k]] + For(q[..k] + q[k + 1..], d) && NotFor(q, d) == NotFor(q[..k] + q[k + 1..], d))
            && (k == |q| ==> For(q, d) == [] && NotFor(q, d) == q)
  {
    if q != [] && q[0].daddr != d {
      OldestSplits(q[1..], d);
      var k := Oldest(q[1..], Dest(d));
      if k < |q[1..]| {
        assert q[..k + 1] + q[k + 2..] == [q[0]] + (q[1..][..k] + q[1..][k + 1..]);
        assert (q[..k + 1] + q[k + 2..])[1..] == q[1..][..k] + q[1..][k + 1..];
      }
    } else if q != [] {
      assert q[..0] + q[1..] == q[1..];
    }
  }

  class KernelQueue {
    var held: seq<Held>
    var total: int
    ghost var accepted: seq<Held>
    ghost var released: seq<(Held, Outcome)>

    ghost function State(): (s: Queue)
      reads this
    {
      Queue(held, total, accepted, released)
    }

    /** kaodv_queue_init. */
    constructor ()
      ensures State() == Queue([], 0, [], []) && Fifo(State())
    {
      held, total, accepted, released := [], 0, [], [];
    }

    /** kaodv_queue_enqueue_packet. */
    method EnqueuePacket(skb: seq<int>, daddr: u32) returns (ok: bool)
      requires Fifo(State())
      modifies this
      ensures State() == Enqueued(old(State()), Held(skb, daddr)) && Fifo(State())
      ensures ok <==> old(total) < MAX_QUEUE
    {
      EnqueuedKeeps(State(), Held(skb, daddr));
      if total >= MAX_QUEUE {
        return false;
      }
      held := held + [Held(skb, daddr)];
      total := total + 1;
      accepted := accepted + [Held(skb, daddr)];
      return true;
    }

    /** __kaodv_queue_check_entry. */
    method CheckEntry(m: Match) returns (k: nat)
      ensures k == Oldest(held, m)
    {
      k := 0;
      while k < |held| && !Matches(m, held[k])
        invariant k <= |held| && Oldest(held, m) == k + Oldest(held[k..], m)
      {
        assert held[k..][1..] == held[k + 1..];
        k := k + 1;
      }
    }

    /** kaodv_queue_check. */
    method Check(d: u32) returns (found: bool)
      ensures found <==> For(held, d) != []
    {
      OldestSplits(held, d);
      var k := CheckEntry(Dest(d));
      return k < |held|;
    }

    /** __kaodv_queue_check_delqueue_entry; the packet, if any, leaves with the outcome the caller gives it. */
    method CheckDelete(m: Match, ghost o: Outcome) returns (found: bool, p: Held)
      requires total == |held|
      modifies this`held, this`total, this`released
      ensures total == |held| && (found <==> Oldest(old(held), m) < |old(held)|)
      ensures !found ==> held == old(held) && released == old(released)
      ensures found ==>
                var k := Oldest(old(held), m);
                p == old(held)[k] && held == old(held)[..k] + old(held)[k + 1..] && released == old(released) + [(p, o)]
    {
      var k := CheckEntry(m);
      if k == |held| {
        return false, Held([], 0);
      }
      p := held[k];
      held := held[..k] + held[k + 1..];
      total := total - 1;
      released := released + [(p, o)];
      return true, p;
    }

    /** One turn of a loop of kaodv_queue_set_verdict. */
    method Take(d: u32, ghost o: Outcome) returns (found: bool, p: Held)
      requires total == |held|
      modifies this`held, this`total, this`released
      ensures total == |held| && NotFor(held, d) == NotFor(old(held), d)
      ensures found ==>
                For(old(held), d) == [p] + For(held, d) && released == old(released) + [(p, o)] && |held| < |old(held)|
      ensures !found ==> For(held, d) == [] && held == old(held) == NotFor(held, d) && released == old(released)
    {
      OldestSplits(held, d);
      found, p := CheckDelete(Dest(d), o);
    }

    /** The loops of kaodv_queue_set_verdict: all packets for d leave; `first` is the one an ICMP error would
        be about. */
    method Drain(d: u32, ghost o: Outcome) returns (pkts: nat, first: seq<Held>)
      requires Fifo(State())
      modifies this`held, this`total, this`released
      ensures State() == Judged(old(State()), d, o) && Fifo(State())
      ensures pkts == |For(old(held), d)| && first == For(old(held), d)[..if pkts > 0 then 1 else 0]
    {
      JudgedKeeps(State(), d, o);
      ForOthers(held, d, d);
      pkts, first := 0, [];
      ghost var all := For(held, d);
      while true
        invariant total == |held| && pkts <= |all|
        invariant NotFor(held, d) == NotFor(old(held), d) && For(held, d) == all[pkts..]
        invariant released == old(released) + All(all[..pkts], o)
        invariant first == all[..if pkts > 0 then 1 else 0]
        decreases |held|
      {
        var found, p := Take(d, o);
        if !found {
          break;
        }
        assert p == all[pkts];
        AllStep(all, pkts, o);
        if pkts == 0 {
          first := [p];
        }
        pkts := pkts + 1;
      }
      ForOthers(held, d, d);
      assert all[..pkts] == all;
    }

    /** kaodv_queue_flush. */
    method FlushAll()
      requires Fifo(State())
      modifies this`held, this`total, this`released
      ensures State() == Flushed(old(State())) && Fifo(State())
    {
      FlushedKeeps(State());
      ghost var all, k := held, 0;
      while held != []
        invariant total == |held| && k <= |all| && held == all[k..]
        invariant released == old(released) + All(all[..k], Dropped)
        decreases |held|
      {
        var _, p := CheckDelete(Any, Dropped);
        assert p == all[k];
        assert all[k..][..0] + all[k..][1..] == all[k + 1..];
        assert All(all[..k + 1], Dropped) == All(all[..k], Dropped) + [(p, Dropped)];
        k := k + 1;
      }
      assert all[..k] == all;
    }
  }
}
