/**
 aodv_socket_send: how many RREQs and RERRs a node may send a second. Each kind has an array of the
 times of its last ten sends. Times are in microseconds; one call reads the clock once.
 */
module RateLimit {
  import opened Words

  const LIMIT := 10

  /** Nothing is refused until ten have been sent; then the tenth last must be a second old. */
  predicate Open(h: seq<int>, now: int) {
    |h| < LIMIT || DiffMs(now - h[|h| - LIMIT]) >= 1000
  }

  /** The times of the messages sent, out of the attempts at `ts`. */
  function Sent(ts: seq<int>): (h: seq<int>) {
    if ts == [] then []
    else
      var h, now := Sent(ts[..|ts| - 1]), ts[|ts| - 1];
      if Open(h, now) then h + [now] else h
  }

  predicate Rising(ts: seq<int>) {
    forall i, j :: 0 <= i < j < |ts| ==> ts[i] <= ts[j]
  }

  /** Every message but the first ten is sent at least a second after the tenth before it. */
  predicate Spaced(h: seq<int>) {
    forall i :: LIMIT <= i < |h| ==> h[i] - h[i - LIMIT] >= 1_000_000
  }

  lemma OneMore(h: seq<int>, now: int)
    requires Rising(h) && Spaced(h) && Open(h, now) && (h == [] || h[|h| - 1] <= now)
    ensures Rising(h + [now]) && Spaced(h + [now])
  {
  }

  lemma {:induction false} SentIsSpaced(ts: seq<int>)
    requires Rising(ts)
    ensures Rising(Sent(ts)) && Spaced(Sent(ts))
    ensures Sent(ts) != [] ==> Sent(ts)[|Sent(ts)| - 1] <= ts[|ts| - 1]
  {
    if ts != [] {
      var rest, now := ts[..|ts| - 1], ts[|ts| - 1];
      SentIsSpaced(rest);
      assert rest != [] ==> rest[|rest| - 1] <= now;
      if Open(Sent(rest), now) {
        OneMore(Sent(rest), now);
      }
    }
  }

  /** How many of the times are in the second that begins at `from`. */
  function CountIn(h: seq<int>, from: int): (n: nat) {
    if h == [] then 0
    else CountIn(h[..|h| - 1], from) + if from <= h[|h| - 1] < from + 1_000_000 then 1 else 0
  }

  lemma {:induction false} CountBefore(h: seq<int>, from: int)
    requires forall i :: 0 <= i < |h| ==> h[i] < from
    ensures CountIn(h, from) == 0
  {
    if h != [] {
      CountBefore(h[..|h| - 1], from);
    }
  }

  lemma {:induction false} CountTail(h: seq<int>, from: int, m: nat)
    requires m <= |h|
    ensures CountIn(h, from) <= CountIn(h[..m], from) + |h| - m
    ensures (forall i :: m <= i < |h| ==> from <= h[i] < from + 1_000_000) ==> CountIn(h, from) >= |h| - m
  {
    if m < |h| {
      var front := h[..|h| - 1];
      CountTail(front, from, m);
      assert front[..m] == h[..m];
    } else {
      assert h[..m] == h;
    }
  }

  lemma {:induction false} AtMostTen(h: seq<int>, from: int)
    requires Rising(h) && Spaced(h)
    ensures CountIn(h, from) <= LIMIT
  {
    if h != [] {
      var last := h[|h| - 1];
      if last >= from + 1_000_000 {
        AtMostTen(h[..|h| - 1], from);
      } else if |h| > LIMIT {
        CountTail(h, from, |h| - LIMIT);
        CountBefore(h[..|h| - LIMIT], from);
      } else {
        CountTail(h, from, 0);
      }
    }
  }

  /** In every run with a monotone clock no second sees more than ten messages of one kind. */
  lemma NoSecondOverTen(ts: seq<int>, from: int)
    requires Rising(ts)
    ensures CountIn(Sent(ts), from) <= LIMIT
  {
    SentIsSpaced(ts);
    AtMostTen(Sent(ts), from);
  }

  /** The limit is no stricter than that: a message is dropped exactly when ten have been sent in the
      second that ends with it. */
  lemma DroppedIff(ts: seq<int>, now: int)
    requires Rising(ts + [now])
    ensures Sent(ts + [now]) == Sent(ts) <==> CountIn(Sent(ts), now - 999_999) == LIMIT
  {
    var h := Sent(ts);
    assert (ts + [now])[..|ts|] == ts;
    assert Rising(ts) by {
      assert forall i :: 0 <= i < |ts| ==> (ts + [now])[i] == ts[i];
    }
    SentIsSpaced(ts);
    if ts != [] {
      assert (ts + [now])[|ts| - 1] <= (ts + [now])[|ts|];
    }
    OpenIff(h, now);
  }

  lemma OpenIff(h: seq<int>, now: int)
    requires Rising(h) && Spaced(h) && (h != [] ==> h[|h| - 1] <= now)
    ensures Open(h, now) <==> CountIn(h, now - 999_999) != LIMIT
  {
    var from := now - 999_999;
    AtMostTen(h, from);
    if |h| < LIMIT {
      CountTail(h, from, 0);
    } else if Open(h, now) {
      CountTail(h, from, |h| - LIMIT + 1);
      CountBefore(h[..|h| - LIMIT + 1], from);
    } else {
      CountTail(h, from, |h| - LIMIT);
    }
  }

  lemma OneMoreAttempt(ts: seq<int>, now: int)
    ensures Sent(ts + [now]) == if Open(Sent(ts), now) then Sent(ts) + [now] else Sent(ts)
  {
    assert (ts + [now])[..|ts|] == ts;
  }

  /** The last ten. */
  function Latest(h: seq<int>): (s: seq<int>) {
    if |h| < LIMIT then h else h[|h| - LIMIT..]
  }

  lemma LatestStep(h: seq<int>, now: int)
    ensures Latest(h + [now]) == if |h| < LIMIT then Latest(h) + [now] else Latest(h)[1..] + [now]
    ensures |Latest(h)| == if |h| < LIMIT then |h| else LIMIT
    ensures |h| >= LIMIT ==> Latest(h)[0] == h[|h| - LIMIT]
  {
  }

  /** One kind's window: an array of ten slots and the number of them in use. */
  class Window {
    const slots: array<int>
    var num: nat
    ghost var tried: seq<int>  // every attempt so far

    /** The slots in use hold the latest sends, oldest first. */
    ghost predicate Valid()
      reads this, slots
    {
      slots.Length == LIMIT && num <= LIMIT && InUse() == Latest(Sent(tried))
    }

    ghost function InUse(): (s: seq<int>)
      requires num <= slots.Length
      reads this, slots
    {
      slots[..num]
    }

    constructor ()
      ensures Valid() && tried == [] && fresh(slots)
    {
      slots := new int[LIMIT];
      num := 0;
      tried := [];
    }

    /** memmove(slots, &slots[1], 9 entries). */
    method Shift()
      requires slots.Length == LIMIT
      modifies slots
      ensures slots[..LIMIT - 1] == old(slots[1..])
    {
      for i := 0 to LIMIT - 1
        invariant forall j :: 0 <= j < i ==> slots[j] == old(slots[j + 1])
        invariant forall j :: i <= j < LIMIT ==> slots[j] == old(slots[j])
      {
        slots[i] := slots[i + 1];
      }
    }

    method Admit(now: int) returns (ok: bool)
      requires Valid()
      modifies this, slots
      ensures Valid() && tried == old(tried) + [now]
      ensures ok <==> Open(Sent(old(tried)), now)
    {
      OneMoreAttempt(tried, now);
      LatestStep(Sent(tried), now);
      if num == LIMIT {
        assert slots[0] == InUse()[0];
        if DiffMs(now - slots[0]) < 1000 {
          tried := tried + [now];
          return false;
        }
        Replace(now);
      } else {
        Append(now);
      }
      tried := tried + [now];
      return true;
    }

    /** The window is full: the oldest send makes room. */
    method Replace(now: int)
      requires slots.Length == LIMIT == num
      modifies slots
      ensures InUse() == old(InUse())[1..] + [now]
    {
      Shift();
      slots[num - 1] := now;
    }

    method Append(now: int)
      requires slots.Length == LIMIT && num < LIMIT
      modifies this`num, slots
      ensures num == old(num) + 1 && InUse() == old(InUse()) + [now]
    {
      slots[num] := now;
      num := num + 1;
    }
  }

  datatype Kind = Rreq | Rrep | Rerr | RrepAck

  /** aodv_socket_send. RREPs are refused while the node waits after a reboot; they and their acknowledgements
      are never limited. The windows do not disturb each other: each sees the attempts of its own kind alone. */
  method Send(rreq: Window, rerr: Window, waitOnReboot: bool, ratelimit: bool, kind: Kind, now: int) returns (ok: bool)
    requires rreq != rerr && rreq.slots != rerr.slots && rreq.Valid() && rerr.Valid()
    modifies rreq, rreq.slots, rerr, rerr.slots
    ensures rreq.Valid() && rerr.Valid()
    ensures rreq.tried == if ratelimit && kind == Rreq then old(rreq.tried) + [now] else old(rreq.tried)
    ensures rerr.tried == if ratelimit && kind == Rerr then old(rerr.tried) + [now] else old(rerr.tried)
    ensures ok == Sendable(old(rreq.tried), old(rerr.tried), waitOnReboot, ratelimit, kind, now)
  {
    if waitOnReboot && kind == Rrep {
      return false;
    }
    ok := true;
    if ratelimit {
      match kind
      case Rreq => ok := rreq.Admit(now);
      case Rerr => ok := rerr.Admit(now);
      case _ =>
    }
  }

  predicate Sendable(rreqs: seq<int>, rerrs: seq<int>, waitOnReboot: bool, ratelimit: bool, kind: Kind, now: int) {
    match kind
    case Rreq => ratelimit ==> Open(Sent(rreqs), now)
    case Rerr => ratelimit ==> Open(Sent(rerrs), now)
    case Rrep => !waitOnReboot
    case RrepAck => true
  }
}
