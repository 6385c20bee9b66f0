/** Timing and retry constants (milliseconds) with the daemon's default configuration. */
module Params {
  const ACTIVE_ROUTE_TIMEOUT := 3000
  const DELETE_PERIOD := 15000
  const NET_DIAMETER := 35
  const NODE_TRAVERSAL_TIME := 40
  const NET_TRAVERSAL_TIME := 2800   // 2 * NODE_TRAVERSAL_TIME * NET_DIAMETER
  const PATH_DISCOVERY_TIME := 5600  // 2 * NET_TRAVERSAL_TIME
  const MY_ROUTE_TIMEOUT := 6000     // 2 * ACTIVE_ROUTE_TIMEOUT
  const RREQ_RETRIES := 2
  const TTL_START := 2
  const TTL_INCREMENT := 2
  const TTL_THRESHOLD := 7
  const MAXTTL := 255
  const TIMEOUT_BUFFER := 2
  const NEXT_HOP_WAIT := 50          // NODE_TRAVERSAL_TIME + 10
  const BLACKLIST_TIMEOUT := 5605    // RREQ_RETRIES * NET_TRAVERSAL_TIME + 2 + 1 + RREQ_RETRIES
}

/**
 The routing table as a value, and each table operation as a function on it. The heap version
 is class RouteTable.RouteTable. Times are in microseconds.
 */
module RouteSpec {
  import opened Words
  import opened Params

  type Addr = u32

  const BROADCAST: Addr := 0xffff_ffff
  const TABLE_SIZE := 64

  datatype Handler = ExpireHandler | DeleteHandler

  /** One rt_table_t. `handler`, `armed` and `deadline` are its rt_timer; `ackUsed` says whether
      its ack_timer is pending. RT_UNIDIR is the only flag that is ever set. */
  datatype Entry = Entry(
    seqno: u32, next: Addr, hops: nat, unidir: bool, valid: bool, precs: seq<Addr>,
    ackUsed: bool, handler: Handler, armed: bool, deadline: int)

  /** A pending route discovery. */
  datatype Seek = Seek(seqno: u32, ttl: int, count: nat)

  /** `buckets` gives the order in which the table is walked; `kernel` is the kernel's copy. */
  datatype Table = Table(
    buckets: seq<seq<Addr>>, entries: map<Addr, Entry>,
    numEntries: int, numActive: int, kernel: map<Addr, Addr>, seeks: map<Addr, Seek>)

  /** A RERR under construction: the destinations listed so far, and the single precursor it can
      be sent to (0 when it has to be broadcast). */
  datatype Draft = NoRerr | Draft(dests: seq<(Addr, u32)>, unicast: Addr)

  /** rt_table_init. */
  predicate IsEmpty(t: Table) {
    |t.buckets| == TABLE_SIZE && (forall b :: 0 <= b < TABLE_SIZE ==> t.buckets[b] == [])
    && t.entries == map[] && t.numEntries == 0 && t.numActive == 0 && t.kernel == map[] && t.seeks == map[]
  }

  function Bucket(d: Addr): (b: nat) { d % TABLE_SIZE }

  /** timer_set_timeout on the entry's rt_timer. */
  function Arm(e: Entry, now: int, msec: int): (e': Entry) {
    if msec < 0 then e.(armed := false, deadline := now)
    else e.(armed := true, deadline := now + 1000 * msec)
  }

  function Put(t: Table, d: Addr, e: Entry): (t': Table) {
    t.(entries := t.entries[d := e])
  }

  function InsertedEntry(now: int, next: Addr, hops: nat, seqno: u32, lifetime: u32, valid: bool,
                         unidir: bool): (e: Entry) {
    var e := Entry(seqno, next, hops, unidir, valid, [], false,
                   if valid then ExpireHandler else DeleteHandler, false, 0);
    var life := if valid then AsSigned(lifetime) else DELETE_PERIOD;
    if life != 0 then Arm(e, now, life) else e
  }

  function InsertSpec(t: Table, now: int, d: Addr, next: Addr, hops: nat, seqno: u32,
                      lifetime: u32, valid: bool, unidir: bool): (t': Table)
    requires |t.buckets| == TABLE_SIZE
  {
    Inserted(t, d, InsertedEntry(now, next, hops, seqno, lifetime, valid, unidir))
  }

  /** A new entry at the head of its bucket; the kernel and the seek list hear of it if it is VALID. */
  function Inserted(t: Table, d: Addr, e: Entry): (t': Table)
    requires |t.buckets| == TABLE_SIZE
  {
    Table(t.buckets[Bucket(d) := [d] + t.buckets[Bucket(d)]],
          t.entries[d := e],
          t.numEntries + 1,
          if e.valid then t.numActive + 1 else t.numActive,
          if e.valid then t.kernel[d := e.next] else t.kernel,
          if e.valid then t.seeks - {d} else t.seeks)
  }

  function InvalidEntry(e: Entry, now: int): (e': Entry) {
    Arm(e.(valid := false, seqno := SeqnoIncr(e.seqno), ackUsed := false, handler := DeleteHandler),
        now, DELETE_PERIOD)
  }

  function InvalidateSpec(t: Table, now: int, d: Addr): (t': Table)
    requires d in t.entries
  {
    if !t.entries[d].valid then t
    else t.(entries := t.entries[d := InvalidEntry(t.entries[d], now)],
            numActive := t.numActive - 1,
            kernel := t.kernel - {d})
  }

  function DeleteSpec(t: Table, d: Addr): (t': Table)
    requires |t.buckets| == TABLE_SIZE && d in t.entries
  {
    var e := t.entries[d];
    Table(t.buckets[Bucket(d) := Remove(t.buckets[Bucket(d)], d)],
          t.entries - {d},
          t.numEntries - 1,
          if e.valid then t.numActive - 1 else t.numActive,
          if e.valid then t.kernel - {d} else t.kernel,
          t.seeks)
  }

  /** A list without the first occurrence of `x`. */
  function Remove<T(==)>(s: seq<T>, x: T): (r: seq<T>) {
    if s == [] then [] else if s[0] == x then s[1..] else [s[0]] + Remove(s[1..], x)
  }

  function AddPrecursorSpec(t: Table, d: Addr, a: Addr): (t': Table)
    requires d in t.entries
  {
    var e := t.entries[d];
    if a in e.precs then t else Put(t, d, e.(precs := [a] + e.precs))
  }

  function ClearPrecursorsSpec(t: Table, d: Addr): (t': Table)
    requires d in t.entries
  {
    Put(t, d, t.entries[d].(precs := []))
  }

  /** Adds a lost destination to a RERR, if anyone used the route to it. */
  function Report(dr: Draft, d: Addr, seqno: u32, precs: seq<Addr>): (dr': Draft) {
    if precs == [] then dr
    else match dr
      case NoRerr => Draft([(d, seqno)], if |precs| == 1 then precs[0] else 0)
      case Draft(dests, u) =>
        Draft(dests + [(d, seqno)], if u != 0 && exists p :: p in precs && p != u then 0 else u)
  }

  function Flatten<T>(ss: seq<seq<T>>): (s: seq<T>) {
    if ss == [] then [] else ss[0] + Flatten(ss[1..])
  }

  /** The walk of neighbor_link_break over the entries in `work`. */
  function Cascade(t: Table, now: int, broken: Addr, work: seq<Addr>, dr: Draft): (r: (Table, Draft))
    ensures r.0.entries.Keys == t.entries.Keys && r.0.buckets == t.buckets
    decreases work
  {
    if work == [] then (t, dr)
    else
      var u := work[0];
      if u in t.entries && t.entries[u].valid && t.entries[u].next == broken && u != broken then
        var t1 := InvalidateSpec(t, now, u);
        var e := t1.entries[u];
        Cascade(ClearPrecursorsSpec(t1, u), now, broken, work[1..], Report(dr, u, e.seqno, e.precs))
      else
        Cascade(t, now, broken, work[1..], dr)
  }

  /** The turn of one entry in that walk. */
  function CascadeOne(t: Table, now: int, broken: Addr, u: Addr, dr: Draft): (r: (Table, Draft)) {
    if u in t.entries && t.entries[u].valid && t.entries[u].next == broken && u != broken then
      var t1 := InvalidateSpec(t, now, u);
      (ClearPrecursorsSpec(t1, u), Report(dr, u, t1.entries[u].seqno, t1.entries[u].precs))
    else (t, dr)
  }

  lemma CascadeStep(t: Table, now: int, broken: Addr, u: Addr, rest: seq<Addr>, dr: Draft)
    ensures var (t1, dr1) := CascadeOne(t, now, broken, u, dr);
            Cascade(t, now, broken, [u] + rest, dr) == Cascade(t1, now, broken, rest, dr1)
  {
    assert ([u] + rest)[1..] == rest;
  }

  /** neighbor_link_break. */
  function LinkBreakSpec(t: Table, now: int, d: Addr): (r: (Table, Draft))
    requires d in t.entries
    ensures r.0.entries.Keys == t.entries.Keys && r.0.buckets == t.buckets
  {
    if t.entries[d].hops != 1 then (t, NoRerr)
    else
      var t1 := InvalidateSpec(t, now, d);
      var e := t1.entries[d];
      Cascade(ClearPrecursorsSpec(t1, d), now, d, Flatten(t.buckets), Report(NoRerr, d, e.seqno, e.precs))
  }

  /** rt_table_update_timeout on one entry: only a VALID entry, and only to a later deadline. */
  function Extend(e: Entry, now: int, lifetime: u32): (e': Entry) {
    if e.valid && DiffMs(e.deadline - (now + 1000 * lifetime)) < 0 then Arm(e, now, AsSigned(lifetime)) else e
  }

  function UpdateTimeoutSpec(t: Table, now: int, d: Addr, lifetime: u32): (t': Table)
    requires d in t.entries
  {
    Put(t, d, Extend(t.entries[d], now, lifetime))
  }

  /** rt_table_update up to line 178: counters and the kernel's copy. */
  function AnnounceSpec(t: Table, d: Addr, next: Addr, valid: bool): (t': Table)
    requires d in t.entries
  {
    var e := t.entries[d];
    if !e.valid && valid then t.(numActive := t.numActive + 1, kernel := t.kernel[d := next])
    else if e.next != 0 && e.next != next then t.(kernel := t.kernel[d := next])
    else t
  }

  function UpdateSpec(t: Table, now: int, d: Addr, next: Addr, hops: nat, seqno: u32,
                      lifetime: u32, valid: bool, unidir: bool): (r: (Table, Draft))
    requires d in t.entries
  {
    var t1 := AnnounceSpec(t, d, next, valid);
    var (t2, dr) := if hops > 1 && t1.entries[d].hops == 1 then LinkBreakSpec(t1, now, d) else (t1, NoRerr);
    var t3 := Put(t2, d, UpdatedEntry(t2.entries[d], now, next, hops, seqno, lifetime, valid, unidir));
    (if valid then t3.(seeks := t3.seeks - {d}) else t3, dr)
  }

  /** rt_table_update from line 190: the state is set after the timeout has been looked at. */
  function UpdatedEntry(e: Entry, now: int, next: Addr, hops: nat, seqno: u32,
                        lifetime: u32, valid: bool, unidir: bool): (e': Entry)
  {
    Extend(e.(unidir := unidir, seqno := seqno, next := next, hops := hops, handler := ExpireHandler),
           now, lifetime).(valid := valid)
  }

  function CascadedEntry(t: Table, now: int, broken: Addr, work: seq<Addr>, a: Addr): (e: Entry)
    requires a in t.entries
  {
    var e := t.entries[a];
    if a in work && a != broken && e.valid && e.next == broken then InvalidEntry(e, now).(precs := []) else e
  }

  /** What a cascade does to each entry, whatever the order of the walk. */
  lemma {:induction false} CascadeShape(t: Table, now: int, broken: Addr, work: seq<Addr>, dr: Draft)
    ensures var t' := Cascade(t, now, broken, work, dr).0;
            && t'.numEntries == t.numEntries && t'.seeks == t.seeks
            && forall a :: a in t.entries ==> t'.entries[a] == CascadedEntry(t, now, broken, work, a)
    decreases work
  {
    if work != [] {
      var u := work[0];
      if u in t.entries && t.entries[u].valid && t.entries[u].next == broken && u != broken {
        var t1 := InvalidateSpec(t, now, u);
        var e := t1.entries[u];
        CascadeShape(ClearPrecursorsSpec(t1, u), now, broken, work[1..], Report(dr, u, e.seqno, e.precs));
      } else {
        CascadeShape(t, now, broken, work[1..], dr);
      }
    }
  }

  /** What a link break may do to an entry: nothing, or invalidate it; its precursors may go. */
  predicate KeptOrBroken(e: Entry, now: int, e': Entry) {
    e' == e || e' == e.(precs := []) || e' == InvalidEntry(e, now).(precs := [])
  }

  ghost predicate AllKeptOrBroken(t: Table, now: int, t': Table) {
    t'.entries.Keys == t.entries.Keys
    && forall a :: a in t.entries ==> KeptOrBroken(t.entries[a], now, t'.entries[a])
  }

  lemma LinkBreakShape(t: Table, now: int, d: Addr)
    requires d in t.entries
    ensures AllKeptOrBroken(t, now, LinkBreakSpec(t, now, d).0)
  {
    if t.entries[d].hops == 1 {
      var t1 := InvalidateSpec(t, now, d);
      var e := t1.entries[d];
      CascadeShape(ClearPrecursorsSpec(t1, d), now, d, Flatten(t.buckets), Report(NoRerr, d, e.seqno, e.precs));
    }
  }

  /** An update installs its route over what a link break has left. */
  lemma UpdateShape(t: Table, now: int, d: Addr, next: Addr, hops: nat, seqno: u32, lifetime: u32, unidir: bool)
    returns (t2: Table)
    requires d in t.entries
    ensures AllKeptOrBroken(t, now, t2) && (hops == 1 ==> t2.entries == t.entries)
    ensures var t' := UpdateSpec(t, now, d, next, hops, seqno, lifetime, true, unidir).0;
            && t'.buckets == t.buckets
            && t'.entries == t2.entries[d := UpdatedEntry(t2.entries[d], now, next, hops, seqno, lifetime, true,
               unidir)]
  {
    var t1 := AnnounceSpec(t, d, next, true);
    assert t1.entries == t.entries && t1.buckets == t.buckets;
    LinkBreakShape(t1, now, d);
    t2 := if hops > 1 && t1.entries[d].hops == 1 then LinkBreakSpec(t1, now, d).0 else t1;
  }

  /** route_expire_timeout. */
  function ExpireSpec(t: Table, now: int, d: Addr): (r: (Table, Draft))
    requires d in t.entries
  {
    if t.entries[d].hops == 1 then LinkBreakSpec(t, now, d)
    else (ClearPrecursorsSpec(InvalidateSpec(t, now, d), d), NoRerr)
  }
}
