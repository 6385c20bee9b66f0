/**
 Runs of routing-table operations with arbitrary arguments, and what they do to the index and the counters.
 */
module TableRuns {
  import opened Words
  import opened Sequences
  import opened RouteSpec

  datatype Op =
    | Insert(d: Addr, next: Addr, hops: nat, seqno: u32, lifetime: u32)
    | Update(d: Addr, next: Addr, hops: nat, seqno: u32, lifetime: u32, unidir: bool)
    | Prolong(d: Addr, lifetime: u32)
    | Invalidate(d: Addr)
    | LinkBreak(d: Addr)
    | Delete(d: Addr)
    | AddPrecursor(d: Addr, a: Addr)
    | ClearPrecursors(d: Addr)
    | SetSeqno(d: Addr, stored: u32)
    | Mark(d: Addr, unidir: bool, ackUsed: bool)
    | Ask(d: Addr, seek: Seek)
    | GiveUp(d: Addr)

  /** What callers guarantee: the entry is new or known. Every caller passes the state VALID; sequence numbers
      and lifetimes come off the wire and are arbitrary. */
  predicate Allowed(t: Table, op: Op) {
    match op
    case Insert(d, _, _, _, _) => d !in t.entries
    case Ask(_, _) => true
    case GiveUp(_) => true
    case _ => op.d in t.entries
  }

  function Do(t: Table, now: int, op: Op): (t': Table)
    requires |t.buckets| == TABLE_SIZE && Allowed(t, op)
  {
    match op
    case Insert(d, next, hops, seqno, lifetime) => InsertSpec(t, now, d, next, hops, seqno, lifetime, true, false)
    case Update(d, next, hops, seqno, lifetime, unidir) =>
      UpdateSpec(t, now, d, next, hops, seqno, lifetime, true, unidir).0
    case Prolong(d, lifetime) => UpdateTimeoutSpec(t, now, d, lifetime)
    case Invalidate(d) => InvalidateSpec(t, now, d)
    case LinkBreak(d) => LinkBreakSpec(t, now, d).0
    case Delete(d) => DeleteSpec(t, d)
    case AddPrecursor(d, a) => AddPrecursorSpec(t, d, a)
    case ClearPrecursors(d) => ClearPrecursorsSpec(t, d)
    case SetSeqno(d, s) => Put(t, d, t.entries[d].(seqno := s))
    case Mark(d, unidir, ackUsed) => Put(t, d, t.entries[d].(unidir := unidir, ackUsed := ackUsed))
    case Ask(d, s) => t.(seeks := t.seeks[d := s])
    case GiveUp(d) => t.(seeks := t.seeks - {d})
  }

  /** The update that breaks its own link: a VALID one-hop route becomes a longer one. */
  predicate Slips(t: Table, op: Op)
    requires Allowed(t, op)
  {
    op.Update? && t.entries[op.d].valid && t.entries[op.d].hops == 1 && op.hops > 1
  }

  /** The operation ends with the kernel being told a route for op.d. */
  predicate Announces(t: Table, op: Op)
    requires Allowed(t, op)
  {
    op.Insert? || (op.Update? && (!t.entries[op.d].valid || t.entries[op.d].next != op.next))
  }

  function Valids(t: Table): (s: set<Addr>) {
    set d | d in t.entries && t.entries[d].valid
  }

  // ----- the index -----------------------------------------------------------------------------------

  /** Each destination once, in the bucket of its hash, and counted. */
  ghost predicate Indexed(t: Table) {
    && |t.buckets| == TABLE_SIZE && t.numEntries == |t.entries|
    && (forall d :: d in t.entries ==> d in t.buckets[Bucket(d)])
    && (forall b :: 0 <= b < TABLE_SIZE ==> BucketOk(t, t.buckets[b], b))
  }

  ghost predicate BucketOk(t: Table, s: seq<Addr>, b: nat) {
    NoDuplicates(s) && forall d :: d in s ==> d in t.entries && Bucket(d) == b
  }

  lemma {:induction false} RemoveIsOne<T>(s: seq<T>, x: T)
    requires NoDuplicates(s)
    ensures NoDuplicates(Remove(s, x)) && forall y :: y in Remove(s, x) <==> y in s && y != x
  {
    if s != [] {
      RemoveIsOne(s[1..], x);
      if s[0] != x {
        assert ([s[0]] + Remove(s[1..], x))[1..] == Remove(s[1..], x);
      }
    }
  }

  lemma {:induction false} FlattenMembers<T>(ss: seq<seq<T>>, x: T)
    ensures x in Flatten(ss) <==> exists b :: 0 <= b < |ss| && x in ss[b]
  {
    if ss != [] {
      FlattenMembers(ss[1..], x);
      if b :| 0 <= b < |ss| && x in ss[b] {
        if b > 0 { assert ss[1..][b - 1] == ss[b]; }
      }
      if b :| 0 <= b < |ss[1..]| && x in ss[1..][b] {
        assert ss[b + 1] == ss[1..][b];
      }
    }
  }

  /** The walk over all buckets meets exactly the stored destinations. */
  lemma WalkIsComplete(t: Table, d: Addr)
    requires Indexed(t)
    ensures d in Flatten(t.buckets) <==> d in t.entries
  {
    FlattenMembers(t.buckets, d);
    if b :| 0 <= b < TABLE_SIZE && d in t.buckets[b] {
      assert BucketOk(t, t.buckets[b], b);
    }
  }

  lemma SameKeysIndexed(t: Table, t': Table)
    requires Indexed(t) && t'.entries.Keys == t.entries.Keys && t'.buckets == t.buckets && t'.numEntries == t.numEntries
    ensures Indexed(t')
  {
    assert |t'.entries| == |t'.entries.Keys| && |t.entries| == |t.entries.Keys|;
    forall b | 0 <= b < TABLE_SIZE
      ensures BucketOk(t', t'.buckets[b], b)
    {
      assert BucketOk(t, t.buckets[b], b);
    }
  }

  lemma DoKeepsIndex(t: Table, now: int, op: Op)
    requires Indexed(t) && Allowed(t, op)
    ensures Indexed(Do(t, now, op))
    ensures Do(t, now, op).entries.Keys ==
            if op.Insert? then t.entries.Keys + {op.d} else if op.Delete? then t.entries.Keys - {op.d}
                else t.entries.Keys
  {
    var t' := Do(t, now, op);
    if op.Delete? {
      DeleteKeepsIndex(t, op.d);
    } else if op.Insert? {
      InsertKeepsIndex(t, now, op);
    } else {
      CountersStay(t, now, op);
      SameKeysIndexed(t, t');
    }
  }

  lemma DeleteKeepsIndex(t: Table, d: Addr)
    requires Indexed(t) && d in t.entries
    ensures Indexed(DeleteSpec(t, d)) && DeleteSpec(t, d).entries.Keys == t.entries.Keys - {d}
  {
    var t' := DeleteSpec(t, d);
    RemoveIsOne(t.buckets[Bucket(d)], d);
    assert t'.entries.Keys == t.entries.Keys - {d};
    assert |t'.entries| == |t'.entries.Keys| && |t.entries| == |t.entries.Keys|;
    forall b | 0 <= b < TABLE_SIZE
      ensures BucketOk(t', t'.buckets[b], b)
    {
      assert BucketOk(t, t.buckets[b], b);
    }
  }

  lemma InsertKeepsIndex(t: Table, now: int, op: Op)
    requires Indexed(t) && Allowed(t, op) && op.Insert?
    ensures Indexed(Do(t, now, op)) && Do(t, now, op).entries.Keys == t.entries.Keys + {op.d}
  {
    InsertedIsIndexed(t, op.d, InsertedEntry(now, op.next, op.hops, op.seqno, op.lifetime, true, false));
  }

  lemma InsertedIsIndexed(t: Table, d: Addr, e: Entry)
    requires Indexed(t) && d !in t.entries
    ensures Indexed(Inserted(t, d, e)) && Inserted(t, d, e).entries.Keys == t.entries.Keys + {d}
  {
    var t' := Inserted(t, d, e);
    OneKeyMore(t.entries, d, e);
    forall b | 0 <= b < TABLE_SIZE
      ensures BucketOk(t', t'.buckets[b], b)
    {
      assert BucketOk(t, t.buckets[b], b);
      assert ([d] + t.buckets[b])[1..] == t.buckets[b];
    }
  }

  lemma OneKeyMore(m: map<Addr, Entry>, d: Addr, e: Entry)
    requires d !in m
    ensures m[d := e].Keys == m.Keys + {d} && |m[d := e]| == |m| + 1
  {
    assert |m[d := e]| == |m[d := e].Keys| && |m| == |m.Keys|;
  }

  lemma CountersStay(t: Table, now: int, op: Op)
    requires |t.buckets| == TABLE_SIZE && Allowed(t, op) && !op.Insert? && !op.Delete?
    ensures var t' := Do(t, now, op);
            t'.entries.Keys == t.entries.Keys && t'.buckets == t.buckets && t'.numEntries == t.numEntries
  {
    match op
    case Update(d, next, hops, _, _, _) =>
      var t1 := AnnounceSpec(t, d, next, true);
      LinkBreakCounts(t1, now, d);
    case LinkBreak(d) => LinkBreakCounts(t, now, d);
    case _ =>
  }

  // ----- the counters --------------------------------------------------------------------------------

  /** How far num_active is from the number of VALID entries. */
  function Drift(t: Table): (k: int) { |Valids(t)| - t.numActive }

  lemma InvalidateDrift(t: Table, now: int, d: Addr)
    requires d in t.entries
    ensures Drift(InvalidateSpec(t, now, d)) == Drift(t)
  {
    assert Valids(InvalidateSpec(t, now, d)) == Valids(t) - {d};
  }

  lemma PutDrift(t: Table, d: Addr, e: Entry)
    requires d in t.entries
    ensures Drift(Put(t, d, e)) == Drift(t) + (if e.valid then 1 else 0) - if t.entries[d].valid then 1 else 0
  {
    OneLessOrMore(Valids(t), d);
    assert Valids(Put(t, d, e)) == if e.valid then Valids(t) + {d} else Valids(t) - {d};
  }

  lemma OneLessOrMore(s: set<Addr>, d: Addr)
    ensures |s + {d}| == |s| + if d in s then 0 else 1
    ensures |s - {d}| == |s| - if d in s then 1 else 0
  {
    if d in s {
      assert s + {d} == s;
    } else {
      assert s - {d} == s;
    }
  }

  lemma {:induction false} CascadeDrift(t: Table, now: int, broken: Addr, work: seq<Addr>, dr: Draft)
    ensures Drift(Cascade(t, now, broken, work, dr).0) == Drift(t)
    decreases work
  {
    if work != [] {
      var u := work[0];
      if u in t.entries && t.entries[u].valid && t.entries[u].next == broken && u != broken {
        var t1 := InvalidateSpec(t, now, u);
        var e := t1.entries[u];
        InvalidateDrift(t, now, u);
        PutDrift(t1, u, e.(precs := []));
        CascadeDrift(ClearPrecursorsSpec(t1, u), now, broken, work[1..], Report(dr, u, e.seqno, e.precs));
      } else {
        CascadeDrift(t, now, broken, work[1..], dr);
      }
    }
  }

  lemma LinkBreakCounts(t: Table, now: int, d: Addr)
    requires d in t.entries
    ensures LinkBreakSpec(t, now, d).0.numEntries == t.numEntries && LinkBreakSpec(t, now, d).0.seeks == t.seeks
  {
    if t.entries[d].hops == 1 {
      var t1 := InvalidateSpec(t, now, d);
      var e := t1.entries[d];
      CascadeShape(ClearPrecursorsSpec(t1, d), now, d, Flatten(t.buckets), Report(NoRerr, d, e.seqno, e.precs));
    }
  }

  /** A cascade leaves the broken destination itself alone. */
  lemma {:induction false} CascadeSpares(t: Table, now: int, broken: Addr, work: seq<Addr>, dr: Draft)
    requires broken in t.entries
    ensures var t' := Cascade(t, now, broken, work, dr).0;
            && t'.entries[broken] == t.entries[broken]
            && (broken in t'.kernel <==> broken in t.kernel)
            && (broken in t.kernel ==> t'.kernel[broken] == t.kernel[broken])
    decreases work
  {
    if work != [] {
      var u := work[0];
      if u in t.entries && t.entries[u].valid && t.entries[u].next == broken && u != broken {
        var t1 := InvalidateSpec(t, now, u);
        var e := t1.entries[u];
        CascadeSpares(ClearPrecursorsSpec(t1, u), now, broken, work[1..], Report(dr, u, e.seqno, e.precs));
      } else {
        CascadeSpares(t, now, broken, work[1..], dr);
      }
    }
  }

  lemma LinkBreakDrift(t: Table, now: int, d: Addr)
    requires d in t.entries
    ensures Drift(LinkBreakSpec(t, now, d).0) == Drift(t)
    ensures LinkBreakSpec(t, now, d).0.entries[d].valid <==> t.entries[d].valid && t.entries[d].hops != 1
  {
    if t.entries[d].hops == 1 {
      var t1 := InvalidateSpec(t, now, d);
      var e := t1.entries[d];
      var dr := Report(NoRerr, d, e.seqno, e.precs);
      InvalidateDrift(t, now, d);
      PutDrift(t1, d, e.(precs := []));
      CascadeDrift(ClearPrecursorsSpec(t1, d), now, d, Flatten(t.buckets), dr);
      CascadeSpares(ClearPrecursorsSpec(t1, d), now, d, Flatten(t.buckets), dr);
    }
  }

  /** Up to line 188: the counters, the kernel message, the broken link. */
  function Announced(t: Table, now: int, op: Op): (t2: Table)
    requires Allowed(t, op) && op.Update?
    ensures t2.entries.Keys == t.entries.Keys
  {
    var t1 := AnnounceSpec(t, op.d, op.next, true);
    if op.hops > 1 && t1.entries[op.d].hops == 1 then LinkBreakSpec(t1, now, op.d).0 else t1
  }

  lemma InstallDrift(t: Table, d: Addr, e: Entry, t': Table)
    requires d in t.entries && e.valid && t'.entries == t.entries[d := e] && t'.numActive == t.numActive
    ensures Drift(t') == Drift(t) + if t.entries[d].valid then 0 else 1
  {
    PutDrift(t, d, e);
    assert Valids(t') == Valids(Put(t, d, e));
  }

  lemma AnnouncedDrift(t: Table, now: int, op: Op)
    requires Allowed(t, op) && op.Update?
    ensures var t2 := Announced(t, now, op);
            && Drift(t2) == Drift(t) - (if t.entries[op.d].valid then 0 else 1)
            && (t2.entries[op.d].valid <==> t.entries[op.d].valid && !Slips(t, op))
  {
    var t1 := AnnounceSpec(t, op.d, op.next, true);
    assert Valids(t1) == Valids(t);
    LinkBreakDrift(t1, now, op.d);
  }

  lemma UpdateDrift(t: Table, now: int, op: Op)
    requires |t.buckets| == TABLE_SIZE && Allowed(t, op) && op.Update?
    ensures Drift(Do(t, now, op)) == Drift(t) + if Slips(t, op) then 1 else 0
  {
    AnnouncedDrift(t, now, op);
    var t2 := Announced(t, now, op);
    var e := UpdatedEntry(t2.entries[op.d], now, op.next, op.hops, op.seqno, op.lifetime, true, op.unidir);
    InstallDrift(t2, op.d, e, Do(t, now, op));
  }

  lemma InsertDrift(t: Table, now: int, op: Op)
    requires |t.buckets| == TABLE_SIZE && Allowed(t, op) && op.Insert?
    ensures Drift(Do(t, now, op)) == Drift(t)
  {
    OneLessOrMore(Valids(t), op.d);
    assert Valids(Do(t, now, op)) == Valids(t) + {op.d};
  }

  lemma DeleteDrift(t: Table, d: Addr)
    requires |t.buckets| == TABLE_SIZE && d in t.entries
    ensures Drift(DeleteSpec(t, d)) == Drift(t)
  {
    OneLessOrMore(Valids(t), d);
    assert Valids(DeleteSpec(t, d)) == Valids(t) - {d};
  }

  /** One operation moves num_active with the number of VALID entries, unless it breaks its own link. */
  lemma DoDrift(t: Table, now: int, op: Op)
    requires |t.buckets| == TABLE_SIZE && Allowed(t, op)
    ensures Drift(Do(t, now, op)) == Drift(t) + if Slips(t, op) then 1 else 0
  {
    if op.Insert? {
      InsertDrift(t, now, op);
    } else if op.Update? {
      UpdateDrift(t, now, op);
    } else if op.Invalidate? {
      InvalidateDrift(t, now, op.d);
    } else if op.LinkBreak? {
      LinkBreakDrift(t, now, op.d);
    } else if op.Delete? {
      DeleteDrift(t, op.d);
    } else {
      EditDrift(t, now, op);
    }
  }

  /** Operations that edit one entry and leave its state alone. */
  lemma EditDrift(t: Table, now: int, op: Op)
    requires |t.buckets| == TABLE_SIZE && Allowed(t, op)
    requires op.Prolong? || op.AddPrecursor? || op.ClearPrecursors? || op.SetSeqno? || op.Mark? || op.Ask? || op.GiveUp?
    ensures Drift(Do(t, now, op)) == Drift(t)
  {
    assert Valids(Do(t, now, op)) == Valids(t);
  }

  // ----- whole runs ------------------------------------------------------------------------------------

  datatype Timed = Timed(now: int, op: Op)

  predicate RunAllowed(t: Table, ops: seq<Timed>)
    decreases ops
  {
    ops == []
    || (|t.buckets| == TABLE_SIZE && Allowed(t, ops[0].op) && RunAllowed(Do(t, ops[0].now, ops[0].op), ops[1..]))
  }

  function Run(t: Table, ops: seq<Timed>): (t': Table)
    requires RunAllowed(t, ops)
    decreases ops
  {
    if ops == [] then t else Run(Do(t, ops[0].now, ops[0].op), ops[1..])
  }

  lemma {:induction false} RunKeepsBuckets(t: Table, ops: seq<Timed>)
    requires RunAllowed(t, ops) && |t.buckets| == TABLE_SIZE
    ensures |Run(t, ops).buckets| == TABLE_SIZE
    decreases ops
  {
    if ops != [] {
      DoKeepsBuckets(t, ops[0].now, ops[0].op);
      RunKeepsBuckets(Do(t, ops[0].now, ops[0].op), ops[1..]);
    }
  }

  lemma DoKeepsBuckets(t: Table, now: int, op: Op)
    requires |t.buckets| == TABLE_SIZE && Allowed(t, op)
    ensures |Do(t, now, op).buckets| == TABLE_SIZE
  {
    if !op.Insert? && !op.Delete? {
      CountersStay(t, now, op);
    }
  }

  /** One run after another is a run. */
  lemma {:induction false} RunAppend(t: Table, ops: seq<Timed>, more: seq<Timed>)
    requires RunAllowed(t, ops) && RunAllowed(Run(t, ops), more)
    ensures RunAllowed(t, ops + more) && Run(t, ops + more) == Run(Run(t, ops), more)
    decreases ops
  {
    if ops == [] {
      assert ops + more == more;
    } else {
      assert (ops + more)[1..] == ops[1..] + more;
      RunAppend(Do(t, ops[0].now, ops[0].op), ops[1..], more);
    }
  }

  /** How many updates of the run broke their own link. */
  function SlipCount(t: Table, ops: seq<Timed>): (n: nat)
    requires RunAllowed(t, ops)
    decreases ops
  {
    if ops == [] then 0
    else (if Slips(t, ops[0].op) then 1 else 0) + SlipCount(Do(t, ops[0].now, ops[0].op), ops[1..])
  }

  lemma {:induction false} RunKeepsIndex(t: Table, ops: seq<Timed>)
    requires Indexed(t) && RunAllowed(t, ops)
    ensures Indexed(Run(t, ops))
    decreases ops
  {
    if ops != [] {
      DoKeepsIndex(t, ops[0].now, ops[0].op);
      RunKeepsIndex(Do(t, ops[0].now, ops[0].op), ops[1..]);
    }
  }

  lemma {:induction false} RunDrift(t: Table, ops: seq<Timed>)
    requires RunAllowed(t, ops)
    ensures Drift(Run(t, ops)) == Drift(t) + SlipCount(t, ops)
    decreases ops
  {
    if ops != [] {
      DoDrift(t, ops[0].now, ops[0].op);
      RunDrift(Do(t, ops[0].now, ops[0].op), ops[1..]);
    }
  }

  /** The table and its counters after any run: the index is a map, num_entries is its size, and
      num_active plus the number of self-breaking updates is the number of VALID entries. */
  lemma CountersOverRuns(t: Table, ops: seq<Timed>)
    requires IsEmpty(t) && RunAllowed(t, ops)
    ensures Indexed(Run(t, ops)) && Run(t, ops).numEntries == |Run(t, ops).entries|
    ensures Run(t, ops).numActive + SlipCount(t, ops) == |Valids(Run(t, ops))|
  {
    assert Valids(t) == {};
    RunKeepsIndex(t, ops);
    RunDrift(t, ops);
  }
}
