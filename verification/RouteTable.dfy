/**
 The routing table in place: 64 bucket lists of route objects whose fields the operations update.
 Every method is proved against the function of RouteSpec with the same name. The kernel's copy and
 the list of pending discoveries, which the operations also change, are fields.
 */
module RouteTable {
  import opened Words
  import opened Params
  import opened RouteSpec
  import opened Sequences
  import opened TableRuns

  /** One rt_table_t. Its stored hash is the address itself. */
  class Route {
    const dest: Addr
    var seqno: u32
    var next: Addr
    var hops: nat
    var unidir: bool
    var valid: bool
    var precs: seq<Addr>
    var ackUsed: bool
    var handler: Handler
    var armed: bool
    var deadline: int

    constructor (dest: Addr, next: Addr, hops: nat, seqno: u32, now: int, lifetime: u32, valid: bool, unidir: bool)
      ensures this.dest == dest && Value() == InsertedEntry(now, next, hops, seqno, lifetime, valid, unidir)
    {
      this.dest := dest;
      this.next := next;
      this.hops := hops;
      this.seqno := seqno;
      this.valid := valid;
      this.unidir := unidir;
      precs := [];
      ackUsed := false;
      handler := ExpireHandler;
      armed := false;
      deadline := 0;
      new;
      var life: int := AsSigned(lifetime);
      if !valid {
        handler := DeleteHandler;
        life := DELETE_PERIOD;
      }
      if life != 0 {
        SetTimeout(now, life);
      }
    }

    function Value(): (e: Entry)
      reads this
    {
      Entry(seqno, next, hops, unidir, valid, precs, ackUsed, handler, armed, deadline)
    }

    method SetTimeout(now: int, msec: int)
      modifies this
      ensures Value() == Arm(old(Value()), now, msec)
    {
      deadline := now;
      armed := false;
      if msec >= 0 {
        deadline := deadline + 1000 * msec;
        armed := true;
      }
    }

    /** The entry's part of rt_table_invalidate. */
    method MarkInvalid(now: int)
      modifies this
      ensures Value() == InvalidEntry(old(Value()), now)
    {
      armed := false;
      ackUsed := false;
      valid := false;
      seqno := SeqnoIncr(seqno);
      handler := DeleteHandler;
      SetTimeout(now, DELETE_PERIOD);
    }

    /** rt_table_update_timeout. */
    method UpdateTimeout(now: int, lifetime: u32)
      modifies this
      ensures Value() == Extend(old(Value()), now, lifetime)
    {
      if valid {
        var newTimeout := now + 1000 * lifetime;
        if DiffMs(deadline - newTimeout) < 0 {
          SetTimeout(now, AsSigned(lifetime));
        }
      }
    }

    /** The entry's part of rt_table_update: the state is set after the timeout was looked at. */
    method Renew(now: int, next: Addr, hops: nat, seqno: u32, lifetime: u32, valid: bool, unidir: bool)
      modifies this
      ensures Value() == UpdatedEntry(old(Value()), now, next, hops, seqno, lifetime, valid, unidir)
    {
      this.unidir := unidir;
      this.seqno := seqno;
      this.next := next;
      this.hops := hops;
      handler := ExpireHandler;
      UpdateTimeout(now, lifetime);
      this.valid := valid;
    }

    /** precursor_list_destroy. */
    method DestroyPrecursors()
      modifies this
      ensures Value() == old(Value()).(precs := [])
    {
      while precs != []
        invariant Value() == old(Value()).(precs := precs)
        decreases precs
      {
        precs := precs[1..];
      }
    }

    /** Adds this lost destination to a RERR. A RERR meant for one neighbour is compared with every
        precursor, and becomes a broadcast at the first that differs. */
    method AddToRerr(dr: Draft) returns (rerr: Draft)
      ensures rerr == Report(dr, dest, seqno, precs)
    {
      if precs == [] {
        return dr;
      }
      match dr {
        case NoRerr =>
          rerr := Draft([(dest, seqno)], if |precs| == 1 then precs[0] else 0);
        case Draft(dests, unicast) =>
          var to := unicast;
          var i := 0;
          while to != 0 && i < |precs|
            invariant 0 <= i <= |precs| && (to == unicast || to == 0)
            invariant to != 0 ==> forall k :: 0 <= k < i ==> precs[k] == to
            invariant unicast != 0 && to == 0 ==> exists p :: p in precs && p != unicast
          {
            if precs[i] != to {
              assert precs[i] in precs;
              to := 0;
            }
            i := i + 1;
          }
          rerr := Draft(dests + [(dest, seqno)], to);
      }
    }

    /** precursor_add: a walk for a duplicate, then insertion at the head. */
    method AddPrecursor(a: Addr)
      modifies this
      ensures Value() == (if a in old(precs) then old(Value()) else old(Value()).(precs := [a] + old(precs)))
    {
      for i := 0 to |precs|
        invariant a !in precs[..i]
      {
        if precs[i] == a {
          return;
        }
      }
      precs := [a] + precs;
    }
  }

  function Names(s: seq<Route>): (r: seq<Addr>) {
    seq(|s|, i requires 0 <= i < |s| => s[i].dest)
  }

  /** The hash table itself: which route objects are linked into which bucket. */
  class RouteIndex {
    const tbl: array<seq<Route>>
    ghost var routes: map<Addr, Route>
    ghost var buckets: seq<seq<Addr>>
    ghost var objs: set<Route>  // every route ever linked

    ghost predicate Valid()
      reads this, tbl
    {
      && tbl.Length == TABLE_SIZE && |buckets| == TABLE_SIZE
      && (forall b :: 0 <= b < TABLE_SIZE ==> Linked(b))
      && (forall a :: a in routes ==> Homed(a))
    }

    ghost predicate Linked(b: nat)
      requires tbl.Length == TABLE_SIZE && |buckets| == TABLE_SIZE && b < TABLE_SIZE
      reads this, tbl
    {
      buckets[b] == Names(tbl[b])
      && forall r :: r in tbl[b] ==> r.dest in routes && routes[r.dest] == r && Bucket(r.dest) == b
    }

    ghost predicate Homed(a: Addr)
      requires a in routes && tbl.Length == TABLE_SIZE
      reads this, tbl
    {
      routes[a].dest == a && routes[a] in tbl[Bucket(a)] && routes[a] in objs
    }

    constructor ()
      ensures Valid() && routes == map[] && objs == {} && fresh(tbl) && |buckets| == TABLE_SIZE
      ensures forall b :: 0 <= b < TABLE_SIZE ==> buckets[b] == []
    {
      tbl := new seq<Route>[TABLE_SIZE](_ => []);
      routes := map[];
      objs := {};
      buckets := seq(TABLE_SIZE, _ => []);
    }

    /** The search loop of rt_table_check and rt_table_insert. */
    method Find(dest: Addr) returns (r: Route?)
      requires Valid()
      ensures r == null <==> dest !in routes
      ensures r != null ==> dest in routes && r == routes[dest] && r in objs
    {
      var bucket := tbl[Bucket(dest)];
      assert Linked(Bucket(dest)) && (dest in routes ==> Homed(dest));
      for i := 0 to |bucket|
        invariant forall k :: 0 <= k < i ==> bucket[k].dest != dest
      {
        if bucket[i].dest == dest {
          return bucket[i];
        }
      }
      return null;
    }

    /** list_add: at the head of the bucket. */
    method Link(rt: Route)
      requires Valid() && rt.dest !in routes
      modifies this, tbl
      ensures Valid() && routes == old(routes)[rt.dest := rt] && objs == old(objs) + {rt}
      ensures buckets == old(buckets)[Bucket(rt.dest) := [rt.dest] + old(buckets)[Bucket(rt.dest)]]
    {
      var h := Bucket(rt.dest);
      tbl[h] := [rt] + tbl[h];
      routes := routes[rt.dest := rt];
      objs := objs + {rt};
      buckets := buckets[h := [rt.dest] + buckets[h]];
      forall b | 0 <= b < TABLE_SIZE
        ensures Linked(b)
      {
        assert old(Linked(b));
      }
      forall a | a in routes
        ensures Homed(a)
      {
        assert a != rt.dest ==> old(Homed(a));
      }
    }

    /** list_remove. */
    method Unlink(rt: Route)
      requires Valid() && rt.dest in routes && routes[rt.dest] == rt && NoDuplicates(buckets[Bucket(rt.dest)])
      modifies this, tbl
      ensures Valid() && routes == old(routes) - {rt.dest} && objs == old(objs)
      ensures buckets == old(buckets)[Bucket(rt.dest) := Remove(old(buckets)[Bucket(rt.dest)], rt.dest)]
    {
      var h := Bucket(rt.dest);
      assert Homed(rt.dest) && Linked(h);
      var bucket := tbl[h];
      var i := 0;
      while bucket[i] != rt
        invariant 0 <= i < |bucket| && rt in bucket[i..]
        invariant forall k :: 0 <= k < i ==> bucket[k] != rt
        decreases |bucket| - i
      {
        i := i + 1;
      }
      forall k | 0 <= k < |bucket| && k != i
        ensures bucket[k].dest != rt.dest
      {
        NoDuplicatesApart(buckets[h], k, i);
        assert bucket[k] in bucket && buckets[h][k] != buckets[h][i];
      }
      tbl[h] := bucket[..i] + bucket[i + 1..];
      RemoveIsCut(bucket, i);
      routes := routes - {rt.dest};
      buckets := buckets[h := Remove(buckets[h], rt.dest)];
      forall b | 0 <= b < TABLE_SIZE
        ensures Linked(b)
      {
        assert old(Linked(b));
      }
      forall a | a in routes
        ensures Homed(a)
      {
        assert old(Homed(a));
      }
    }
  }

  /** Cutting out the i-th route, the first of its name, removes that name. */
  lemma {:induction false} RemoveIsCut(s: seq<Route>, i: nat)
    requires i < |s| && forall k :: 0 <= k < i ==> s[k].dest != s[i].dest
    ensures Names(s[..i] + s[i + 1..]) == Remove(Names(s), s[i].dest)
  {
    var names := Names(s);
    assert names[1..] == Names(s[1..]);
    if i == 0 {
      assert s[..0] + s[1..] == s[1..];
    } else {
      var tail := s[1..];
      RemoveIsCut(tail, i - 1);
      var cut := tail[..i - 1] + tail[i..];
      assert s[..i] + s[i + 1..] == [s[0]] + cut;
      assert Names([s[0]] + cut) == [s[0].dest] + Names(cut);
    }
  }

  lemma SplitFirst(s: seq<Addr>, i: nat, rest: seq<Addr>)
    requires i < |s|
    ensures s[i..] + rest == [s[i]] + (s[i + 1..] + rest)
  {
  }

  class RouteTable {
    const idx: RouteIndex
    var numEntries: int
    var numActive: int
    var kernel: map<Addr, Addr>
    var seeks: map<Addr, Seek>
    ghost var view: Table  // the table as a value

    ghost predicate Valid()
      reads this, idx, idx.tbl, idx.objs
    {
      && idx.Valid() && view.buckets == idx.buckets && |idx.buckets| == TABLE_SIZE
      && view.entries.Keys == idx.routes.Keys
      && (forall a :: a in idx.routes ==> Shows(a))
      && numEntries >= 0 && (numEntries == 0 <==> view.entries.Keys == {})
      && view.numEntries == numEntries && view.numActive == numActive
      && view.kernel == kernel && view.seeks == seeks
    }

    ghost predicate Shows(a: Addr)
      requires a in idx.routes && a in view.entries
      reads this, idx, idx.objs
    {
      && idx.routes[a].dest == a && idx.routes[a] in idx.objs
      && idx.routes[a].Value() == view.entries[a]
    }

    ghost predicate Has(rt: Route)
      reads idx
    {
      rt.dest in idx.routes && idx.routes[rt.dest] == rt && rt in idx.objs
    }

    /** rt_table_init. */
    constructor ()
      ensures Valid() && IsEmpty(view) && fresh(idx) && fresh(idx.tbl) && idx.routes == map[]
    {
      idx := new RouteIndex();
      numEntries := 0;
      numActive := 0;
      kernel := map[];
      seeks := map[];
      new;
      view := Table(idx.buckets, map[], 0, 0, map[], map[]);
    }

    /** rt_table_check, with its shortcut for an empty table. */
    method Check(dest: Addr) returns (r: Route?)
      requires Valid()
      ensures r == null <==> dest !in view.entries
      ensures r != null ==> r.dest == dest && Has(r) && r.Value() == view.entries[dest]
    {
      if numEntries == 0 {
        return null;
      }
      r := idx.Find(dest);
      assert r != null ==> Shows(dest);
    }

    method Insert(dest: Addr, next: Addr, hops: nat, seqno: u32, now: int, lifetime: u32, valid: bool, unidir: bool)
      returns (r: Route?)
      requires Valid()
      modifies this, idx, idx.tbl
      ensures Valid() && (r == null <==> dest in old(view).entries)
      ensures r == null ==> view == old(view) && idx.routes == old(idx.routes) && idx.objs == old(idx.objs)
      ensures r != null ==>
                && fresh(r) && r.dest == dest && Has(r) && idx.objs == old(idx.objs) + {r}
                   && idx.routes == old(idx.routes)[dest := r]
                && view == InsertSpec(old(view), now, dest, next, hops, seqno, lifetime, valid, unidir)
    {
      var found := idx.Find(dest);
      if found != null {
        return null;
      }
      r := InsertNew(dest, next, hops, seqno, now, lifetime, valid, unidir);
    }

    method InsertNew(dest: Addr, next: Addr, hops: nat, seqno: u32, now: int, lifetime: u32, valid: bool, unidir: bool)
      returns (r: Route)
      requires Valid() && dest !in view.entries
      modifies this, idx, idx.tbl
      ensures Valid() && fresh(r) && r.dest == dest && Has(r) && idx.objs == old(idx.objs) + {r}
              && idx.routes == old(idx.routes)[dest := r]
      ensures view == InsertSpec(old(view), now, dest, next, hops, seqno, lifetime, valid, unidir)
    {
      var rt := new Route(dest, next, hops, seqno, now, lifetime, valid, unidir);
      idx.Link(rt);
      Adopt(rt);
      r := rt;
    }

    /** Counts and announces the route just linked. */
    method Adopt(rt: Route)
      requires idx.Valid() && Has(rt) && |idx.buckets| == |view.buckets| == TABLE_SIZE
      requires rt.dest !in view.entries && idx.routes.Keys == view.entries.Keys + {rt.dest}
      requires idx.buckets == view.buckets[Bucket(rt.dest) := [rt.dest] + view.buckets[Bucket(rt.dest)]]
      requires forall a :: a in view.entries ==> Shows(a)
      requires numEntries >= 0 && view.numEntries == numEntries && view.numActive == numActive
      requires view.kernel == kernel && view.seeks == seeks
      modifies this
      ensures Valid() && view == Inserted(old(view), rt.dest, rt.Value())
    {
      numEntries := numEntries + 1;
      if rt.valid {
        CountValid(rt);
      }
      view := Inserted(view, rt.dest, rt.Value());
      SettleNew(rt);
    }

    method CountValid(rt: Route)
      modifies this`numActive, this`kernel, this`seeks
      ensures numActive == old(numActive) + 1 && kernel == old(kernel)[rt.dest := rt.next]
      ensures seeks == old(seeks) - {rt.dest}
    {
      numActive := numActive + 1;
      kernel := kernel[rt.dest := rt.next];
      seeks := seeks - {rt.dest};
    }

    twostate lemma SettleNew(rt: Route)
      requires idx.Valid() && Has(rt) && unchanged(idx) && unchanged(idx.tbl) && |idx.buckets| == TABLE_SIZE
      requires rt.dest !in old(view).entries && idx.routes.Keys == old(view).entries.Keys + {rt.dest}
      requires old(forall a :: a in view.entries ==> Shows(a))
      requires forall r :: r in idx.objs ==> unchanged(r)
      requires view.entries == old(view).entries[rt.dest := rt.Value()] && view.buckets == idx.buckets
      requires numEntries > 0 && view.numEntries == numEntries && view.numActive == numActive
      requires view.kernel == kernel && view.seeks == seeks
      ensures Valid()
    {
      assert rt.dest in view.entries.Keys;
      assert view.entries.Keys == idx.routes.Keys;
      forall a | a in idx.routes
        ensures Shows(a)
      {
        assert idx.Homed(a) && (a != rt.dest ==> old(Shows(a)));
      }
    }

    /** rt's fields and the table's counters were changed together: everything still fits. */
    twostate lemma Settle(rt: Route)
      requires old(Valid()) && Has(rt) && unchanged(idx) && unchanged(idx.tbl)
      requires forall r :: r in idx.objs && r != rt ==> unchanged(r)
      requires view.entries == old(view).entries[rt.dest := rt.Value()]
      requires view.buckets == old(view).buckets && view.numEntries == old(view).numEntries == numEntries
      requires view.numActive == numActive && view.kernel == kernel && view.seeks == seeks
      ensures Valid()
    {
      assert view.entries.Keys == old(view).entries.Keys;
      forall a | a in idx.routes
        ensures Shows(a)
      {
        assert old(Shows(a)) && idx.Homed(a);
      }
    }

    method Invalidate(rt: Route, now: int) returns (res: int)
      requires Valid() && Has(rt)
      modifies this, rt
      ensures Valid() && view == InvalidateSpec(old(view), now, rt.dest)
      ensures res == if old(rt.valid) then 0 else -1
    {
      assert Shows(rt.dest);
      if !rt.valid {
        return -1;
      }
      rt.MarkInvalid(now);
      numActive := numActive - 1;
      kernel := kernel - {rt.dest};
      view := InvalidateSpec(view, now, rt.dest);
      Settle(rt);
      return 0;
    }

    method DestroyPrecursors(rt: Route)
      requires Valid() && Has(rt)
      modifies rt, this`view
      ensures Valid() && view == ClearPrecursorsSpec(old(view), rt.dest)
    {
      assert Shows(rt.dest);
      rt.DestroyPrecursors();
      view := ClearPrecursorsSpec(view, rt.dest);
      Settle(rt);
    }

    /** neighbor_link_break: the neighbour itself, then every route through it, bucket by bucket. */
    method LinkBreak(rt: Route, now: int) returns (rerr: Draft)
      requires Valid() && Has(rt)
      modifies this, idx.objs
      ensures Valid() && (view, rerr) == LinkBreakSpec(old(view), now, rt.dest)
    {
      assert Shows(rt.dest);
      if rt.hops != 1 {
        return NoRerr;
      }
      var _ := Invalidate(rt, now);
      assert Shows(rt.dest);
      rerr := NoRerr;
      if rt.precs != [] {
        rerr := Draft([(rt.dest, rt.seqno)], if |rt.precs| == 1 then rt.precs[0] else 0);
      }
      DestroyPrecursors(rt);
      rerr := BreakAll(rt, now, rerr);
    }

    /** The outer loop, over all buckets. */
    method BreakAll(rt: Route, now: int, dr: Draft) returns (rerr: Draft)
      requires Valid() && Has(rt)
      modifies this, idx.objs
      ensures Valid() && (view, rerr) == Cascade(old(view), now, rt.dest, Flatten(old(view).buckets), dr)
    {
      rerr := dr;
      ghost var buckets := view.buckets;
      assert buckets[0..] == buckets;
      for i := 0 to TABLE_SIZE
        invariant Valid() && view.buckets == buckets
        invariant Cascade(view, now, rt.dest, Flatten(buckets[i..]), rerr)
                  == Cascade(old(view), now, rt.dest, Flatten(buckets), dr)
      {
        assert buckets[i..][1..] == buckets[i + 1..];
        rerr := BreakBucket(rt, now, i, rerr, Flatten(buckets[i + 1..]));
      }
    }

    /** The inner loop over bucket b; `rest` is what the outer loop still has to walk. */
    method BreakBucket(rt: Route, now: int, b: nat, dr: Draft, ghost rest: seq<Addr>) returns (rerr: Draft)
      requires Valid() && Has(rt) && b < TABLE_SIZE
      modifies this, idx.objs
      ensures Valid() && view.buckets == old(view).buckets
      ensures Cascade(view, now, rt.dest, rest, rerr)
              == Cascade(old(view), now, rt.dest, old(view).buckets[b] + rest, dr)
    {
      rerr := dr;
      var bucket := idx.tbl[b];
      ghost var names := view.buckets[b];
      assert idx.Linked(b) && names[0..] == names;
      for i := 0 to |bucket|
        invariant Valid() && view.buckets == old(view).buckets
        invariant Cascade(view, now, rt.dest, names[i..] + rest, rerr)
                  == Cascade(old(view), now, rt.dest, names + rest, dr)
      {
        var u := bucket[i];
        assert idx.Linked(b) && u in bucket && idx.Homed(u.dest);
        CascadeStep(view, now, rt.dest, u.dest, names[i + 1..] + rest, rerr);
        SplitFirst(names, i, rest);
        rerr := BreakOne(rt, u, now, rerr);
      }
      assert names[|bucket|..] + rest == rest;
    }

    /** One entry of the walk. */
    method BreakOne(rt: Route, u: Route, now: int, dr: Draft) returns (rerr: Draft)
      requires Valid() && Has(rt) && Has(u)
      modifies this, u
      ensures Valid() && (view, rerr) == CascadeOne(old(view), now, rt.dest, u.dest, dr)
    {
      rerr := dr;
      assert Shows(u.dest);
      if u.valid && u.next == rt.dest && u.dest != rt.dest {
        var _ := Invalidate(u, now);
        assert Shows(u.dest);
        rerr := u.AddToRerr(dr);
        DestroyPrecursors(u);
      }
    }

    /** rt_table_update up to line 178. */
    method Announce(rt: Route, next: Addr, valid: bool)
      requires Valid() && Has(rt)
      modifies this
      ensures Valid() && view == AnnounceSpec(old(view), rt.dest, next, valid)
    {
      assert Shows(rt.dest);
      if !rt.valid && valid {
        numActive := numActive + 1;
        kernel := kernel[rt.dest := next];
      } else if rt.next != 0 && rt.next != next {
        kernel := kernel[rt.dest := next];
      }
      view := AnnounceSpec(view, rt.dest, next, valid);
      Settle(rt);
    }

    method Update(rt: Route, next: Addr, hops: nat, seqno: u32, now: int, lifetime: u32, valid: bool, unidir: bool)
      returns (rerr: Draft)
      requires Valid() && Has(rt)
      modifies this, idx.objs
      ensures Valid()
      ensures (view, rerr) == UpdateSpec(old(view), now, rt.dest, next, hops, seqno, lifetime, valid, unidir)
    {
      Announce(rt, next, valid);
      rerr := BreakIfLonger(rt, hops, now);
      Install(rt, next, hops, seqno, now, lifetime, valid, unidir);
    }

    /** A neighbour that becomes more than a hop away is treated as a broken link. */
    method BreakIfLonger(rt: Route, hops: nat, now: int) returns (rerr: Draft)
      requires Valid() && Has(rt)
      modifies this, idx.objs
      ensures Valid() && Has(rt) && rt.dest in old(view).entries
      ensures (view, rerr) == if hops > 1 && old(view).entries[rt.dest].hops == 1
              then LinkBreakSpec(old(view), now, rt.dest)
                              else (old(view), NoRerr)
    {
      rerr := NoRerr;
      assert Shows(rt.dest);
      if hops > 1 && rt.hops == 1 {
        rerr := LinkBreak(rt, now);
      }
    }

    /** rt_table_update from line 190. */
    method Install(rt: Route, next: Addr, hops: nat, seqno: u32, now: int, lifetime: u32, valid: bool, unidir: bool)
      requires Valid() && Has(rt)
      modifies this, rt
      ensures Valid() && rt.dest in old(view).entries
      ensures var e := UpdatedEntry(old(view).entries[rt.dest], now, next, hops, seqno, lifetime, valid, unidir);
              var t := Put(old(view), rt.dest, e);
              view == if valid then t.(seeks := t.seeks - {rt.dest}) else t
    {
      assert Shows(rt.dest);
      rt.Renew(now, next, hops, seqno, lifetime, valid, unidir);
      if valid {
        seeks := seeks - {rt.dest};
      }
      view := Put(view, rt.dest, rt.Value());
      view := view.(seeks := seeks);
      Settle(rt);
    }

    method UpdateTimeout(rt: Route, now: int, lifetime: u32)
      requires Valid() && Has(rt)
      modifies this`view, rt
      ensures Valid() && view == UpdateTimeoutSpec(old(view), now, rt.dest, lifetime)
    {
      assert Shows(rt.dest);
      rt.UpdateTimeout(now, lifetime);
      view := UpdateTimeoutSpec(view, now, rt.dest, lifetime);
      Settle(rt);
    }

    method AddPrecursor(rt: Route, a: Addr)
      requires Valid() && Has(rt)
      modifies this`view, rt
      ensures Valid() && view == AddPrecursorSpec(old(view), rt.dest, a)
    {
      assert Shows(rt.dest);
      rt.AddPrecursor(a);
      view := AddPrecursorSpec(view, rt.dest, a);
      Settle(rt);
    }

    /** seek_list_insert, and later changes of the entry. */
    method SetSeek(d: Addr, s: Seek)
      requires Valid()
      modifies this`seeks, this`view
      ensures Valid() && view == old(view).(seeks := old(view).seeks[d := s])
    {
      seeks := seeks[d := s];
      view := view.(seeks := seeks);
      Still();
    }

    /** seek_list_remove. */
    method RemoveSeek(d: Addr)
      requires Valid()
      modifies this`seeks, this`view
      ensures Valid() && view == old(view).(seeks := old(view).seeks - {d})
    {
      seeks := seeks - {d};
      view := view.(seeks := seeks);
      Still();
    }

    /** Only the list of pending discoveries changed. */
    twostate lemma Still()
      requires old(Valid()) && unchanged(idx) && unchanged(idx.tbl) && unchanged(`numEntries) && unchanged(`numActive)
      requires unchanged(`kernel) && forall r :: r in idx.objs ==> unchanged(r)
      requires view == old(view).(seeks := seeks)
      ensures Valid()
    {
      forall a | a in idx.routes
        ensures Shows(a)
      {
        assert old(Shows(a));
      }
    }

    /** neighbor->flags |= RT_UNIDIR */
    method SetUnidir(rt: Route)
      requires Valid() && Has(rt)
      modifies this`view, rt
      ensures Valid() && rt.dest in old(view).entries
      ensures view == Put(old(view), rt.dest, old(view).entries[rt.dest].(unidir := true))
    {
      assert Shows(rt.dest);
      rt.unidir := true;
      view := Put(view, rt.dest, rt.Value());
      Settle(rt);
    }

    /** The ack_timer is set or removed. */
    method SetAck(rt: Route, used: bool)
      requires Valid() && Has(rt)
      modifies this`view, rt
      ensures Valid() && rt.dest in old(view).entries
      ensures view == Put(old(view), rt.dest, old(view).entries[rt.dest].(ackUsed := used))
    {
      assert Shows(rt.dest);
      rt.ackUsed := used;
      view := Put(view, rt.dest, rt.Value());
      Settle(rt);
    }

    /** Both at once: rrep_forward marks a next hop until it acknowledges. */
    method AwaitAck(rt: Route)
      requires Valid() && Has(rt)
      modifies this`view, rt
      ensures Valid() && rt.dest in old(view).entries
      ensures view == Put(old(view), rt.dest, old(view).entries[rt.dest].(unidir := true, ackUsed := true))
    {
      assert Shows(rt.dest);
      rt.unidir := true;
      rt.ackUsed := true;
      view := Put(view, rt.dest, rt.Value());
      Settle(rt);
    }

    /** The sequence number, which rerr_process sets directly. */
    method SetSeqno(rt: Route, seqno: u32)
      requires Valid() && Has(rt)
      modifies this`view, rt
      ensures Valid() && rt.dest in old(view).entries
      ensures view == Put(old(view), rt.dest, old(view).entries[rt.dest].(seqno := seqno))
    {
      assert Shows(rt.dest);
      rt.seqno := seqno;
      view := Put(view, rt.dest, rt.Value());
      Settle(rt);
    }

    /** rt_table_delete; the object is freed. */
    method Delete(rt: Route)
      requires Valid() && Has(rt) && CountFits(view, rt.dest) && NoDuplicates(view.buckets[Bucket(rt.dest)])
      modifies this, idx, idx.tbl
      ensures Valid() && view == DeleteSpec(old(view), rt.dest) && idx.routes == old(idx.routes) - {rt.dest}
    {
      assert Shows(rt.dest);
      idx.Unlink(rt);
      forall a | a in idx.routes
        ensures a in view.entries && Shows(a)
      {
        assert old(Shows(a));
      }
      Forget(rt);
    }

    /** Discounts the route just unlinked. */
    method Forget(rt: Route)
      requires idx.Valid() && |idx.buckets| == |view.buckets| == TABLE_SIZE
      requires rt.dest in view.entries && rt.Value() == view.entries[rt.dest]
      requires idx.routes.Keys == view.entries.Keys - {rt.dest}
      requires idx.buckets == DeleteSpec(view, rt.dest).buckets
      requires forall a :: a in idx.routes ==> Shows(a)
      requires CountFits(view, rt.dest) && view.numEntries == numEntries && view.numActive == numActive
      requires view.kernel == kernel && view.seeks == seeks
      modifies this
      ensures Valid() && view == DeleteSpec(old(view), rt.dest)
    {
      numEntries := numEntries - 1;
      if rt.valid {
        UncountValid(rt);
      }
      view := DeleteSpec(view, rt.dest);
      SettleGone(rt.dest);
    }

    method UncountValid(rt: Route)
      modifies this`numActive, this`kernel
      ensures numActive == old(numActive) - 1 && kernel == old(kernel) - {rt.dest}
    {
      kernel := kernel - {rt.dest};
      numActive := numActive - 1;
    }

    twostate lemma SettleGone(d: Addr)
      requires idx.Valid() && idx.routes.Keys == old(view).entries.Keys - {d} && |idx.buckets| == TABLE_SIZE
      requires d in old(view).entries && unchanged(idx) && forall r :: r in idx.objs ==> unchanged(r)
      requires old(forall a :: a in idx.routes ==> a in view.entries && Shows(a))
      requires view.entries == old(view).entries - {d} && view.buckets == idx.buckets
      requires CountFits(old(view), d) && numEntries == old(view).numEntries - 1
      requires view.numEntries == numEntries && view.numActive == numActive
      requires view.kernel == kernel && view.seeks == seeks
      ensures Valid()
    {
      assert view.entries.Keys == idx.routes.Keys;
      forall a | a in idx.routes
        ensures Shows(a)
      {
        assert idx.Homed(a) && old(Shows(a));
      }
    }
  }

  /** num_entries is 1 exactly when d is the only entry. */
  ghost predicate CountFits(t: Table, d: Addr) {
    t.numEntries >= 1 && (t.numEntries == 1 <==> t.entries.Keys == {d})
  }

  /** An indexed table meets what deletion needs. */
  lemma IndexedFits(t: Table, d: Addr)
    requires Indexed(t) && d in t.entries
    ensures CountFits(t, d) && NoDuplicates(t.buckets[Bucket(d)])
  {
    assert BucketOk(t, t.buckets[Bucket(d)], Bucket(d));
    assert |t.entries| == |t.entries.Keys|;
    assert |t.entries.Keys - {d}| == |t.entries.Keys| - 1;
    if t.numEntries == 1 {
      assert t.entries.Keys - {d} == {};
    }
  }
}
