/**
 What a broken link and a received RERR do to the table and what they report, stated over the
 table as it was before, independent of the order of the walk.
 */
module RouteErrors {
  import opened Words
  import opened RouteSpec
  import opened Sequences
  import opened AodvSpec
  import opened TableRuns
  import opened KernelMirror

  function Dests(dr: Draft): (s: seq<(Addr, u32)>) {
    match dr case NoRerr => [] case Draft(dests, _) => dests
  }

  /** Precursor lists as precursor_add builds them from nonzero addresses. */
  ghost predicate PrecursorsOk(t: Table) {
    forall d :: d in t.entries ==> NoDuplicates(t.entries[d].precs) && 0 !in t.entries[d].precs
  }

  predicate SoleUser(e: Entry, u: Addr) { e.precs == [u] }

  /** Every listed destination had users, and the draft is addressed to one neighbour exactly when
      that neighbour is the only precursor of every listed destination. */
  ghost predicate DraftOk(t: Table, dr: Draft) {
    dr.Draft? ==>
      && dr.dests != []
      && (forall x :: x in dr.dests ==> x.0 in t.entries && t.entries[x.0].precs != [])
      && (forall u: Addr :: u != 0 ==> (dr.unicast == u <==> AllServe(t, dr.dests, u)))
  }

  /** u is the only precursor of every listed destination. */
  ghost predicate AllServe(t: Table, dests: seq<(Addr, u32)>, u: Addr) {
    forall x :: x in dests ==> x.0 in t.entries && SoleUser(t.entries[x.0], u)
  }

  lemma ReportOk(t: Table, dr: Draft, d: Addr, s: u32)
    requires PrecursorsOk(t) && DraftOk(t, dr) && d in t.entries
    ensures var dr' := Report(dr, d, s, t.entries[d].precs);
            DraftOk(t, dr') && Dests(dr') == Dests(dr) + (if t.entries[d].precs == [] then [] else [(d, s)])
  {
    var precs := t.entries[d].precs;
    var dr' := Report(dr, d, s, precs);
    if precs != [] {
      forall u: Addr {:trigger AllServe(t, dr'.dests, u)} | u != 0
        ensures dr'.unicast == u <==> AllServe(t, dr'.dests, u)
      {
        SoleUserTest(precs, u);
        assert (d, s) in dr'.dests;
        assert forall x :: x in dr'.dests <==> x in Dests(dr) || x == (d, s);
        if dr.Draft? {
          assert dr.unicast == u <==> AllServe(t, dr.dests, u);
          assert AllServe(t, dr'.dests, u) <==> AllServe(t, dr.dests, u) && precs == [u];
        }
      }
    }
  }

  /** Looking for a precursor other than u finds none exactly when u is the only one. */
  lemma SoleUserTest(precs: seq<Addr>, u: Addr)
    requires precs != [] && NoDuplicates(precs)
    ensures precs == [u] <==> !exists p :: p in precs && p != u
    ensures |precs| == 1 && precs[0] == u <==> precs == [u]
  {
    assert precs[0] in precs;
    if |precs| > 1 {
      assert precs[1] in precs && precs[0] != precs[1];
    }
  }

  /** No address twice; and not the address 0, if `named`. */
  ghost predicate PrecursorsFit(t: Table, named: bool) {
    forall d :: d in t.entries ==> NoDuplicates(t.entries[d].precs) && (named ==> 0 !in t.entries[d].precs)
  }

  lemma BrokenKeepsPrecursors(t: Table, now: int, t': Table, named: bool)
    requires PrecursorsFit(t, named) && AllKeptOrBroken(t, now, t')
    ensures PrecursorsFit(t', named)
  {
    forall a | a in t'.entries
      ensures NoDuplicates(t'.entries[a].precs) && (named ==> 0 !in t'.entries[a].precs)
    {
      assert KeptOrBroken(t.entries[a], now, t'.entries[a]);
    }
  }

  lemma UpdateKeepsPrecursors(t: Table, now: int, d: Addr, next: Addr, hops: nat, seqno: u32, lifetime: u32,
                              unidir: bool, named: bool)
    requires d in t.entries && PrecursorsFit(t, named)
    ensures PrecursorsFit(UpdateSpec(t, now, d, next, hops, seqno, lifetime, true, unidir).0, named)
  {
    var t2 := UpdateShape(t, now, d, next, hops, seqno, lifetime, unidir);
    BrokenKeepsPrecursors(t, now, t2, named);
    var e := UpdatedEntry(t2.entries[d], now, next, hops, seqno, lifetime, true, unidir);
    assert e.precs == t2.entries[d].precs;
  }

  lemma DoKeepsPrecursors(t: Table, now: int, op: Op, named: bool)
    requires |t.buckets| == TABLE_SIZE && Allowed(t, op) && PrecursorsFit(t, named) && (named ==> Named(op))
    ensures PrecursorsFit(Do(t, now, op), named)
  {
    match op
    case Update(d, next, hops, s, life, unidir) =>
      UpdateKeepsPrecursors(t, now, d, next, hops, s, life, unidir, named);
    case LinkBreak(d) =>
      LinkBreakShape(t, now, d);
      BrokenKeepsPrecursors(t, now, LinkBreakSpec(t, now, d).0, named);
    case AddPrecursor(d, a) => AddKeepsPrecursors(t, d, a, named);
    case _ =>
  }

  lemma AddKeepsPrecursors(t: Table, d: Addr, a: Addr, named: bool)
    requires d in t.entries && PrecursorsFit(t, named) && (named ==> a != 0)
    ensures PrecursorsFit(AddPrecursorSpec(t, d, a), named)
  {
    assert ([a] + t.entries[d].precs)[1..] == t.entries[d].precs;
  }

  /** Over every run no precursor list holds an address twice; and if the run stores addresses only, none holds
      the address 0. */
  lemma {:induction false} PrecursorsOverRuns(t: Table, ops: seq<Timed>, named: bool)
    requires RunAllowed(t, ops) && PrecursorsFit(t, named) && (named ==> AllNamed(ops))
    ensures PrecursorsFit(Run(t, ops), named)
    decreases ops
  {
    if ops != [] {
      assert named ==> Named(ops[0].op);
      DoKeepsPrecursors(t, ops[0].now, ops[0].op, named);
      PrecursorsOverRuns(Do(t, ops[0].now, ops[0].op), ops[1..], named);
    }
  }

  // ----- link break ----------------------------------------------------------------------------------

  /** The route to a dies with the link to `broken`. */
  predicate GoesThrough(t: Table, broken: Addr, a: Addr) {
    a in t.entries && a != broken && t.entries[a].valid && t.entries[a].next == broken
  }

  /** The cascaded routes that had precursors, in the order of the walk, with their new numbers. */
  function Reported(t: Table, broken: Addr, work: seq<Addr>): (s: seq<(Addr, u32)>) {
    if work == [] then []
    else
      var u := work[0];
      (if GoesThrough(t, broken, u) && t.entries[u].precs != [] then [(u, SeqnoIncr(t.entries[u].seqno))] else [])
      + Reported(t, broken, work[1..])
  }

  lemma {:induction false} ReportedMembers(t: Table, broken: Addr, work: seq<Addr>, x: (Addr, u32))
    ensures x in Reported(t, broken, work) <==>
            x.0 in work && GoesThrough(t, broken, x.0) && t.entries[x.0].precs != []
            && x.1 == SeqnoIncr(t.entries[x.0].seqno)
  {
    if work != [] {
      ReportedMembers(t, broken, work[1..], x);
    }
  }

  lemma ReportedSplit(t: Table, broken: Addr, u: Addr, rest: seq<Addr>, dests: seq<(Addr, u32)>)
    ensures dests + Reported(t, broken, [u] + rest) == dests + Reported(t, broken, [u]) + Reported(t, broken, rest)
  {
    assert ([u] + rest)[1..] == rest && [u][1..] == [];
  }

  /** t is t0 except for entries whose turn in `work` is over. */
  lemma {:induction false} CascadeReports(t: Table, now: int, broken: Addr, work: seq<Addr>, dr: Draft, t0: Table)
    requires PrecursorsOk(t0) && DraftOk(t0, dr) && NoDuplicates(work)
    requires forall a :: a in work && a != broken ==>
               (a in t.entries <==> a in t0.entries) && (a in t.entries ==> t.entries[a] == t0.entries[a])
    ensures var dr' := Cascade(t, now, broken, work, dr).1;
            DraftOk(t0, dr') && Dests(dr') == Dests(dr) + Reported(t0, broken, work)
    decreases work
  {
    if work != [] {
      var u, rest := work[0], work[1..];
      assert work == [u] + rest;
      CascadeStep(t, now, broken, u, rest, dr);
      ReportedSplit(t0, broken, u, rest, Dests(dr));
      CascadeOneReports(t, now, broken, u, dr, t0);
      CascadeOneLocal(t, now, broken, u, dr);
      var (t1, dr1) := CascadeOne(t, now, broken, u, dr);
      CascadeReports(t1, now, broken, rest, dr1, t0);
    }
  }

  lemma CascadeOneReports(t: Table, now: int, broken: Addr, u: Addr, dr: Draft, t0: Table)
    requires PrecursorsOk(t0) && DraftOk(t0, dr)
    requires u != broken ==> (u in t.entries <==> u in t0.entries) && (u in t.entries ==> t.entries[u] == t0.entries[u])
    ensures var dr1 := CascadeOne(t, now, broken, u, dr).1;
            DraftOk(t0, dr1) && Dests(dr1) == Dests(dr) + Reported(t0, broken, [u])
  {
    assert Reported(t0, broken, [u]) == (if GoesThrough(t0, broken, u) && t0.entries[u].precs != []
                                         then [(u, SeqnoIncr(t0.entries[u].seqno))] else []) + [];
    if GoesThrough(t0, broken, u) {
      ReportOk(t0, dr, u, SeqnoIncr(t0.entries[u].seqno));
    }
  }

  lemma CascadeOneLocal(t: Table, now: int, broken: Addr, u: Addr, dr: Draft)
    ensures var t1 := CascadeOne(t, now, broken, u, dr).0;
            t1.entries.Keys == t.entries.Keys && forall a :: a in t.entries && a != u ==> t1.entries[a] == t.entries[a]
  {
  }

  lemma {:induction false} FlattenNoDuplicates(ss: seq<seq<Addr>>, k: nat)
    requires forall b :: 0 <= b < |ss| ==> NoDuplicates(ss[b])
    requires forall b, x :: 0 <= b < |ss| && x in ss[b] ==> Bucket(x) == k + b
    ensures NoDuplicates(Flatten(ss))
  {
    if ss != [] {
      var rest := ss[1..];
      assert forall b :: 0 <= b < |rest| ==> rest[b] == ss[b + 1];
      FlattenNoDuplicates(rest, k + 1);
      forall x | x in Flatten(rest)
        ensures x !in ss[0]
      {
        FlattenMembers(rest, x);
        var b :| 0 <= b < |rest| && x in rest[b];
        assert x in ss[b + 1] && Bucket(x) == k + (b + 1);
      }
      JoinNoDuplicates(ss[0], Flatten(rest));
    }
  }

  lemma {:induction false} JoinNoDuplicates(s: seq<Addr>, f: seq<Addr>)
    requires NoDuplicates(s) && NoDuplicates(f) && forall x :: x in f ==> x !in s
    ensures NoDuplicates(s + f)
  {
    if s == [] {
      assert s + f == f;
    } else {
      JoinNoDuplicates(s[1..], f);
      assert (s + f)[1..] == s[1..] + f;
    }
  }

  /** The walk over the buckets meets every stored destination exactly once. */
  ghost predicate WalkOk(t: Table) {
    NoDuplicates(Flatten(t.buckets)) && forall d: Addr :: d in Flatten(t.buckets) <==> d in t.entries
  }

  lemma IndexedWalk(t: Table)
    requires Indexed(t)
    ensures WalkOk(t)
  {
    forall b | 0 <= b < |t.buckets|
      ensures NoDuplicates(t.buckets[b]) && forall x :: x in t.buckets[b] ==> Bucket(x) == 0 + b
    {
      assert BucketOk(t, t.buckets[b], b);
    }
    FlattenNoDuplicates(t.buckets, 0);
    forall d: Addr
      ensures d in Flatten(t.buckets) <==> d in t.entries
    {
      WalkIsComplete(t, d);
    }
  }

  /** The table after the link to the one-hop entry d broke. */
  function AfterLinkBreak(t: Table, now: int, d: Addr, a: Addr): (e: Entry)
    requires d in t.entries && a in t.entries
  {
    var e := t.entries[a];
    if a == d then (if e.valid then InvalidEntry(e, now) else e).(precs := [])
    else if GoesThrough(t, d, a) then InvalidEntry(e, now).(precs := [])
    else e
  }

  lemma LinkBreakEntries(t: Table, now: int, d: Addr)
    requires WalkOk(t) && d in t.entries && t.entries[d].hops == 1
    ensures forall a :: a in t.entries ==> LinkBreakSpec(t, now, d).0.entries[a] == AfterLinkBreak(t, now, d, a)
  {
    var t1 := InvalidateSpec(t, now, d);
    var e := t1.entries[d];
    var t2 := ClearPrecursorsSpec(t1, d);
    var work := Flatten(t.buckets);
    var dr := Report(NoRerr, d, e.seqno, e.precs);
    CascadeShape(t2, now, d, work, dr);
    assert LinkBreakSpec(t, now, d) == Cascade(t2, now, d, work, dr);
    forall a | a in t.entries
      ensures CascadedEntry(t2, now, d, work, a) == AfterLinkBreak(t, now, d, a)
    {
      assert a in work;
    }
  }

  /** Link break is complete and touches nothing else: every VALID route through d is invalidated, no
      VALID route uses d afterwards, and all other entries are as before. */
  lemma LinkBreakExact(t: Table, now: int, d: Addr)
    requires WalkOk(t) && d in t.entries && t.entries[d].hops == 1
    ensures var t' := LinkBreakSpec(t, now, d).0;
            && t'.entries.Keys == t.entries.Keys
            && (forall a :: a in t.entries ==> t'.entries[a] == AfterLinkBreak(t, now, d, a))
            && (forall a :: a in t'.entries && t'.entries[a].valid ==> t'.entries[a].next != d)
  {
    LinkBreakEntries(t, now, d);
    var t' := LinkBreakSpec(t, now, d).0;
    forall a | a in t.entries
      ensures t'.entries[a].valid ==> t'.entries[a].next != d
    {
      assert t'.entries[a] == AfterLinkBreak(t, now, d, a);
    }
  }

  /** The number d itself is reported with. */
  function BrokenSeqno(e: Entry): (s: u32) { if e.valid then SeqnoIncr(e.seqno) else e.seqno }

  lemma LinkBreakDraft(t: Table, now: int, d: Addr)
    requires WalkOk(t) && PrecursorsOk(t) && d in t.entries && t.entries[d].hops == 1
    ensures var dr, e := LinkBreakSpec(t, now, d).1, t.entries[d];
            && DraftOk(t, dr)
            && Dests(dr) == (if e.precs == [] then [] else [(d, BrokenSeqno(e))]) + Reported(t, d, Flatten(t.buckets))
  {
    var t1 := InvalidateSpec(t, now, d);
    var e := t1.entries[d];
    ReportOk(t, NoRerr, d, e.seqno);
    CascadeReports(ClearPrecursorsSpec(t1, d), now, d, Flatten(t.buckets), Report(NoRerr, d, e.seqno, e.precs), t);
  }

  lemma LinkBreakReportsOne(t: Table, now: int, d: Addr, x: (Addr, u32))
    requires WalkOk(t) && PrecursorsOk(t) && d in t.entries && t.entries[d].hops == 1
    ensures var (t', dr) := LinkBreakSpec(t, now, d);
            x in Dests(dr) <==>
            (x.0 == d || GoesThrough(t, d, x.0)) && x.0 in t.entries && t.entries[x.0].precs != []
            && x.1 == t'.entries[x.0].seqno
  {
    LinkBreakDraft(t, now, d);
    LinkBreakEntries(t, now, d);
    ReportedMembers(t, d, Flatten(t.buckets), x);
    var t' := LinkBreakSpec(t, now, d).0;
    assert x.0 in t.entries ==> t'.entries[x.0] == AfterLinkBreak(t, now, d, x.0);
  }

  /** The RERR of a link break lists exactly d (if it had precursors) and the cascaded routes that had
      some, each once, with its sequence number after the break; and it is sent to one neighbour exactly
      when that neighbour is the sole precursor of all of them. */
  lemma LinkBreakReports(t: Table, now: int, d: Addr)
    requires WalkOk(t) && PrecursorsOk(t) && d in t.entries && t.entries[d].hops == 1
    ensures var (t', dr) := LinkBreakSpec(t, now, d);
            && DraftOk(t, dr) && NoDuplicates(Dests(dr))
            && (forall x :: x in Dests(dr) <==>
                  (x.0 == d || GoesThrough(t, d, x.0)) && x.0 in t.entries && t.entries[x.0].precs != []
                  && x.1 == t'.entries[x.0].seqno)
  {
    LinkBreakDraft(t, now, d);
    var rest := Reported(t, d, Flatten(t.buckets));
    var (t', dr) := LinkBreakSpec(t, now, d);
    forall x: (Addr, u32)
      ensures x in Dests(dr) <==>
              (x.0 == d || GoesThrough(t, d, x.0)) && x.0 in t.entries && t.entries[x.0].precs != []
              && x.1 == t'.entries[x.0].seqno
    {
      LinkBreakReportsOne(t, now, d, x);
    }
    ReportedNoDuplicates(t, d, Flatten(t.buckets));
    var x := (d, BrokenSeqno(t.entries[d]));
    ReportedMembers(t, d, Flatten(t.buckets), x);
    assert ([x] + rest)[1..] == rest && [] + rest == rest;
  }

  lemma {:induction false} ReportedNoDuplicates(t: Table, broken: Addr, work: seq<Addr>)
    requires NoDuplicates(work)
    ensures NoDuplicates(Reported(t, broken, work))
  {
    if work != [] {
      var u, rest := work[0], Reported(t, broken, work[1..]);
      ReportedNoDuplicates(t, broken, work[1..]);
      var x := (u, SeqnoIncr(if u in t.entries then t.entries[u].seqno else 0));
      ReportedMembers(t, broken, work[1..], x);
      assert ([x] + rest)[1..] == rest && [] + rest == rest;
    }
  }

  // ----- the RREP that a link break replaces ---------------------------------------------------------

  /** Someone used the neighbour, or a VALID route through it. */
  ghost predicate HasUsers(t: Table, neighbor: Addr) {
    exists a :: a in t.entries && t.entries[a].precs != [] && (a == neighbor || GoesThrough(t, neighbor, a))
  }

  /** A RREP along the route `rev` breaks the link it would take, and a RERR is built in its place. */
  ghost predicate Overwritten(t: Table, rev: Addr)
    requires rev in t.entries
  {
    var e := t.entries[rev];
    && e.valid && e.unidir && e.next in t.entries
    && t.entries[e.next].valid && !t.entries[e.next].ackUsed && t.entries[e.next].hops == 1
    && HasUsers(t, e.next)
  }

  lemma BreakReportsIff(t: Table, now: int, d: Addr)
    requires WalkOk(t) && PrecursorsOk(t) && d in t.entries && t.entries[d].hops == 1
    ensures LinkBreakSpec(t, now, d).1.Draft? <==> HasUsers(t, d)
  {
    LinkBreakReports(t, now, d);
    var (t', dr) := LinkBreakSpec(t, now, d);
    if dr.Draft? {
      assert dr.dests[0] in Dests(dr);
    }
    if a :| a in t.entries && t.entries[a].precs != [] && (a == d || GoesThrough(t, d, a)) {
      assert (a, t'.entries[a].seqno) in Dests(dr);
    }
  }

  /** Marking the neighbour changes neither who uses it nor what goes through it. */
  lemma MarkedAlike(t: Table, d: Addr)
    requires d in t.entries
    ensures var t1 := Put(t, d, t.entries[d].(unidir := true));
            && (WalkOk(t) ==> WalkOk(t1)) && (PrecursorsOk(t) ==> PrecursorsOk(t1))
            && (HasUsers(t1, d) <==> HasUsers(t, d))
  {
    var t1 := Put(t, d, t.entries[d].(unidir := true));
    if a :| a in t.entries && t.entries[a].precs != [] && (a == d || GoesThrough(t, d, a)) {
      assert a in t1.entries && t1.entries[a].precs != [] && (a == d || GoesThrough(t1, d, a));
    }
    if a :| a in t1.entries && t1.entries[a].precs != [] && (a == d || GoesThrough(t1, d, a)) {
      assert a in t.entries && t.entries[a].precs != [] && (a == d || GoesThrough(t, d, a));
    }
  }

  lemma BreakUnidirReportsIff(t: Table, now: int, rev: Addr)
    requires WalkOk(t) && PrecursorsOk(t) && rev in t.entries
    ensures BreakUnidir(t, now, rev).1.Draft? <==> Overwritten(t, rev)
  {
    var d := t.entries[rev].next;
    if d in t.entries && t.entries[d].hops == 1 {
      MarkedAlike(t, d);
      BreakReportsIff(Put(t, d, t.entries[d].(unidir := true)), now, d);
    }
  }

  /** rrep_send hands the RREP to the socket if and only if the link it would take does not have to be broken
      and reported first; otherwise a RERR goes to the next hop in its place, with the RREP's length. */
  lemma RrepSurvivesIff(n: NodeState, now: int, m: Rrep, rev: Addr, fwd: Addr, hasFwd: bool)
    requires WalkOk(n.table) && PrecursorsOk(n.table) && rev in n.table.entries && (hasFwd ==> fwd in n.table.entries)
    ensures var out := RrepSend(n, now, m, rev, fwd, hasFwd).1;
            && out != []
            && (out[|out| - 1].msg == RrepMsg(m) <==> !Overwritten(n.table, rev))
            && ((exists p :: p in out && p.msg.RrepMsg?) <==> !Overwritten(n.table, rev))
            && (Overwritten(n.table, rev) ==> out[|out| - 1].msg.RerrMsg? && out[|out| - 1].len == RREP_SIZE)
  {
    BreakUnidirReportsIff(n.table, now, rev);
    var out := RrepSend(n, now, m, rev, fwd, hasFwd).1;
    assert out[|out| - 1] in out;
  }

  /** A neighbour that was once asked for an acknowledgement, and that node 3 uses. */
  function UsedUnidir(): (ops: seq<Timed>) {
    [Timed(0, Insert(1, 1, 1, 5, 3000)), Timed(0, Mark(1, true, false)), Timed(0, AddPrecursor(1, 3))]
  }

  lemma UsedUnidirRuns(t: Table)
    requires IsEmpty(t)
    ensures RunAllowed(t, UsedUnidir()) && 1 in Run(t, UsedUnidir()).entries
    ensures var e := Run(t, UsedUnidir()).entries[1];
            e.next == 1 && e.hops == 1 && e.valid && e.unidir && !e.ackUsed && e.precs == [3]
  {
    var ops := UsedUnidir();
    var t1 := Do(t, 0, ops[0].op);
    var t2 := Do(t1, 0, ops[1].op);
    assert ops[1..][1..] == [ops[2]] && ops[2..] == [ops[2]] && [ops[2]][1..] == [];
    assert RunAllowed(Do(t2, 0, ops[2].op), []) && RunAllowed(t2, [ops[2]]) && RunAllowed(t1, ops[1..]);
  }

  lemma UsedUnidirIsOverwritten(t: Table)
    requires IsEmpty(t)
    ensures RunAllowed(t, UsedUnidir())
    ensures var t3 := Run(t, UsedUnidir());
            1 in t3.entries && Overwritten(t3, 1) && WalkOk(t3) && PrecursorsOk(t3)
  {
    UsedUnidirRuns(t);
    var t3 := Run(t, UsedUnidir());
    RunKeepsIndex(t, UsedUnidir());
    IndexedWalk(t3);
    PrecursorsOverRuns(t, UsedUnidir(), true);
    assert 1 in t3.entries && t3.entries[1].precs != [];
  }

  /** Three operations on the empty table suffice: an answer to that neighbour is lost. */
  lemma RrepIsLost(n: NodeState, t: Table, now: int, m: Rrep)
    requires IsEmpty(t) && RunAllowed(t, UsedUnidir()) && n.table == Run(t, UsedUnidir()) && 1 in n.table.entries
    ensures Overwritten(n.table, 1)
    ensures forall p :: p in RrepSend(n, now, m, 1, 0, false).1 ==> !p.msg.RrepMsg?
  {
    UsedUnidirIsOverwritten(t);
    RrepSurvivesIff(n, now, m, 1, 0, false);
  }

  // ----- received RERR -------------------------------------------------------------------------------

  /** The listed pairs that take a route down, judged on the table as it was: the first hit per destination. */
  function Hits(t: Table, src: Addr, work: seq<(Addr, u32)>, done: set<Addr>): (s: seq<(Addr, u32)>) {
    if work == [] then []
    else
      var (d, s) := work[0];
      if d !in done && RerrHits(t, src, d, s) then [(d, s)] + Hits(t, src, work[1..], done + {d})
      else Hits(t, src, work[1..], done)
  }

  /** Of those, the ones someone used. */
  function WithUsers(t: Table, hits: seq<(Addr, u32)>): (s: seq<(Addr, u32)>) {
    if hits == [] then []
    else
      (if hits[0].0 in t.entries && t.entries[hits[0].0].precs != [] then [hits[0]] else [])
      + WithUsers(t, hits[1..])
  }

  function TakenDown(e: Entry, now: int, s: u32): (e': Entry) {
    InvalidEntry(e, now).(seqno := s, precs := [])
  }

  /** Entry e of destination a after the hits: the one that names a, if any, takes it down. */
  function AfterHits(e: Entry, now: int, hits: seq<(Addr, u32)>, a: Addr): (e': Entry) {
    if hits == [] then e
    else if hits[0].0 == a then TakenDown(e, now, hits[0].1)
    else AfterHits(e, now, hits[1..], a)
  }

  lemma {:induction false} HitsAreNew(t: Table, src: Addr, work: seq<(Addr, u32)>, done: set<Addr>)
    ensures forall x :: x in Hits(t, src, work, done) ==> x.0 !in done && RerrHits(t, src, x.0, x.1) && x in work
  {
    if work != [] {
      var (d, s) := work[0];
      if d !in done && RerrHits(t, src, d, s) {
        HitsAreNew(t, src, work[1..], done + {d});
      } else {
        HitsAreNew(t, src, work[1..], done);
      }
    }
  }

  /** t is t0 except that the destinations in `done` have been taken down. */
  ghost predicate Undone(t0: Table, t: Table, done: set<Addr>) {
    t.entries.Keys == t0.entries.Keys
    && forall a :: a in t0.entries ==> if a in done then !t.entries[a].valid else t.entries[a] == t0.entries[a]
  }

  function Settled(t0: Table, t: Table, now: int, done: set<Addr>, hits: seq<(Addr, u32)>, a: Addr): (e: Entry)
    requires a in t0.entries && a in t.entries
  {
    if a in done then t.entries[a] else AfterHits(t0.entries[a], now, hits, a)
  }

  lemma TakeDownUndone(t0: Table, t: Table, now: int, d: Addr, s: u32, done: set<Addr>, dr: Draft)
    requires Undone(t0, t, done) && d in t.entries && t.entries[d].valid
    ensures d !in done
    ensures var (t1, dr1) := TakeDownStep(t, now, false, d, s, dr);
            && Undone(t0, t1, done + {d}) && t1.entries == t.entries[d := TakenDown(t0.entries[d], now, s)]
            && dr1 == Report(dr, d, s, t0.entries[d].precs)
  {
  }

  lemma HitsUnfold(t: Table, src: Addr, d: Addr, s: u32, rest: seq<(Addr, u32)>, done: set<Addr>)
    ensures Hits(t, src, [(d, s)] + rest, done) ==
            if d !in done && RerrHits(t, src, d, s) then [(d, s)] + Hits(t, src, rest, done + {d})
                else Hits(t, src, rest, done)
  {
    assert ([(d, s)] + rest)[1..] == rest;
  }

  lemma WithUsersUnfold(t: Table, x: (Addr, u32), rest: seq<(Addr, u32)>)
    ensures WithUsers(t, [x] + rest) ==
            (if x.0 in t.entries && t.entries[x.0].precs != [] then [x] else []) + WithUsers(t, rest)
  {
    assert ([x] + rest)[1..] == rest;
  }

  lemma ReportedFirst(t: Table, dr: Draft, d: Addr, s: u32, hits: seq<(Addr, u32)>)
    requires d in t.entries
    ensures Dests(Report(dr, d, s, t.entries[d].precs)) + WithUsers(t, hits)
            == Dests(dr) + WithUsers(t, [(d, s)] + hits)
  {
    WithUsersUnfold(t, (d, s), hits);
  }

  lemma {:induction false} RerrWalkDraft(t0: Table, t: Table, now: int, src: Addr, work: seq<(Addr, u32)>,
                                         done: set<Addr>, dr: Draft)
    requires PrecursorsOk(t0) && DraftOk(t0, dr) && Undone(t0, t, done)
    ensures var dr' := RerrWalk(t, now, false, src, work, dr).1;
            DraftOk(t0, dr') && Dests(dr') == Dests(dr) + WithUsers(t0, Hits(t0, src, work, done))
    decreases work
  {
    if work != [] {
      var d, s, rest := work[0].0, work[0].1, work[1..];
      assert work == [(d, s)] + rest;
      RerrWalkStep(t, now, false, src, d, s, rest, dr);
      HitsUnfold(t0, src, d, s, rest, done);
      if RerrHits(t, src, d, s) {
        TakeDownUndone(t0, t, now, d, s, done, dr);
        ReportOk(t0, dr, d, s);
        var (t1, dr1) := TakeDownStep(t, now, false, d, s, dr);
        RerrWalkDraft(t0, t1, now, src, rest, done + {d}, dr1);
        ReportedFirst(t0, dr, d, s, Hits(t0, src, rest, done + {d}));
      } else {
        RerrWalkDraft(t0, t, now, src, rest, done, dr);
      }
    }
  }

  lemma {:induction false} RerrWalkEntries(t0: Table, t: Table, now: int, src: Addr, work: seq<(Addr, u32)>,
                                           done: set<Addr>, dr: Draft, a: Addr)
    requires Undone(t0, t, done) && a in t0.entries
    ensures RerrWalk(t, now, false, src, work, dr).0.entries[a]
            == Settled(t0, t, now, done, Hits(t0, src, work, done), a)
    decreases work
  {
    if work != [] {
      var d, s, rest := work[0].0, work[0].1, work[1..];
      assert work == [(d, s)] + rest;
      RerrWalkStep(t, now, false, src, d, s, rest, dr);
      HitsUnfold(t0, src, d, s, rest, done);
      if RerrHits(t, src, d, s) {
        TakeDownUndone(t0, t, now, d, s, done, dr);
        var (t1, dr1) := TakeDownStep(t, now, false, d, s, dr);
        RerrWalkEntries(t0, t1, now, src, rest, done + {d}, dr1, a);
        var hits := Hits(t0, src, rest, done + {d});
        assert ([(d, s)] + hits)[1..] == hits;
      } else {
        RerrWalkEntries(t0, t, now, src, rest, done, dr, a);
      }
    }
  }

  /** Processing a RERR (n clear) is a fold over its list judged on the old table: only VALID routes via
      the sender with a stored number not above the listed one change, each ends INVALID with the listed
      number and no precursors; the onward RERR lists exactly those that had precursors, in order. */
  lemma RerrProcessExact(n: NodeState, now: int, m: Rerr, len: int, src: Addr)
    requires PrecursorsOk(n.table) && !m.noDelete && len >= RerrSize(|m.dests|)
    ensures var (n', out) := RerrProcess(n, now, m, len, src);
            var hits := Hits(n.table, src, m.dests, {});
            var onward := WithUsers(n.table, hits);
            && n'.table.entries.Keys == n.table.entries.Keys
            && (forall a :: a in n.table.entries ==>
                  n'.table.entries[a] == AfterHits(n.table.entries[a], now, hits, a))
            && (onward == [] ==> out == [])
  {
    RerrWalkDraft(n.table, n.table, now, src, m.dests, {}, NoRerr);
    forall a | a in n.table.entries
      ensures RerrProcess(n, now, m, len, src).0.table.entries[a]
              == AfterHits(n.table.entries[a], now, Hits(n.table, src, m.dests, {}), a)
    {
      RerrWalkEntries(n.table, n.table, now, src, m.dests, {}, NoRerr, a);
    }
    var (t, dr) := RerrWalk(n.table, now, false, src, m.dests, NoRerr);
    var onward := WithUsers(n.table, Hits(n.table, src, m.dests, {}));
    assert [] + onward == onward;
  }

  /** The onward RERR: one message, sent to the sole precursor of everything it lists if there is one and
      the daemon has an entry for it (without one it is not sent), and broadcast otherwise. */
  lemma RerrOnward(n: NodeState, now: int, m: Rerr, len: int, src: Addr)
    requires PrecursorsOk(n.table) && !m.noDelete && len >= RerrSize(|m.dests|)
    requires WithUsers(n.table, Hits(n.table, src, m.dests, {})) != []
    ensures var out := RerrProcess(n, now, m, len, src).1;
            var onward := WithUsers(n.table, Hits(n.table, src, m.dests, {}));
            && (forall u: Addr :: u != 0 && AllServe(n.table, onward, u) ==>
                  out == if u in n.table.entries then [RerrPacket(n.self, false, onward, u)] else [])
            && ((forall u: Addr :: u != 0 ==> !AllServe(n.table, onward, u))
               ==> out == [RerrPacket(n.self, false, onward, 0)])
  {
    RerrWalkDraft(n.table, n.table, now, src, m.dests, {}, NoRerr);
    var (t, dr) := RerrWalk(n.table, now, false, src, m.dests, NoRerr);
    var onward := WithUsers(n.table, Hits(n.table, src, m.dests, {}));
    assert [] + onward == onward && Dests(dr) == onward;
    assert dr.Draft? && dr.dests == onward && t.entries.Keys == n.table.entries.Keys;
    assert dr.unicast != 0 ==> AllServe(n.table, onward, dr.unicast);
  }
}
