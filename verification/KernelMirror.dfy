/**
 The kernel's copy of the routing table over runs of table operations: what it holds, and the messages that
 bring it there.
 */
module KernelMirror {
  import opened Words
  import opened RouteSpec
  import opened TableRuns

  /** Every next hop is an address. */
  ghost predicate NextsOk(t: Table) {
    forall d :: d in t.entries ==> t.entries[d].next != 0
  }

  /** The addresses that the operation stores are not 0, which no host has. */
  predicate Named(op: Op) {
    (op.Insert? || op.Update? ==> op.next != 0) && (op.AddPrecursor? ==> op.a != 0)
  }

  /** The kernel's copy agrees with user space about a, unless a was lost. */
  predicate MirrorAt(t: Table, lost: set<Addr>, a: Addr) {
    && (a in t.kernel <==> a in t.entries && t.entries[a].valid && a !in lost)
    && (a in t.kernel ==> t.kernel[a] == t.entries[a].next)
  }

  ghost predicate Mirror(t: Table, lost: set<Addr>, except: set<Addr>) {
    forall a: Addr :: a !in except ==> MirrorAt(t, lost, a)
  }

  /** The destinations the kernel has lost track of, after op. */
  function LostAfter(t: Table, op: Op, lost: set<Addr>): (lost': set<Addr>)
    requires Allowed(t, op)
  {
    if Slips(t, op) then lost + {op.d} else if Announces(t, op) then lost - {op.d} else lost
  }

  // ----- next hops ---------------------------------------------------------------------------------------

  lemma BrokenKeepsNexts(t: Table, now: int, t': Table)
    requires NextsOk(t) && AllKeptOrBroken(t, now, t')
    ensures NextsOk(t')
  {
    forall a | a in t'.entries
      ensures t'.entries[a].next != 0
    {
      assert KeptOrBroken(t.entries[a], now, t'.entries[a]);
    }
  }

  lemma DoKeepsNexts(t: Table, now: int, op: Op)
    requires |t.buckets| == TABLE_SIZE && NextsOk(t) && Allowed(t, op) && Named(op)
    ensures NextsOk(Do(t, now, op))
  {
    match op
    case Update(d, next, hops, s, life, unidir) => UpdateKeepsNexts(t, now, d, next, hops, s, life, unidir);
    case LinkBreak(d) =>
      LinkBreakShape(t, now, d);
      BrokenKeepsNexts(t, now, LinkBreakSpec(t, now, d).0);
    case _ =>
  }

  lemma UpdateKeepsNexts(t: Table, now: int, d: Addr, next: Addr, hops: nat, seqno: u32, lifetime: u32, unidir: bool)
    requires NextsOk(t) && d in t.entries && next != 0
    ensures NextsOk(UpdateSpec(t, now, d, next, hops, seqno, lifetime, true, unidir).0)
  {
    var t2 := UpdateShape(t, now, d, next, hops, seqno, lifetime, unidir);
    BrokenKeepsNexts(t, now, t2);
    assert UpdatedEntry(t2.entries[d], now, next, hops, seqno, lifetime, true, unidir).next == next;
  }

  // ----- the mirror --------------------------------------------------------------------------------------

  lemma InvalidateMirrors(t: Table, now: int, d: Addr, lost: set<Addr>, except: set<Addr>)
    requires d in t.entries && Mirror(t, lost, except)
    ensures var t' := InvalidateSpec(t, now, d);
            Mirror(t', lost, except) && (t.entries[d].valid ==> Mirror(t', lost, except - {d}))
  {
  }

  lemma PutMirrors(t: Table, d: Addr, e: Entry, lost: set<Addr>, except: set<Addr>)
    requires d in t.entries && Mirror(t, lost, except)
    requires e.valid == t.entries[d].valid && (e.next == t.entries[d].next || d in except)
    ensures Mirror(Put(t, d, e), lost, except)
  {
  }

  lemma {:induction false} CascadeMirrors(t: Table, now: int, broken: Addr, work: seq<Addr>, dr: Draft,
                                          lost: set<Addr>, except: set<Addr>)
    requires Mirror(t, lost, except)
    ensures Mirror(Cascade(t, now, broken, work, dr).0, lost, except)
    decreases work
  {
    if work != [] {
      var u := work[0];
      if u in t.entries && t.entries[u].valid && t.entries[u].next == broken && u != broken {
        InvalidateMirrors(t, now, u, lost, except);
        var t1 := InvalidateSpec(t, now, u);
        var e := t1.entries[u];
        PutMirrors(t1, u, e.(precs := []), lost, except);
        CascadeMirrors(ClearPrecursorsSpec(t1, u), now, broken, work[1..], Report(dr, u, e.seqno, e.precs), lost,
            except);
      } else {
        CascadeMirrors(t, now, broken, work[1..], dr, lost, except);
      }
    }
  }

  lemma LinkBreakMirrors(t: Table, now: int, d: Addr, lost: set<Addr>, except: set<Addr>)
    requires d in t.entries && Mirror(t, lost, except)
    ensures var t' := LinkBreakSpec(t, now, d).0;
            && Mirror(t', lost, except)
            && (d in t'.kernel <==> d in t.kernel && !(t.entries[d].hops == 1 && t.entries[d].valid))
            && (d in t'.kernel ==> t'.kernel[d] == t.kernel[d])
  {
    if t.entries[d].hops == 1 {
      InvalidateMirrors(t, now, d, lost, except);
      var t1 := InvalidateSpec(t, now, d);
      var e := t1.entries[d];
      var dr := Report(NoRerr, d, e.seqno, e.precs);
      PutMirrors(t1, d, e.(precs := []), lost, except);
      CascadeMirrors(ClearPrecursorsSpec(t1, d), now, d, Flatten(t.buckets), dr, lost, except);
      CascadeSpares(ClearPrecursorsSpec(t1, d), now, d, Flatten(t.buckets), dr);
    }
  }

  lemma AnnounceMirrors(t: Table, d: Addr, next: Addr, lost: set<Addr>)
    requires d in t.entries && Mirror(t, lost, {}) && NextsOk(t)
    ensures var t1, e := AnnounceSpec(t, d, next, true), t.entries[d];
            && t1.entries == t.entries && Mirror(t1, lost, {d})
            && (d in t1.kernel <==> !e.valid || e.next != next || d !in lost)
            && (d in t1.kernel ==> t1.kernel[d] == next)
  {
    assert MirrorAt(t, lost, d);
    var t1 := AnnounceSpec(t, d, next, true);
    forall a: Addr | a != d
      ensures MirrorAt(t1, lost, a)
    {
      assert MirrorAt(t, lost, a);
    }
  }

  lemma AnnouncedMirrors(t: Table, now: int, op: Op, lost: set<Addr>)
    requires Allowed(t, op) && op.Update? && Mirror(t, lost, {}) && NextsOk(t)
    ensures var t2 := Announced(t, now, op);
            && Mirror(t2, lost, {op.d})
            && (op.d in t2.kernel <==> !Slips(t, op) && (Announces(t, op) || op.d !in lost))
            && (op.d in t2.kernel ==> t2.kernel[op.d] == op.next)
  {
    AnnounceMirrors(t, op.d, op.next, lost);
    LinkBreakMirrors(AnnounceSpec(t, op.d, op.next, true), now, op.d, lost, {op.d});
  }

  lemma InstallMirrors(t: Table, d: Addr, e: Entry, lost: set<Addr>, lost': set<Addr>, t': Table)
    requires d in t.entries && Mirror(t, lost, {d}) && e.valid && lost' - {d} == lost - {d}
    requires d in t.kernel <==> d !in lost'
    requires d in t.kernel ==> t.kernel[d] == e.next
    requires t'.entries == t.entries[d := e] && t'.kernel == t.kernel
    ensures Mirror(t', lost', {})
  {
    forall a: Addr
      ensures MirrorAt(t', lost', a)
    {
      if a != d {
        assert MirrorAt(t, lost, a);
        assert a in lost' <==> a in lost' - {d};
        assert a in lost <==> a in lost - {d};
      }
    }
  }

  lemma UpdateMirrors(t: Table, now: int, op: Op, lost: set<Addr>)
    requires |t.buckets| == TABLE_SIZE && Allowed(t, op) && op.Update? && Mirror(t, lost, {}) && NextsOk(t)
    ensures Mirror(Do(t, now, op), LostAfter(t, op, lost), {})
  {
    AnnouncedMirrors(t, now, op, lost);
    var t2 := Announced(t, now, op);
    var e := UpdatedEntry(t2.entries[op.d], now, op.next, op.hops, op.seqno, op.lifetime, true, op.unidir);
    InstallMirrors(t2, op.d, e, lost, LostAfter(t, op, lost), Do(t, now, op));
  }

  lemma InsertMirrors(t: Table, now: int, op: Op, lost: set<Addr>)
    requires |t.buckets| == TABLE_SIZE && Allowed(t, op) && op.Insert? && Mirror(t, lost, {})
    ensures Mirror(Do(t, now, op), LostAfter(t, op, lost), {})
  {
    var t' := Do(t, now, op);
    forall a: Addr
      ensures MirrorAt(t', LostAfter(t, op, lost), a)
    {
      assert MirrorAt(t, lost, a);
    }
  }

  /** Operations that leave state and next hop of every entry alone. */
  lemma EditMirrors(t: Table, now: int, op: Op, lost: set<Addr>)
    requires |t.buckets| == TABLE_SIZE && Allowed(t, op) && Mirror(t, lost, {})
    requires op.Prolong? || op.AddPrecursor? || op.ClearPrecursors? || op.SetSeqno? || op.Mark? || op.Ask? || op.GiveUp?
    ensures Mirror(Do(t, now, op), lost, {})
  {
    var t' := Do(t, now, op);
    forall a: Addr
      ensures MirrorAt(t', lost, a)
    {
      assert MirrorAt(t, lost, a);
    }
  }

  lemma DoMirrors(t: Table, now: int, op: Op, lost: set<Addr>)
    requires |t.buckets| == TABLE_SIZE && Allowed(t, op) && Mirror(t, lost, {}) && NextsOk(t)
    ensures Mirror(Do(t, now, op), LostAfter(t, op, lost), {})
  {
    if op.Insert? {
      InsertMirrors(t, now, op, lost);
    } else if op.Update? {
      UpdateMirrors(t, now, op, lost);
    } else if op.Invalidate? {
      InvalidateMirrors(t, now, op.d, lost, {});
    } else if op.LinkBreak? {
      LinkBreakMirrors(t, now, op.d, lost, {});
    } else if !op.Delete? {
      EditMirrors(t, now, op, lost);
    }
  }

  // ----- whole runs --------------------------------------------------------------------------------------

  predicate AllNamed(ops: seq<Timed>) {
    forall x :: x in ops ==> Named(x.op)
  }

  function LostOver(t: Table, ops: seq<Timed>, lost: set<Addr>): (lost': set<Addr>)
    requires RunAllowed(t, ops)
    decreases ops
  {
    if ops == [] then lost
    else LostOver(Do(t, ops[0].now, ops[0].op), ops[1..], LostAfter(t, ops[0].op, lost))
  }

  lemma {:induction false} RunMirrors(t: Table, ops: seq<Timed>, lost: set<Addr>)
    requires RunAllowed(t, ops) && AllNamed(ops) && Mirror(t, lost, {}) && NextsOk(t)
    ensures Mirror(Run(t, ops), LostOver(t, ops, lost), {}) && NextsOk(Run(t, ops))
    decreases ops
  {
    if ops != [] {
      assert Named(ops[0].op);
      DoMirrors(t, ops[0].now, ops[0].op, lost);
      DoKeepsNexts(t, ops[0].now, ops[0].op);
      RunMirrors(Do(t, ops[0].now, ops[0].op), ops[1..], LostAfter(t, ops[0].op, lost));
    }
  }

  /** What the kernel should hold: each VALID destination with its next hop. */
  function ValidRoutes(t: Table): (m: map<Addr, Addr>) {
    map d | d in t.entries && t.entries[d].valid :: t.entries[d].next
  }

  lemma KernelIsValidRoutes(t: Table, lost: set<Addr>)
    requires Mirror(t, lost, {})
    ensures t.kernel == ValidRoutes(t) - lost
    ensures t.kernel == ValidRoutes(t) <==> Valids(t) !! lost
  {
    forall a: Addr
      ensures a in t.kernel <==> a in ValidRoutes(t) && a !in lost
      ensures a in t.kernel ==> t.kernel[a] == ValidRoutes(t)[a]
    {
      assert MirrorAt(t, lost, a);
    }
    assert ValidRoutes(t).Keys == Valids(t);
    assert t.kernel.Keys == Valids(t) - lost;
    if Valids(t) !! lost {
      assert t.kernel.Keys == Valids(t);
    }
  }

  /** After any run the kernel holds exactly the VALID routes, each with the same next hop, except the
      ones lost to a self-breaking update; so it is exact if and only if no VALID route was lost. */
  lemma KernelMirrorOverRuns(t: Table, ops: seq<Timed>)
    requires IsEmpty(t) && RunAllowed(t, ops) && AllNamed(ops)
    ensures var t', lost := Run(t, ops), LostOver(t, ops, {});
            && t'.kernel == ValidRoutes(t') - lost
            && (t'.kernel == ValidRoutes(t') <==> Valids(t') !! lost)
  {
    RunMirrors(t, ops, {});
    KernelIsValidRoutes(Run(t, ops), LostOver(t, ops, {}));
  }

  /** An update leaves its route in the kernel if and only if it does not break its own link, and the route is
      announced or was there. */
  lemma UpdateInKernelIff(t: Table, now: int, op: Op)
    requires |t.buckets| == TABLE_SIZE && Allowed(t, op) && op.Update? && t.entries[op.d].next != 0
    ensures op.d in Do(t, now, op).kernel <==> !Slips(t, op) && (Announces(t, op) || op.d in t.kernel)
  {
    var t1 := AnnounceSpec(t, op.d, op.next, true);
    if op.hops > 1 && t1.entries[op.d].hops == 1 {
      var t2 := InvalidateSpec(t1, now, op.d);
      var e := t2.entries[op.d];
      CascadeSparesKernel(ClearPrecursorsSpec(t2, op.d), now, op.d, Flatten(t.buckets),
                          Report(NoRerr, op.d, e.seqno, e.precs));
    }
  }

  lemma {:induction false} CascadeSparesKernel(t: Table, now: int, broken: Addr, work: seq<Addr>, dr: Draft)
    ensures broken in Cascade(t, now, broken, work, dr).0.kernel <==> broken in t.kernel
    decreases work
  {
    if work != [] {
      var u, rest := work[0], work[1..];
      assert work == [u] + rest;
      CascadeStep(t, now, broken, u, rest, dr);
      var (t1, dr1) := CascadeOne(t, now, broken, u, dr);
      CascadeSparesKernel(t1, now, broken, rest, dr1);
    }
  }

  /** A neighbour is heard, and then a newer route to it that is two hops long. */
  function SlippingRun(): (ops: seq<Timed>) {
    [Timed(0, Insert(1, 1, 1, 5, 3000)), Timed(0, Update(1, 2, 2, 6, 3000, false))]
  }

  lemma SlippingRunGoes(t: Table) returns (t1: Table)
    requires IsEmpty(t)
    ensures t1 == Do(t, 0, SlippingRun()[0].op) && |t1.buckets| == TABLE_SIZE && Allowed(t1, SlippingRun()[1].op)
    ensures Slips(t1, SlippingRun()[1].op) && t1.entries.Keys == {1} && t1.entries[1].next == 1
    ensures RunAllowed(t, SlippingRun()) && Run(t, SlippingRun()) == Do(t1, 0, SlippingRun()[1].op)
    ensures SlipCount(t, SlippingRun()) == 1
  {
    var ops := SlippingRun();
    t1 := Do(t, 0, ops[0].op);
    var t2 := Do(t1, 0, ops[1].op);
    assert ops[1..] == [ops[1]] && [ops[1]][1..] == [] && RunAllowed(t2, []) && SlipCount(t2, []) == 0;
    assert RunAllowed(t1, ops[1..]) && SlipCount(t1, ops[1..]) == 1;
  }

  /** Two operations on the empty table suffice: the route is VALID, the kernel does not have it, and no route is
      counted as active. */
  lemma KernelLosesRoute(t: Table)
    requires IsEmpty(t)
    ensures RunAllowed(t, SlippingRun())
    ensures var t2 := Run(t, SlippingRun());
            Valids(t2) == {1} && 1 !in t2.kernel && t2.numActive == 0
  {
    var t1 := SlippingRunGoes(t);
    var op := SlippingRun()[1].op;
    UpdateInKernelIff(t1, 0, op);
    CountersStay(t1, 0, op);
    var t2 := Do(t1, 0, op);
    assert t2.entries[1].valid;
    assert Valids(t2) == {1};
    CountersOverRuns(t, SlippingRun());
  }

  // ----- the messages ------------------------------------------------------------------------------------

  /** nl_send_add_route_msg and nl_send_del_route_msg, as far as the kernel's list is concerned. */
  datatype RouteMsg = AddRoute(dest: Addr, next: Addr, lifetime: u32) | DelRoute(dest: Addr)

  /** What a message does to a copy of the routes. */
  function Apply(k: map<Addr, Addr>, m: RouteMsg): (k': map<Addr, Addr>) {
    match m case AddRoute(d, next, _) => k[d := next] case DelRoute(d) => k - {d}
  }

  function ApplyAll(k: map<Addr, Addr>, ms: seq<RouteMsg>): (k': map<Addr, Addr>)
    decreases |ms|
  {
    if ms == [] then k else ApplyAll(Apply(k, ms[0]), ms[1..])
  }

  lemma {:induction false} ApplyAppend(k: map<Addr, Addr>, a: seq<RouteMsg>, b: seq<RouteMsg>)
    ensures ApplyAll(k, a + b) == ApplyAll(ApplyAll(k, a), b)
    decreases |a|
  {
    if a == [] {
      assert a + b == b;
    } else {
      assert (a + b)[1..] == a[1..] + b;
      ApplyAppend(Apply(k, a[0]), a[1..], b);
    }
  }

  /** rt_table_invalidate sends for a VALID entry only (routing_table.c:297). */
  function InvalidateMsgs(t: Table, d: Addr): (ms: seq<RouteMsg>) {
    if d in t.entries && t.entries[d].valid then [DelRoute(d)] else []
  }

  function BreakMsgs(t: Table, broken: Addr, u: Addr): (ms: seq<RouteMsg>) {
    if u in t.entries && t.entries[u].next == broken && u != broken then InvalidateMsgs(t, u) else []
  }

  function CascadeMsgs(t: Table, now: int, broken: Addr, work: seq<Addr>, dr: Draft): (ms: seq<RouteMsg>)
    decreases work
  {
    if work == [] then []
    else
      var u := work[0];
      var (t1, dr1) := CascadeOne(t, now, broken, u, dr);
      BreakMsgs(t, broken, u) + CascadeMsgs(t1, now, broken, work[1..], dr1)
  }

  function LinkBreakMsgs(t: Table, now: int, d: Addr): (ms: seq<RouteMsg>)
    requires d in t.entries
  {
    if t.entries[d].hops != 1 then []
    else
      var t1 := InvalidateSpec(t, now, d);
      var e := t1.entries[d];
      InvalidateMsgs(t, d)
      + CascadeMsgs(ClearPrecursorsSpec(t1, d), now, d, Flatten(t.buckets), Report(NoRerr, d, e.seqno, e.precs))
  }

  function AnnounceMsgs(t: Table, d: Addr, next: Addr, lifetime: u32): (ms: seq<RouteMsg>)
    requires d in t.entries
  {
    var e := t.entries[d];
    if !e.valid || (e.next != 0 && e.next != next) then [AddRoute(d, next, lifetime)] else []
  }

  /** The messages of one table operation, in order. */
  function Messages(t: Table, now: int, op: Op): (ms: seq<RouteMsg>)
    requires Allowed(t, op)
  {
    match op
    case Insert(d, next, _, _, lifetime) => [AddRoute(d, next, lifetime)]
    case Update(d, next, hops, _, lifetime, _) =>
      AnnounceMsgs(t, d, next, lifetime)
      + if hops > 1 && t.entries[d].hops == 1 then LinkBreakMsgs(AnnounceSpec(t, d, next, true), now, d) else []
    case Invalidate(d) => InvalidateMsgs(t, d)
    case LinkBreak(d) => LinkBreakMsgs(t, now, d)
    case Delete(d) => InvalidateMsgs(t, d)
    case _ => []
  }

  lemma {:induction false} CascadeSends(t: Table, now: int, broken: Addr, work: seq<Addr>, dr: Draft)
    ensures Cascade(t, now, broken, work, dr).0.kernel == ApplyAll(t.kernel, CascadeMsgs(t, now, broken, work, dr))
    decreases work
  {
    if work != [] {
      var u, rest := work[0], work[1..];
      assert work == [u] + rest;
      CascadeStep(t, now, broken, u, rest, dr);
      var (t1, dr1) := CascadeOne(t, now, broken, u, dr);
      CascadeSends(t1, now, broken, rest, dr1);
      ApplyAppend(t.kernel, BreakMsgs(t, broken, u), CascadeMsgs(t1, now, broken, rest, dr1));
    }
  }

  lemma LinkBreakSends(t: Table, now: int, d: Addr)
    requires d in t.entries
    ensures LinkBreakSpec(t, now, d).0.kernel == ApplyAll(t.kernel, LinkBreakMsgs(t, now, d))
  {
    if t.entries[d].hops == 1 {
      var t1 := InvalidateSpec(t, now, d);
      var e := t1.entries[d];
      var dr := Report(NoRerr, d, e.seqno, e.precs);
      var t2 := ClearPrecursorsSpec(t1, d);
      CascadeSends(t2, now, d, Flatten(t.buckets), dr);
      ApplyAppend(t.kernel, InvalidateMsgs(t, d), CascadeMsgs(t2, now, d, Flatten(t.buckets), dr));
    }
  }

  lemma UpdateSends(t: Table, now: int, op: Op)
    requires |t.buckets| == TABLE_SIZE && Allowed(t, op) && op.Update?
    ensures Do(t, now, op).kernel == ApplyAll(t.kernel, Messages(t, now, op))
  {
    var t1 := AnnounceSpec(t, op.d, op.next, true);
    var first := AnnounceMsgs(t, op.d, op.next, op.lifetime);
    assert t1.kernel == ApplyAll(t.kernel, first);
    if op.hops > 1 && t.entries[op.d].hops == 1 {
      LinkBreakSends(t1, now, op.d);
      ApplyAppend(t.kernel, first, LinkBreakMsgs(t1, now, op.d));
    }
  }

  /** The kernel's copy moves by exactly the messages that are sent. */
  lemma DoSends(t: Table, now: int, op: Op)
    requires |t.buckets| == TABLE_SIZE && Allowed(t, op)
    ensures Do(t, now, op).kernel == ApplyAll(t.kernel, Messages(t, now, op))
  {
    match op
    case Update(_, _, _, _, _, _) => UpdateSends(t, now, op);
    case LinkBreak(d) => LinkBreakSends(t, now, d);
    case _ =>
  }

  function RunMessages(t: Table, ops: seq<Timed>): (ms: seq<RouteMsg>)
    requires RunAllowed(t, ops)
    decreases ops
  {
    if ops == [] then []
    else Messages(t, ops[0].now, ops[0].op) + RunMessages(Do(t, ops[0].now, ops[0].op), ops[1..])
  }

  lemma {:induction false} RunSends(t: Table, ops: seq<Timed>)
    requires RunAllowed(t, ops)
    ensures Run(t, ops).kernel == ApplyAll(t.kernel, RunMessages(t, ops))
    decreases ops
  {
    if ops != [] {
      var t1 := Do(t, ops[0].now, ops[0].op);
      DoSends(t, ops[0].now, ops[0].op);
      RunSends(t1, ops[1..]);
      ApplyAppend(t.kernel, Messages(t, ops[0].now, ops[0].op), RunMessages(t1, ops[1..]));
    }
  }
}
