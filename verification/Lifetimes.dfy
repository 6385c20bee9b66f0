/**
 The lifetimes that handlers compute and send, and what they do to the timers of those who use them.
 */
module Lifetimes {
  import opened Words
  import opened Params
  import opened RouteSpec
  import opened AodvSpec
  import opened LifeCycle

  /** The lifetime of a reverse route, computed in unsigned arithmetic, is one a timer accepts exactly up
      to 69 hops (hop counts are bytes); at 70 it is zero and beyond it wraps. */
  lemma ReverseLifetimeInRangeIff(hops: nat)
    requires hops <= 255
    ensures Starts(ReverseLifetime(hops)) <==> hops <= 69
  {
    if hops > 70 {
      var life := PATH_DISCOVERY_TIME - 2 * hops * NODE_TRAVERSAL_TIME;
      assert Wrap(life) == 0x1_0000_0000 + life;
    }
  }

  /** What an answer from the table says about a route whose timer runs out at `deadline`. */
  function AnswerLifetime(deadline: int, now: int): (life: u32) {
    Wrap(DiffMs(deadline - now))
  }

  /** The two times are less than 2^31 milliseconds apart. */
  predicate Near(deadline: int, now: int) {
    -0x8000_0000 * 1000 < deadline - now < 0x8000_0000 * 1000
  }

  /** Every RREP that an answer from the table sends carries that lifetime. */
  lemma AnswerCarries(n: NodeState, now: int, m: Rreq, p: Packet)
    requires m.orig in n.table.entries && m.dest in n.table.entries
    requires p in FromTable(n, now, m).1 && p.msg.RrepMsg?
    ensures p.msg.rrep.lifetime == AnswerLifetime(n.table.entries[m.dest].deadline, now)
  {
    var f := n.table.entries[m.dest];
    var life := AnswerLifetime(f.deadline, now);
    var rrep := Rrep(f.hops, m.dest, f.seqno, m.orig, life, false);
    SendsOnly(n, now, rrep, m.orig, m.dest);
    if m.gratuitous {
      var n1 := RrepSend(n, now, rrep, m.orig, m.dest, true).0;
      var b := n1.table.entries[m.orig];
      SendsOnly(n1, now, Rrep(b.hops, m.orig, b.seqno, m.dest, life, false), m.dest, m.orig);
    }
  }

  lemma SendsOnly(n: NodeState, now: int, m: Rrep, rev: Addr, fwd: Addr)
    requires rev in n.table.entries && fwd in n.table.entries
    ensures forall p :: p in RrepSend(n, now, m, rev, fwd, true).1 && p.msg.RrepMsg? ==> p.msg.rrep == m
  {
  }

  /** It is one a timer accepts exactly while the route has a millisecond left; it is 0 within a millisecond of
      the deadline, and wraps exactly when the deadline is past by a millisecond or more. */
  lemma AnswerLifetimeIff(deadline: int, now: int)
    requires Near(deadline, now)
    ensures Starts(AnswerLifetime(deadline, now)) <==> deadline - now >= 1000
    ensures AnswerLifetime(deadline, now) == 0 <==> -1000 < deadline - now < 1000
    ensures AnswerLifetime(deadline, now) >= 0x8000_0000 <==> deadline - now <= -1000
  {
    var ms := DiffMs(deadline - now);
    DiffMsSign(deadline - now);
    assert -0x8000_0000 < ms < 0x8000_0000;
    assert Wrap(ms) == if ms >= 0 then ms else ms + 0x1_0000_0000;
  }

  /** So a node that takes such a RREP for a route it has, whose own timer was set for less than 2^31 ms, loses
      that timer exactly when the answering node's was overdue by a millisecond or more and the update does not
      break its own link. */
  lemma StaleAnswerStopsIff(t: Table, now: int, d: Addr, next: Addr, hops: nat, seqno: u32, unidir: bool,
                            deadline: int, sent: int)
    requires d in t.entries && t.entries[d].armed && t.entries[d].valid
    requires t.entries[d].deadline < now + 1000 * 0x8000_0000 && Near(deadline, sent)
    ensures var life := AnswerLifetime(deadline, sent);
            var e' := UpdateSpec(t, now, d, next, hops, seqno, life, true, unidir).0.entries[d];
            !e'.armed <==> deadline - sent <= -1000 && !(hops > 1 && t.entries[d].hops == 1)
  {
    var e, life: int := t.entries[d], AnswerLifetime(deadline, sent);
    AnswerLifetimeIff(deadline, sent);
    UpdateStopsIff(t, now, d, next, hops, seqno, life, unidir);
    DiffMsSign(e.deadline - (now + 1000 * life));
  }
}
