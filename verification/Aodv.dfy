/**
 One AODV node in place: the handlers as methods that update the routing table, the own sequence
 number and the record lists, each proved against its function in AodvSpec. What the daemon writes
 to its socket is returned.
 */
module Aodv {
  import opened Words
  import opened Params
  import opened Sequences
  import opened RouteSpec
  import opened AodvSpec
  import opened TableRuns
  import opened HandlerRuns
  import RT = RouteTable

  function Members<T>(s: seq<T>): (m: set<T>) {
    set x | x in s
  }

  class Node {
    const self: Addr
    const table: RT.RouteTable
    var hostSeq: u32
    var rreqId: u32
    var records: seq<(Addr, u32)>
    var blacklist: seq<Addr>

    /** The objects make up a node. */
    ghost predicate Framed()
      reads this, table, table.idx, table.idx.tbl, table.idx.objs
    {
      table.Valid()
    }

    /** ... and the table is an index. Every event keeps it so. */
    ghost predicate Valid()
      reads this, table, table.idx, table.idx.tbl, table.idx.objs
    {
      Framed() && Indexed(table.view)
    }

    ghost function State(): (n: NodeState)
      reads this, table
    {
      NodeState(self, hostSeq, rreqId, table.view, Members(records), Members(blacklist))
    }

    constructor (self: Addr, hostSeq: u32)
      ensures Valid() && IsEmpty(table.view)
      ensures State() == NodeState(self, hostSeq, 0, table.view, {}, {})
    {
      this.self := self;
      this.hostSeq := hostSeq;
      table := new RT.RouteTable();
      rreqId := 0;
      records := [];
      blacklist := [];
    }

    /** neighbor_add. */
    method HearNeighbor(now: int, src: Addr)
      requires Framed()
      modifies table, table.idx, table.idx.tbl, table.idx.objs
      ensures Framed() && (forall o :: o in table.idx.objs ==> o in old(table.idx.objs) || fresh(o))
      ensures State() == AodvSpec.HearNeighbor(old(State()), now, src)
    {
      var rt := table.Check(src);
      if rt == null {
        HearNew(now, src);
      } else {
        HearKnown(now, src, rt);
      }
    }

    method HearKnown(now: int, src: Addr, rt: RT.Route)
      requires Framed() && table.Has(rt) && rt.dest == src
      modifies table, table.idx.objs
      ensures Framed() && State() == AodvSpec.HearNeighbor(old(State()), now, src)
    {
      assert table.Shows(src);
      if !rt.unidir {
        var _ := table.Update(rt, src, 1, rt.seqno, now, ACTIVE_ROUTE_TIMEOUT, true, false);
      }
    }

    method HearNew(now: int, src: Addr)
      requires Framed() && src !in table.view.entries
      modifies table, table.idx, table.idx.tbl
      ensures Framed() && (forall o :: o in table.idx.objs ==> o in old(table.idx.objs) || fresh(o))
      ensures table.view == InsertSpec(old(table.view), now, src, src, 1, 0, ACTIVE_ROUTE_TIMEOUT, true, false)
    {
      var _ := table.Insert(src, src, 1, 0, now, ACTIVE_ROUTE_TIMEOUT, true, false);
    }

    // ----- rrep_send -----------------------------------------------------------------------------

    /** rrep_send up to line 89. */
    method BreakUnidir(now: int, rev: RT.Route) returns (dr: Draft)
      requires Framed() && table.Has(rev)
      modifies table, table.idx.objs
      ensures Framed() && rev.dest in old(table.view).entries
      ensures (table.view, dr) == AodvSpec.BreakUnidir(old(table.view), now, rev.dest)
    {
      dr := NoRerr;
      assert table.Shows(rev.dest);
      if rev.valid && rev.unidir {
        var neighbor := table.Check(rev.next);
        if neighbor != null && neighbor.valid && !neighbor.ackUsed {
          dr := BreakNeighbor(now, neighbor);
        }
      }
    }

    method BreakNeighbor(now: int, neighbor: RT.Route) returns (dr: Draft)
      requires Framed() && table.Has(neighbor)
      modifies table, table.idx.objs
      ensures Framed() && neighbor.dest in old(table.view).entries
      ensures var t, d := old(table.view), neighbor.dest;
              var (t1, dr1) := LinkBreakSpec(Put(t, d, t.entries[d].(unidir := true)), now, d);
              table.view == Put(t1, d, t1.entries[d].(ackUsed := true)) && dr == dr1
    {
      assert table.Shows(neighbor.dest);
      table.SetUnidir(neighbor);
      dr := table.LinkBreak(neighbor, now);
      table.SetAck(neighbor, true);
    }

    method LinkPrecursors(rev: RT.Route, fwd: RT.Route)
      requires Framed() && table.Has(rev) && table.Has(fwd)
      modifies table, table.idx.objs
      ensures Framed() && rev.dest in old(table.view).entries && fwd.dest in old(table.view).entries
      ensures table.view == AodvSpec.LinkPrecursors(old(table.view), rev.dest, fwd.dest)
    {
      assert table.Shows(rev.dest) && table.Shows(fwd.dest);
      table.AddPrecursor(fwd, rev.next);
      assert table.Shows(fwd.dest);
      table.AddPrecursor(rev, fwd.next);
    }

    /** rrep_send. The message buffer is shared: a RERR built by the link break replaces the RREP. */
    method RrepSend(now: int, rrep: Rrep, rev: RT.Route, fwd: RT.Route?) returns (out: seq<Packet>)
      requires Framed() && table.Has(rev) && (fwd != null ==> table.Has(fwd))
      modifies table, table.idx.objs
      ensures Framed() && rev.dest in old(table.view).entries && (fwd != null ==> fwd.dest in old(table.view).entries)
      ensures (State(), out) ==
              AodvSpec.RrepSend(old(State()), now, rrep, rev.dest, if fwd != null then fwd.dest else 0, fwd != null)
    {
      var dr := BreakUnidir(now, rev);
      assert table.Shows(rev.dest);
      var buffer := RrepMsg(rrep);
      out := [];
      match dr {
        case NoRerr =>
        case Draft(dests, u) =>
          buffer := RerrMsg(Rerr(false, dests));
          out := [RerrPacket(self, false, dests, u)];
      }
      out := out + [Packet(self, rev.next, MAXTTL, RREP_SIZE, buffer)];
      if fwd != null {
        assert table.Shows(fwd.dest);
        LinkPrecursors(rev, fwd);
      }
    }

    // ----- rreq_process --------------------------------------------------------------------------

    method RecordCheck(orig: Addr, id: u32) returns (found: bool)
      ensures found <==> (orig, id) in records
    {
      for i := 0 to |records|
        invariant (orig, id) !in records[..i]
      {
        if records[i] == (orig, id) {
          return true;
        }
      }
      return false;
    }

    method RecordInsert(orig: Addr, id: u32)
      modifies this`records
      ensures Members(records) == Members(old(records)) + {(orig, id)}
    {
      records := [(orig, id)] + records;
      assert Members(records) == Members(old(records)) + {(orig, id)};
    }

    method BlacklistCheck(a: Addr) returns (found: bool)
      ensures found <==> a in blacklist
    {
      for i := 0 to |blacklist|
        invariant a !in blacklist[..i]
      {
        if blacklist[i] == a {
          return true;
        }
      }
      return false;
    }

    /** rreq_process, lines 129 to 154. */
    method ReverseRoute(now: int, m: Rreq, src: Addr) returns (rev: RT.Route, dr: Draft)
      requires Framed()
      modifies this`records, table, table.idx, table.idx.tbl, table.idx.objs
      ensures Framed() && (forall o :: o in table.idx.objs ==> o in old(table.idx.objs) || fresh(o))
      ensures table.Has(rev) && rev.dest == m.orig
      ensures (State(), dr) == AodvSpec.ReverseRoute(old(State()), now, m, src)
    {
      RecordInsert(m.orig, m.id);
      ghost var n := State();
      assert n == old(State()).(records := old(State()).records + {(m.orig, m.id)});
      rev, dr := ReverseTable(now, m, src);
      assert State() == n.(table := table.view);
    }

    method ReverseTable(now: int, m: Rreq, src: Addr) returns (rev: RT.Route, dr: Draft)
      requires Framed()
      modifies table, table.idx, table.idx.tbl, table.idx.objs
      ensures Framed() && (forall o :: o in table.idx.objs ==> o in old(table.idx.objs) || fresh(o))
      ensures table.Has(rev) && rev.dest == m.orig
      ensures (table.view, dr) == AodvSpec.ReverseTable(old(table.view), now, m, src)
    {
      var rt := table.Check(m.orig);
      rev, dr := InsertOrUpdate(now, m, src, rt);
    }

    method InsertOrUpdate(now: int, m: Rreq, src: Addr, rt: RT.Route?) returns (rev: RT.Route, dr: Draft)
      requires Framed() && (rt == null <==> m.orig !in table.view.entries)
      requires rt != null ==> table.Has(rt) && rt.dest == m.orig
      modifies table, table.idx, table.idx.tbl, table.idx.objs
      ensures Framed() && (forall o :: o in table.idx.objs ==> o in old(table.idx.objs) || fresh(o))
      ensures table.Has(rev) && rev.dest == m.orig
      ensures (table.view, dr) == AodvSpec.ReverseTable(old(table.view), now, m, src)
    {
      if rt == null {
        rev := InsertReverse(now, m, src);
        dr := NoRerr;
      } else {
        dr := UpdateReverse(now, m, src, rt);
        rev := rt;
      }
    }

    method UpdateReverse(now: int, m: Rreq, src: Addr, rt: RT.Route) returns (dr: Draft)
      requires Framed() && table.Has(rt) && rt.dest == m.orig
      modifies table, table.idx.objs
      ensures Framed() && m.orig in old(table.view).entries && table.Has(rt)
      ensures (table.view, dr) == AodvSpec.ReverseTable(old(table.view), now, m, src)
    {
      assert table.Shows(rt.dest);
      var hops := m.hopcnt + 1;
      dr := NoRerr;
      if rt.seqno == 0 || AsSigned(m.origSeqno) > AsSigned(rt.seqno)
         || (m.origSeqno == rt.seqno && (!rt.valid || hops < rt.hops)) {
        dr := table.Update(rt, src, hops, m.origSeqno, now, ReverseLifetime(hops), true, rt.unidir);
      }
    }

    method InsertReverse(now: int, m: Rreq, src: Addr) returns (rev: RT.Route)
      requires Framed() && m.orig !in table.view.entries
      modifies table, table.idx, table.idx.tbl
      ensures Framed() && (forall o :: o in table.idx.objs ==> o in old(table.idx.objs) || fresh(o))
      ensures table.Has(rev) && rev.dest == m.orig
      ensures (table.view, NoRerr) == AodvSpec.ReverseTable(old(table.view), now, m, src)
    {
      var hops := m.hopcnt + 1;
      var r := table.Insert(m.orig, src, hops, m.origSeqno, now, ReverseLifetime(hops), true, false);
      rev := r;
    }

    /** rreq_process from line 159. */
    method AnswerOrForward(now: int, m: Rreq, len: int, ttl: int, rev: RT.Route) returns (out: seq<Packet>)
      requires Framed() && table.Has(rev) && rev.dest == m.orig
      modifies this`hostSeq, table, table.idx.objs
      ensures Framed() && m.orig in old(table.view).entries
      ensures (State(), out) == AodvSpec.AnswerOrForward(old(State()), now, m, len, ttl)
    {
      assert table.Shows(rev.dest);
      if m.dest == self {
        out := AnswerAsDestination(now, m, rev);
        return;
      }
      var fwd := table.Check(m.dest);
      if fwd != null && fwd.valid && !m.destOnly
         && fwd.seqno != 0 && AsSigned(fwd.seqno) >= AsSigned(m.destSeqno) {
        out := AnswerFromTable(now, m, rev, fwd);
        return;
      }
      out := [];
      if ttl > 1 {
        var wanted := m.destSeqno;
        if fwd != null && AsSigned(fwd.seqno) > AsSigned(m.destSeqno) {
          wanted := fwd.seqno;
        }
        out := [Packet(self, BROADCAST, ttl - 1, len, RreqMsg(m.(hopcnt := m.hopcnt + 1, destSeqno := wanted)))];
      }
    }

    method AnswerAsDestination(now: int, m: Rreq, rev: RT.Route) returns (out: seq<Packet>)
      requires Framed() && table.Has(rev) && rev.dest == m.orig && m.dest == self
      modifies this`hostSeq, table, table.idx.objs
      ensures Framed() && m.orig in old(table.view).entries
      ensures var n := old(State()).(hostSeq := AnswerSeqno(old(hostSeq), m.destSeqno));
              (State(), out) ==
              AodvSpec.RrepSend(n, now, Rrep(0, self, n.hostSeq, m.orig, MY_ROUTE_TIMEOUT, false), m.orig, 0, false)
    {
      if m.destSeqno != 0 {
        if AsSigned(hostSeq) < AsSigned(m.destSeqno) {
          hostSeq := m.destSeqno;
        } else if hostSeq == m.destSeqno {
          hostSeq := SeqnoIncr(hostSeq);
        }
      }
      out := RrepSend(now, Rrep(0, self, hostSeq, rev.dest, MY_ROUTE_TIMEOUT, false), rev, null);
    }

    method AnswerFromTable(now: int, m: Rreq, rev: RT.Route, fwd: RT.Route) returns (out: seq<Packet>)
      requires Framed() && table.Has(rev) && rev.dest == m.orig && table.Has(fwd) && fwd.dest == m.dest
      modifies table, table.idx.objs
      ensures Framed() && m.orig in old(table.view).entries && m.dest in old(table.view).entries
      ensures (State(), out) == FromTable(old(State()), now, m)
    {
      assert table.Shows(fwd.dest);
      var lifetime := Wrap(DiffMs(fwd.deadline - now));
      var first := TellOriginator(now, m, rev, fwd, lifetime);
      out := ThenGratuitous(now, m, rev, fwd, lifetime, first);
    }

    method ThenGratuitous(now: int, m: Rreq, rev: RT.Route, fwd: RT.Route, life: u32, first: seq<Packet>)
      returns (out: seq<Packet>)
      requires Framed() && table.Has(rev) && rev.dest == m.orig && table.Has(fwd) && fwd.dest == m.dest
      modifies table, table.idx.objs
      ensures Framed() && m.orig in old(table.view).entries && m.dest in old(table.view).entries
      ensures (State(), out) == AodvSpec.ThenGratuitous(old(State()), now, m, life, first)
    {
      assert table.Shows(fwd.dest) && table.Shows(rev.dest);
      out := first;
      if m.gratuitous {
        var more := TellDestination(now, m, rev, fwd, life);
        out := first + more;
      }
    }

    method TellOriginator(now: int, m: Rreq, rev: RT.Route, fwd: RT.Route, life: u32) returns (out: seq<Packet>)
      requires Framed() && table.Has(rev) && rev.dest == m.orig && table.Has(fwd) && fwd.dest == m.dest
      modifies table, table.idx.objs
      ensures Framed() && m.orig in old(table.view).entries && m.dest in old(table.view).entries
      ensures (State(), out) == AodvSpec.TellOriginator(old(State()), now, m, life)
    {
      assert table.Shows(fwd.dest) && table.Shows(rev.dest);
      out := RrepSend(now, Rrep(fwd.hops, fwd.dest, fwd.seqno, rev.dest, life, false), rev, fwd);
    }

    method TellDestination(now: int, m: Rreq, rev: RT.Route, fwd: RT.Route, life: u32) returns (out: seq<Packet>)
      requires Framed() && table.Has(rev) && rev.dest == m.orig && table.Has(fwd) && fwd.dest == m.dest
      modifies table, table.idx.objs
      ensures Framed() && m.orig in old(table.view).entries && m.dest in old(table.view).entries
      ensures (State(), out) == AodvSpec.TellDestination(old(State()), now, m, life)
    {
      assert table.Shows(rev.dest) && table.Shows(fwd.dest);
      out := RrepSend(now, Rrep(rev.hops, rev.dest, rev.seqno, fwd.dest, life, false), fwd, rev);
    }

    method RreqProcess(now: int, m: Rreq, len: int, src: Addr, ttl: int) returns (out: seq<Packet>)
      requires Framed()
      modifies this`records, this`hostSeq, table, table.idx, table.idx.tbl, table.idx.objs
      ensures Framed()
      ensures (State(), out) == AodvSpec.RreqProcess(old(State()), now, m, len, src, ttl)
    {
      out := [];
      if m.orig == self || len < RREQ_SIZE {
        return;
      }
      var listed := BlacklistCheck(src);
      if listed {
        return;
      }
      var known := RecordCheck(m.orig, m.id);
      if known {
        return;
      }
      var rev, dr := ReverseRoute(now, m, src);
      out := AnswerOrForward(now, m, len, ttl, rev);
      out := LinkBreakPackets(self, dr) + out;
    }

    // ----- rrep_process --------------------------------------------------------------------------

    method AskForAck(rev: RT.Route) returns (asked: bool)
      requires Framed() && table.Has(rev)
      modifies table, table.idx.objs
      ensures Framed() && rev.dest in old(table.view).entries
      ensures (table.view, asked) == AodvSpec.AskForAck(old(table.view), old(table.view).entries[rev.dest].next)
    {
      assert table.Shows(rev.dest);
      var neighbor: RT.Route? := rev;
      if rev.dest != rev.next {
        neighbor := table.Check(rev.next);
      }
      asked := neighbor != null && !neighbor.ackUsed;
      if asked {
        table.AwaitAck(neighbor);
      }
    }

    method RrepForward(now: int, m: Rrep, len: int, rev: RT.Route, fwd: RT.Route, ttl: int) returns (out: seq<Packet>)
      requires Framed() && table.Has(rev) && table.Has(fwd)
      modifies table, table.idx.objs
      ensures Framed() && rev.dest in old(table.view).entries && fwd.dest in old(table.view).entries
      ensures (State(), out) == AodvSpec.RrepForward(old(State()), now, m, len, rev.dest, fwd.dest, ttl)
    {
      ghost var n := State();
      assert table.Shows(rev.dest);
      var next := rev.next;
      var asked, hops := AskAndLink(now, rev, fwd);
      assert State() == n.(table := table.view);
      out := [Packet(self, next, ttl, len, RrepMsg(m.(hopcnt := hops, ack := m.ack || asked)))];
    }

    /** What forwarding does to the table, and what the RREP says about it. */
    method AskAndLink(now: int, rev: RT.Route, fwd: RT.Route) returns (asked: bool, hops: nat)
      requires Framed() && table.Has(rev) && table.Has(fwd)
      modifies table, table.idx.objs
      ensures Framed() && rev.dest in old(table.view).entries && fwd.dest in old(table.view).entries
      ensures var (t, a) := AodvSpec.AskForAck(old(table.view), old(table.view).entries[rev.dest].next);
              && asked == a && hops == t.entries[fwd.dest].hops
              && table.view == UpdateTimeoutSpec(AodvSpec.LinkPrecursors(t, rev.dest, fwd.dest), now, rev.dest,
                                                 ACTIVE_ROUTE_TIMEOUT)
    {
      asked := AskForAck(rev);
      assert table.Shows(fwd.dest);
      hops := fwd.hops;
      LinkAndHold(now, rev, fwd);
    }

    method LinkAndHold(now: int, rev: RT.Route, fwd: RT.Route)
      requires Framed() && table.Has(rev) && table.Has(fwd)
      modifies table, table.idx.objs
      ensures Framed() && rev.dest in old(table.view).entries && fwd.dest in old(table.view).entries
      ensures table.view == UpdateTimeoutSpec(AodvSpec.LinkPrecursors(old(table.view), rev.dest, fwd.dest),
                                              now, rev.dest, ACTIVE_ROUTE_TIMEOUT)
    {
      LinkPrecursors(rev, fwd);
      table.UpdateTimeout(rev, now, ACTIVE_ROUTE_TIMEOUT);
    }

    /** The forward route is known: it is updated, or the RREP is dropped. */
    method UpdateForward(now: int, m: Rrep, src: Addr, rt: RT.Route) returns (dr: Draft, accepted: bool)
      requires Framed() && table.Has(rt) && rt.dest == m.dest
      modifies table, table.idx.objs
      ensures Framed() && (table.view, dr, accepted) == ForwardTable(old(table.view), now, m, src)
    {
      assert table.Shows(rt.dest);
      var hops := m.hopcnt + 1;
      accepted := rt.seqno == 0 || AsSigned(m.destSeqno) > AsSigned(rt.seqno)
                  || (m.destSeqno == rt.seqno && (!rt.valid || rt.unidir || hops < rt.hops));
      dr := NoRerr;
      if accepted {
        dr := table.Update(rt, src, hops, m.destSeqno, now, m.lifetime, true, rt.unidir);
      }
    }

    method InsertForward(now: int, m: Rrep, src: Addr) returns (fwd: RT.Route)
      requires Framed() && m.dest !in table.view.entries
      modifies table, table.idx, table.idx.tbl
      ensures Framed() && (forall o :: o in table.idx.objs ==> o in old(table.idx.objs) || fresh(o))
      ensures table.Has(fwd) && fwd.dest == m.dest && table.idx.routes == old(table.idx.routes)[m.dest := fwd]
      ensures (table.view, NoRerr, true) == ForwardTable(old(table.view), now, m, src)
    {
      var r := table.Insert(m.dest, src, m.hopcnt + 1, m.destSeqno, now, m.lifetime, true, false);
      fwd := r;
    }

    /** rrep_process from line 196. */
    method RrepRest(now: int, m: Rrep, len: int, ttl: int, rev: RT.Route?, fwd: RT.Route, dr: Draft)
      returns (out: seq<Packet>)
      requires Framed() && table.Has(fwd) && fwd.dest == m.dest
              && (rev != null ==> table.Has(rev) && rev.dest == m.orig)
      modifies table, table.idx.objs
      ensures Framed() && m.dest in old(table.view).entries && (rev != null ==> m.orig in old(table.view).entries)
      ensures (State(), out) == AodvSpec.RrepRest(old(State()), now, m, len, ttl, rev != null, dr)
    {
      assert table.Shows(m.dest);
      out := LinkBreakPackets(self, dr) + Acks(self, m.ack, fwd.next);
      if m.orig != self && rev != null {
        assert table.Shows(m.orig);
        if rev.valid {
          var more := RrepForward(now, m.(ack := false), len, rev, fwd, ttl - 1);
          out := out + more;
        }
      }
    }

    method RrepProcess(now: int, m: Rrep, len: int, src: Addr, ttl: int) returns (out: seq<Packet>)
      requires Framed()
      modifies table, table.idx, table.idx.tbl, table.idx.objs
      ensures Framed() && (State(), out) == AodvSpec.RrepProcess(old(State()), now, m, len, src, ttl)
    {
      out := [];
      if len < RREP_SIZE || m.dest == self {
        return;
      }
      ghost var n := State();
      var fwd := table.Check(m.dest);
      var rev := table.Check(m.orig);
      if fwd == null {
        out := RrepNew(now, m, len, src, ttl, rev);
      } else {
        var dr, accepted := UpdateForward(now, m, src, fwd);
        assert State() == n.(table := table.view);
        if accepted {
          out := RrepRest(now, m, len, ttl, rev, fwd, dr);
        }
      }
    }

    method RrepNew(now: int, m: Rrep, len: int, src: Addr, ttl: int, rev: RT.Route?) returns (out: seq<Packet>)
      requires Framed() && m.dest !in table.view.entries && m.dest != self && len >= RREP_SIZE
      requires rev == null <==> m.orig !in table.view.entries
      requires rev != null ==> table.Has(rev) && rev.dest == m.orig
      modifies table, table.idx, table.idx.tbl, table.idx.objs
      ensures Framed() && (State(), out) == AodvSpec.RrepProcess(old(State()), now, m, len, src, ttl)
    {
      ghost var n := State();
      var created := InsertForward(now, m, src);
      assert State() == n.(table := table.view);
      out := RrepRest(now, m, len, ttl, rev, created, NoRerr);
    }

    // ----- rerr_process --------------------------------------------------------------------------

    /** One listed destination. */
    method RerrOne(now: int, noDelete: bool, src: Addr, d: Addr, s: u32, dr: Draft) returns (dr': Draft)
      requires Framed()
      modifies table, table.idx.objs
      ensures Framed() && table.idx.objs == old(table.idx.objs)
      ensures (table.view, dr') == RerrStep(old(table.view), now, noDelete, src, d, s, dr)
    {
      dr' := dr;
      var rt := FindHit(src, d, s);
      if rt != null {
        dr' := TakeDown(now, noDelete, rt, s, dr);
      }
    }

    /** The entry that a listed destination takes down, if there is one. */
    method FindHit(src: Addr, d: Addr, s: u32) returns (rt: RT.Route?)
      requires Framed()
      ensures if RerrHits(table.view, src, d, s) then rt != null && table.Has(rt) && rt.dest == d else rt == null
    {
      rt := table.Check(d);
      if rt != null {
        assert table.Shows(d);
        if !(rt.valid && rt.next == src && !(AsSigned(rt.seqno) > AsSigned(s))) {
          rt := null;
        }
      }
    }

    method TakeDown(now: int, noDelete: bool, rt: RT.Route, s: u32, dr: Draft) returns (dr': Draft)
      requires Framed() && table.Has(rt)
      modifies table, table.idx.objs
      ensures Framed() && rt.dest in old(table.view).entries
      ensures (table.view, dr') == TakeDownStep(old(table.view), now, noDelete, rt.dest, s, dr)
    {
      SetDown(now, noDelete, rt, s);
      ghost var t2 := table.view;
      assert table.Shows(rt.dest);
      dr' := rt.AddToRerr(dr);
      ForgetUsers(rt);
      assert table.view == if t2.entries[rt.dest].valid then t2 else ClearPrecursorsSpec(t2, rt.dest);
    }

    method SetDown(now: int, noDelete: bool, rt: RT.Route, s: u32)
      requires Framed() && table.Has(rt)
      modifies table, table.idx.objs
      ensures Framed() && table.Has(rt) && rt.dest in old(table.view).entries
      ensures var t1 := if noDelete then old(table.view) else InvalidateSpec(old(table.view), now, rt.dest);
              table.view == Put(t1, rt.dest, t1.entries[rt.dest].(seqno := s))
    {
      assert table.Shows(rt.dest);
      if !noDelete {
        var _ := table.Invalidate(rt, now);
      }
      table.SetSeqno(rt, s);
    }

    method ForgetUsers(rt: RT.Route)
      requires Framed() && table.Has(rt)
      modifies table, table.idx.objs
      ensures Framed() && rt.dest in old(table.view).entries
      ensures var t := old(table.view);
              table.view == if t.entries[rt.dest].valid then t else ClearPrecursorsSpec(t, rt.dest)
    {
      assert table.Shows(rt.dest);
      if !rt.valid {
        table.DestroyPrecursors(rt);
      }
    }

    method RerrProcess(now: int, m: Rerr, len: int, src: Addr) returns (out: seq<Packet>)
      requires Framed()
      modifies table, table.idx.objs
      ensures Framed() && (State(), out) == AodvSpec.RerrProcess(old(State()), now, m, len, src)
    {
      out := [];
      if len < RerrSize(|m.dests|) {
        return;
      }
      ghost var n := State();
      var dr := RerrLoop(now, m, src);
      assert State() == n.(table := table.view);
      match dr {
        case NoRerr =>
        case Draft(dests, u) =>
          if u != 0 {
            var rt := table.Check(u);
            if rt == null {
              return;
            }
          }
          out := [RerrPacket(self, m.noDelete, dests, u)];
      }
    }

    method RerrLoop(now: int, m: Rerr, src: Addr) returns (dr: Draft)
      requires Framed()
      modifies table, table.idx.objs
      ensures Framed() && (table.view, dr) == RerrWalk(old(table.view), now, m.noDelete, src, m.dests, NoRerr)
    {
      dr := NoRerr;
      assert m.dests[0..] == m.dests;
      for i := 0 to |m.dests|
        invariant Framed() && table.idx.objs == old(table.idx.objs)
        invariant RerrWalk(table.view, now, m.noDelete, src, m.dests[i..], dr)
                  == RerrWalk(old(table.view), now, m.noDelete, src, m.dests, NoRerr)
      {
        RerrWalkAt(table.view, now, m.noDelete, src, m.dests, i, dr);
        dr := RerrOne(now, m.noDelete, src, m.dests[i].0, m.dests[i].1, dr);
      }
    }

    // ----- the rest --------------------------------------------------------------------------------

    /** rrep_ack_process. */
    method AckProcess(src: Addr)
      requires Framed()
      modifies table, table.idx.objs
      ensures Framed() && State() == AodvSpec.AckProcess(old(State()), src)
    {
      var rt := table.Check(src);
      if rt != null {
        table.SetAck(rt, false);
      }
    }

    /** aodv_socket_package_process. */
    method Receive(now: int, p: Packet) returns (out: seq<Packet>)
      requires Valid()
      modifies this`records, this`hostSeq, table, table.idx, table.idx.tbl, table.idx.objs
      ensures Valid() && (State(), out) == AodvSpec.Receive(old(State()), now, p)
    {
      ReceiveKeepsIndex(State(), now, p);
      HearNeighbor(now, p.src);
      out := Dispatch(now, p);
    }

    /** The switch of aodv_socket_package_process. */
    method Dispatch(now: int, p: Packet) returns (out: seq<Packet>)
      requires Framed()
      modifies this`records, this`hostSeq, table, table.idx, table.idx.tbl, table.idx.objs
      ensures Framed() && (State(), out) == AodvSpec.Dispatched(old(State()), now, p)
    {
      match p.msg {
        case RreqMsg(m) => out := RreqProcess(now, m, p.len, p.src, p.ttl);
        case RrepMsg(m) => out := RrepProcess(now, m, p.len, p.src, p.ttl);
        case RerrMsg(m) => out := RerrProcess(now, m, p.len, p.src);
        case RrepAckMsg =>
          AckProcess(p.src);
          out := [];
      }
    }

    /** rreq_create and rreq_send. */
    method RreqSend(dest: Addr, destSeqno: u32, ttl: int) returns (out: seq<Packet>)
      requires Framed()
      modifies this`rreqId, this`hostSeq
      ensures Framed() && (State(), out) == AodvSpec.RreqSend(old(State()), dest, destSeqno, ttl)
    {
      var id := rreqId;
      rreqId := Wrap(rreqId + 1);
      hostSeq := SeqnoIncr(hostSeq);
      out := [Packet(self, BROADCAST, ttl, RREQ_SIZE,
                     RreqMsg(Rreq(0, id, dest, destSeqno, self, hostSeq, false, false)))];
    }

    method HoldRoute(now: int, rt: RT.Route)
      requires Framed() && table.Has(rt)
      modifies table, table.idx.objs
      ensures Framed() && table.view == HoldIfKnown(old(table.view), now, rt.dest)
    {
      assert table.Shows(rt.dest);
      if DiffMs(rt.deadline - now) < 2 * NET_TRAVERSAL_TIME {
        table.UpdateTimeout(rt, now, 2 * NET_TRAVERSAL_TIME);
      }
    }

    /** Sends a RREQ and remembers the discovery. */
    method Ask(d: Addr, seqno: u32, ttl: int, s: Seek) returns (out: seq<Packet>)
      requires Framed()
      modifies this`rreqId, this`hostSeq, table
      ensures Framed() && (State(), out) == AodvSpec.Ask(old(State()), d, seqno, ttl, s)
    {
      ghost var n := State();
      out := RreqSend(d, seqno, ttl);
      table.SetSeek(d, s);
      assert State() == AodvSpec.RreqSend(n, d, seqno, ttl).0.(table := table.view);
    }

    /** What a discovery starts from: the sequence number and the distance last known. */
    method Recall(now: int, d: Addr) returns (seqno: u32, ttl: int)
      requires Framed()
      modifies table, table.idx.objs
      ensures Framed() && table.view == HoldIfKnown(old(table.view), now, d)
      ensures var known := d in old(table.view).entries;
              && seqno == (if known then old(table.view).entries[d].seqno else 0)
              && ttl == if known then old(table.view).entries[d].hops + TTL_INCREMENT else TTL_START
    {
      seqno, ttl := 0, TTL_START;
      var rt := table.Check(d);
      if rt != null {
        seqno := rt.seqno;
        ttl := rt.hops + TTL_INCREMENT;
        HoldRoute(now, rt);
      }
    }

    /** rreq_route_discovery, with expanding ring search on. */
    method Discover(now: int, d: Addr) returns (out: seq<Packet>)
      requires Valid()
      modifies this`rreqId, this`hostSeq, table, table.idx.objs
      ensures Valid() && (State(), out) == AodvSpec.Discover(old(State()), now, d)
    {
      DiscoverKeepsIndex(State(), now, d);
      out := Start(now, d);
    }

    method Start(now: int, d: Addr) returns (out: seq<Packet>)
      requires Framed()
      modifies this`rreqId, this`hostSeq, table, table.idx.objs
      ensures Framed() && (State(), out) == AodvSpec.Discover(old(State()), now, d)
    {
      out := [];
      if d in table.seeks {
        return;
      }
      ghost var n := State();
      var seqno, ttl := Recall(now, d);
      assert State() == n.(table := HoldIfKnown(n.table, now, d));
      assert AodvSpec.Discover(n, now, d) == AodvSpec.Ask(State(), d, seqno, ttl, Seek(seqno, ttl, 1));
      out := Ask(d, seqno, ttl, Seek(seqno, ttl, 1));
    }

    /** route_discovery_timeout. */
    method DiscoveryTimeout(now: int, d: Addr) returns (out: seq<Packet>)
      requires Valid() && d in table.view.seeks
      modifies this`rreqId, this`hostSeq, table, table.idx.objs
      ensures Valid() && (State(), out) == AodvSpec.DiscoveryTimeout(old(State()), now, d)
    {
      DiscoveryTimeoutKeepsIndex(State(), now, d);
      out := WidenOrEnd(now, d);
    }

    method WidenOrEnd(now: int, d: Addr) returns (out: seq<Packet>)
      requires Framed() && d in table.view.seeks
      modifies this`rreqId, this`hostSeq, table, table.idx.objs
      ensures Framed() && (State(), out) == AodvSpec.DiscoveryTimeout(old(State()), now, d)
    {
      out := [];
      var s := table.seeks[d];
      if s.count < RREQ_RETRIES {
        out := AskAgain(now, d, s);
      } else {
        table.RemoveSeek(d);
      }
    }

    method KeepRoute(now: int, d: Addr)
      requires Framed()
      modifies table, table.idx.objs
      ensures Framed() && table.view == HoldIfKnown(old(table.view), now, d)
    {
      var rt := table.Check(d);
      if rt != null {
        HoldRoute(now, rt);
      }
    }

    method AskAgain(now: int, d: Addr, s: Seek) returns (out: seq<Packet>)
      requires Framed() && d in table.view.seeks && table.view.seeks[d] == s && s.count < RREQ_RETRIES
      modifies this`rreqId, this`hostSeq, table, table.idx.objs
      ensures Framed() && (State(), out) == AodvSpec.DiscoveryTimeout(old(State()), now, d)
    {
      ghost var n := State();
      var ttl := if s.ttl < TTL_THRESHOLD then s.ttl + TTL_INCREMENT else NET_DIAMETER;
      KeepRoute(now, d);
      assert State() == n.(table := HoldIfKnown(n.table, now, d));
      assert AodvSpec.DiscoveryTimeout(n, now, d)
          == AodvSpec.Ask(State(), d, s.seqno, ttl, s.(ttl := ttl, count := s.count + 1));
      out := Ask(d, s.seqno, ttl, s.(ttl := ttl, count := s.count + 1));
    }

    /** The KAODVM_SEND_RERR message. */
    method UnsolicitedRerr(now: int, src: Addr, dst: Addr) returns (out: seq<Packet>)
      requires Valid()
      modifies table, table.idx.objs
      ensures Valid() && (State(), out) == AodvSpec.UnsolicitedRerr(old(State()), now, src, dst)
    {
      UnsolicitedRerrKeepsIndex(State(), now, src, dst);
      out := ReportNoRoute(now, src, dst);
    }

    method ReportNoRoute(now: int, src: Addr, dst: Addr) returns (out: seq<Packet>)
      requires Framed()
      modifies table, table.idx.objs
      ensures Framed() && (State(), out) == AodvSpec.UnsolicitedRerr(old(State()), now, src, dst)
    {
      out := [];
      if dst == BROADCAST {
        return;
      }
      var fwd := table.Check(dst);
      var to := TowardsSource(src);
      ghost var n := State();
      var seqno := HoldLost(now, dst, fwd);
      assert State() == n.(table := table.view);
      out := [RerrPacket(self, false, [(dst, seqno)], to)];
    }

    method TowardsSource(src: Addr) returns (to: Addr)
      requires Framed()
      ensures var t := table.view;
              to == if src in t.entries && t.entries[src].valid then t.entries[src].next else 0
    {
      to := 0;
      var rev := table.Check(src);
      if rev != null && rev.valid {
        to := rev.next;
      }
    }

    method HoldLost(now: int, dst: Addr, fwd: RT.Route?) returns (seqno: u32)
      requires Framed() && (fwd == null <==> dst !in table.view.entries)
      requires fwd != null ==> table.Has(fwd) && fwd.dest == dst
      modifies table, table.idx.objs
      ensures Framed()
      ensures var t := old(table.view);
              if dst in t.entries
              then table.view == UpdateTimeoutSpec(t, now, dst, DELETE_PERIOD) && seqno == t.entries[dst].seqno
              else table.view == t && seqno == 0
    {
      seqno := 0;
      if fwd != null {
        assert table.Shows(dst);
        seqno := fwd.seqno;
        table.UpdateTimeout(fwd, now, DELETE_PERIOD);
      }
    }

    /** route_expire_timeout. */
    method Expire(now: int, rt: RT.Route) returns (dr: Draft)
      requires Framed() && table.Has(rt)
      modifies table, table.idx.objs
      ensures Framed() && rt.dest in old(table.view).entries
      ensures (table.view, dr) == ExpireSpec(old(table.view), now, rt.dest)
    {
      assert table.Shows(rt.dest);
      dr := NoRerr;
      if rt.hops == 1 {
        dr := table.LinkBreak(rt, now);
      } else {
        var _ := table.Invalidate(rt, now);
        table.DestroyPrecursors(rt);
      }
    }

    /** The rt_timer of an entry fires. */
    method RouteTimeout(now: int, rt: RT.Route) returns (out: seq<Packet>)
      requires Valid() && table.Has(rt)
      modifies table, table.idx, table.idx.tbl, table.idx.objs
      ensures Valid() && rt.dest in old(table.view).entries
      ensures (State(), out) == AodvSpec.RouteTimeout(old(State()), now, rt.dest)
    {
      assert table.Shows(rt.dest);
      RouteTimeoutKeepsIndex(State(), now, rt.dest);
      RT.IndexedFits(table.view, rt.dest);
      out := ExpireOrDelete(now, rt);
    }

    method ExpireOrDelete(now: int, rt: RT.Route) returns (out: seq<Packet>)
      requires Framed() && table.Has(rt) && RT.CountFits(table.view, rt.dest)
      requires NoDuplicates(table.view.buckets[Bucket(rt.dest)])
      modifies table, table.idx, table.idx.tbl, table.idx.objs
      ensures Framed() && rt.dest in old(table.view).entries
      ensures (State(), out) == AodvSpec.RouteTimeout(old(State()), now, rt.dest)
    {
      assert table.Shows(rt.dest);
      match rt.handler {
        case ExpireHandler =>
          var dr := Expire(now, rt);
          out := LinkBreakPackets(self, dr);
        case DeleteHandler =>
          table.Delete(rt);
          out := [];
      }
    }

    method BlacklistInsert(a: Addr)
      modifies this`blacklist
      ensures Members(blacklist) == Members(old(blacklist)) + {a}
    {
      var listed := BlacklistCheck(a);
      if !listed {
        blacklist := [a] + blacklist;
      }
      assert Members(blacklist) == Members(old(blacklist)) + {a};
    }

    /** rrep_ack_timeout. */
    method AckTimeout(rt: RT.Route)
      requires Valid() && table.Has(rt)
      modifies this`blacklist, table, table.idx.objs
      ensures Valid() && rt.dest in old(table.view).entries
      ensures State() == AodvSpec.AckTimeout(old(State()), rt.dest)
    {
      assert table.Shows(rt.dest);
      AckTimeoutKeepsIndex(State(), rt.dest);
      Blacklist(rt);
    }

    method Blacklist(rt: RT.Route)
      requires Framed() && table.Has(rt)
      modifies this`blacklist, table, table.idx.objs
      ensures Framed() && rt.dest in old(table.view).entries
      ensures State() == AodvSpec.AckTimeout(old(State()), rt.dest)
    {
      assert table.Shows(rt.dest);
      ghost var n := State();
      table.SetAck(rt, false);
      BlacklistInsert(rt.dest);
      assert State() == n.(table := table.view, blacklist := n.blacklist + {rt.dest});
    }
  }
}
