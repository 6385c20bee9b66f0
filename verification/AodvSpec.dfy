/**
 One AODV node as a value, and each message handler as a function from the old state to the new
 state and the packets handed to the socket. The heap version is class Aodv.Node.
 */
module AodvSpec {
  import opened Words
  import opened Params
  import opened RouteSpec

  const RREQ_SIZE := 24
  const RREP_SIZE := 20

  datatype Rreq = Rreq(hopcnt: nat, id: u32, dest: Addr, destSeqno: u32, orig: Addr, origSeqno: u32,
                       destOnly: bool, gratuitous: bool)
  datatype Rrep = Rrep(hopcnt: nat, dest: Addr, destSeqno: u32, orig: Addr, lifetime: u32, ack: bool)
  datatype Rerr = Rerr(noDelete: bool, dests: seq<(Addr, u32)>)
  datatype Msg = RreqMsg(rreq: Rreq) | RrepMsg(rrep: Rrep) | RerrMsg(rerr: Rerr) | RrepAckMsg

  datatype Packet = Packet(src: Addr, dst: Addr, ttl: int, len: int, msg: Msg)

  datatype NodeState = NodeState(
    self: Addr, hostSeq: u32, rreqId: u32, table: Table,
    records: set<(Addr, u32)>, blacklist: set<Addr>)

  /** RERR_CALC_SIZE for a list of n destinations. */
  function RerrSize(n: nat): (size: int) { 12 + (n - 1) * 8 }

  /** The packet sent for a finished draft; `to` is 0 for broadcast. */
  function RerrPacket(self: Addr, noDelete: bool, dests: seq<(Addr, u32)>, to: Addr): (p: Packet) {
    Packet(self, if to != 0 then to else BROADCAST, 1, RerrSize(|dests|), RerrMsg(Rerr(noDelete, dests)))
  }

  /** What neighbor_link_break sends. */
  function LinkBreakPackets(self: Addr, dr: Draft): (out: seq<Packet>) {
    match dr
    case NoRerr => []
    case Draft(dests, u) => [RerrPacket(self, false, dests, u)]
  }

  /** neighbor_add: every received message first makes its sender a one-hop neighbour. */
  function HearNeighbor(n: NodeState, now: int, src: Addr): (n': NodeState)
    requires |n.table.buckets| == TABLE_SIZE
  {
    var t := n.table;
    if src !in t.entries then
      n.(table := InsertSpec(t, now, src, src, 1, 0, ACTIVE_ROUTE_TIMEOUT, true, false))
    else if t.entries[src].unidir then n
    else n.(table := UpdateSpec(t, now, src, src, 1, t.entries[src].seqno, ACTIVE_ROUTE_TIMEOUT, true, false).0)
  }

  /** rrep_send, first half: when the route back is marked unidirectional, its link is broken. */
  function BreakUnidir(t: Table, now: int, rev: Addr): (r: (Table, Draft))
    requires rev in t.entries
    ensures r.0.entries.Keys == t.entries.Keys && r.0.buckets == t.buckets
  {
    var e := t.entries[rev];
    if e.valid && e.unidir && e.next in t.entries && t.entries[e.next].valid && !t.entries[e.next].ackUsed then
      var (t1, dr) := LinkBreakSpec(Put(t, e.next, t.entries[e.next].(unidir := true)), now, e.next);
      (Put(t1, e.next, t1.entries[e.next].(ackUsed := true)), dr)
    else (t, NoRerr)
  }

  /** The routes to both ends of a RREP's path learn each other's next hop as a precursor. */
  function LinkPrecursors(t: Table, rev: Addr, fwd: Addr): (t': Table)
    requires rev in t.entries && fwd in t.entries
  {
    var t1 := AddPrecursorSpec(t, fwd, t.entries[rev].next);
    AddPrecursorSpec(t1, rev, t1.entries[fwd].next)
  }

  /** rrep_send. A RERR built by a link break lands in the one send buffer, so it and not the RREP
      goes out, with the RREP's size. */
  function RrepSend(n: NodeState, now: int, rrep: Rrep, rev: Addr, fwd: Addr,
                    hasFwd: bool): (r: (NodeState, seq<Packet>))
    requires rev in n.table.entries && (hasFwd ==> fwd in n.table.entries)
    ensures r.0.table.entries.Keys == n.table.entries.Keys && r.0.table.buckets == n.table.buckets
  {
    var (t, dr) := BreakUnidir(n.table, now, rev);
    var msg := match dr case NoRerr => RrepMsg(rrep) case Draft(dests, _) => RerrMsg(Rerr(false, dests));
    (n.(table := if hasFwd then LinkPrecursors(t, rev, fwd) else t),
     LinkBreakPackets(n.self, dr) + [Packet(n.self, t.entries[rev].next, MAXTTL, RREP_SIZE, msg)])
  }

  /** The rule under which a RREQ replaces the stored route to its originator. */
  predicate AcceptRreq(e: Entry, seqno: u32, hops: nat) {
    e.seqno == 0 || Newer(seqno, e.seqno) || (seqno == e.seqno && (!e.valid || hops < e.hops))
  }

  /** The rule under which a RREP replaces the stored route to its destination. */
  predicate AcceptRrep(e: Entry, seqno: u32, hops: nat) {
    e.seqno == 0 || Newer(seqno, e.seqno) || (seqno == e.seqno && (!e.valid || e.unidir || hops < e.hops))
  }

  /** The lifetime of a reverse route: PATH_DISCOVERY_TIME - 2 * hops * NODE_TRAVERSAL_TIME, as a u32. */
  function ReverseLifetime(hops: nat): (life: u32) {
    Wrap(PATH_DISCOVERY_TIME - 2 * hops * NODE_TRAVERSAL_TIME)
  }

  /** rreq_process, lines 139 to 154: the reverse route. */
  function ReverseTable(t: Table, now: int, m: Rreq, src: Addr): (r: (Table, Draft))
    requires |t.buckets| == TABLE_SIZE
    ensures |r.0.buckets| == TABLE_SIZE && r.0.entries.Keys == t.entries.Keys + {m.orig}
  {
    var hops := m.hopcnt + 1;
    var life := ReverseLifetime(hops);
    if m.orig !in t.entries then
      (InsertSpec(t, now, m.orig, src, hops, m.origSeqno, life, true, false), NoRerr)
    else
      var e := t.entries[m.orig];
      if AcceptRreq(e, m.origSeqno, hops)
      then UpdateSpec(t, now, m.orig, src, hops, m.origSeqno, life, true, e.unidir)
      else (t, NoRerr)
  }

  /** ... together with the record of the RREQ (line 129). */
  function ReverseRoute(n: NodeState, now: int, m: Rreq, src: Addr): (r: (NodeState, Draft))
    requires |n.table.buckets| == TABLE_SIZE
    ensures |r.0.table.buckets| == TABLE_SIZE
    ensures r.0.table.entries.Keys == n.table.entries.Keys + {m.orig}
    ensures r.0.self == n.self && r.0.hostSeq == n.hostSeq && r.0.rreqId == n.rreqId
  {
    var (t, dr) := ReverseTable(n.table, now, m, src);
    (n.(records := n.records + {(m.orig, m.id)}, table := t), dr)
  }

  /** The own sequence number after a RREQ for this node asked for `wanted`. */
  function AnswerSeqno(hostSeq: u32, wanted: u32): (s: u32) {
    if wanted == 0 then hostSeq
    else if Newer(wanted, hostSeq) then wanted
    else if hostSeq == wanted then SeqnoIncr(hostSeq)
    else hostSeq
  }

  /** The RREP about the route to the destination. */
  function TellOriginator(n: NodeState, now: int, m: Rreq, life: u32): (r: (NodeState, seq<Packet>))
    requires m.orig in n.table.entries && m.dest in n.table.entries
    ensures r.0.table.entries.Keys == n.table.entries.Keys
  {
    var f := n.table.entries[m.dest];
    RrepSend(n, now, Rrep(f.hops, m.dest, f.seqno, m.orig, life, false), m.orig, m.dest, true)
  }

  /** The gratuitous RREP, which tells the destination of the way back. */
  function TellDestination(n: NodeState, now: int, m: Rreq, life: u32): (r: (NodeState, seq<Packet>))
    requires m.orig in n.table.entries && m.dest in n.table.entries
  {
    var b := n.table.entries[m.orig];
    RrepSend(n, now, Rrep(b.hops, m.orig, b.seqno, m.dest, life, false), m.dest, m.orig, true)
  }

  function ThenGratuitous(n: NodeState, now: int, m: Rreq, life: u32, first: seq<Packet>): (r: (NodeState, seq<Packet>))
    requires m.orig in n.table.entries && m.dest in n.table.entries
  {
    if m.gratuitous then
      var (n1, more) := TellDestination(n, now, m, life);
      (n1, first + more)
    else (n, first)
  }

  /** The answer of a node that knows a fresh enough route. */
  function FromTable(n: NodeState, now: int, m: Rreq): (r: (NodeState, seq<Packet>))
    requires m.orig in n.table.entries && m.dest in n.table.entries
  {
    var life := Wrap(DiffMs(n.table.entries[m.dest].deadline - now));
    var (n1, first) := TellOriginator(n, now, m, life);
    ThenGratuitous(n1, now, m, life, first)
  }

  lemma FromTableIs(n: NodeState, now: int, m: Rreq, life: u32)
    requires m.orig in n.table.entries && m.dest in n.table.entries
    requires life == Wrap(DiffMs(n.table.entries[m.dest].deadline - now))
    ensures var r := TellOriginator(n, now, m, life);
            FromTable(n, now, m) == ThenGratuitous(r.0, now, m, life, r.1)
  {
  }

  /** rreq_process from line 159: answer, answer from the table, or forward. */
  function AnswerOrForward(n: NodeState, now: int, m: Rreq, len: int, ttl: int): (r: (NodeState, seq<Packet>))
    requires m.orig in n.table.entries
  {
    var t := n.table;
    if m.dest == n.self then
      var n1 := n.(hostSeq := AnswerSeqno(n.hostSeq, m.destSeqno));
      RrepSend(n1, now, Rrep(0, n.self, n1.hostSeq, m.orig, MY_ROUTE_TIMEOUT, false), m.orig, 0, false)
    else if m.dest in t.entries && t.entries[m.dest].valid && !m.destOnly
            && t.entries[m.dest].seqno != 0
            && AsSigned(t.entries[m.dest].seqno) >= AsSigned(m.destSeqno) then
      FromTable(n, now, m)
    else if ttl > 1 then
      var wanted := if m.dest in t.entries && Newer(t.entries[m.dest].seqno, m.destSeqno)
                    then t.entries[m.dest].seqno else m.destSeqno;
      (n, [Packet(n.self, BROADCAST, ttl - 1, len,
                  RreqMsg(m.(hopcnt := m.hopcnt + 1, destSeqno := wanted)))])
    else (n, [])
  }

  /** rreq_process. */
  function RreqProcess(n: NodeState, now: int, m: Rreq, len: int, src: Addr, ttl: int): (r: (NodeState, seq<Packet>))
    requires |n.table.buckets| == TABLE_SIZE
  {
    if m.orig == n.self || len < RREQ_SIZE || src in n.blacklist || (m.orig, m.id) in n.records then (n, [])
    else
      var (n1, dr) := ReverseRoute(n, now, m, src);
      var (n2, out) := AnswerOrForward(n1, now, m, len, ttl);
      (n2, LinkBreakPackets(n.self, dr) + out)
  }

  /** rrep_process, lines 172 to 194: the forward route, or false when the RREP is dropped. */
  function ForwardTable(t: Table, now: int, m: Rrep, src: Addr): (r: (Table, Draft, bool))
    requires |t.buckets| == TABLE_SIZE
    ensures r.2 ==> r.0.entries.Keys == t.entries.Keys + {m.dest}
    ensures !r.2 ==> r.0 == t
  {
    var hops := m.hopcnt + 1;
    if m.dest !in t.entries then
      (InsertSpec(t, now, m.dest, src, hops, m.destSeqno, m.lifetime, true, false), NoRerr, true)
    else if AcceptRrep(t.entries[m.dest], m.destSeqno, hops) then
      var (t', dr) := UpdateSpec(t, now, m.dest, src, hops, m.destSeqno, m.lifetime, true, t.entries[m.dest].unidir);
      (t', dr, true)
    else (t, NoRerr, false)
  }

  /** rrep_forward; rev is a VALID entry. */
  function RrepForward(n: NodeState, now: int, m: Rrep, len: int, rev: Addr, fwd: Addr,
                       ttl: int): (r: (NodeState, seq<Packet>))
    requires rev in n.table.entries && fwd in n.table.entries
  {
    var next := n.table.entries[rev].next;
    var (t, asked) := AskForAck(n.table, next);
    var p := Packet(n.self, next, ttl, len, RrepMsg(m.(hopcnt := t.entries[fwd].hops, ack := m.ack || asked)));
    (n.(table := UpdateTimeoutSpec(LinkPrecursors(t, rev, fwd), now, rev, ACTIVE_ROUTE_TIMEOUT)), [p])
  }

  /** Marks the next hop as unidirectional until it acknowledges, unless it is already being asked. */
  function AskForAck(t: Table, next: Addr): (r: (Table, bool))
    ensures r.0.entries.Keys == t.entries.Keys
  {
    if next in t.entries && !t.entries[next].ackUsed
    then (Put(t, next, t.entries[next].(unidir := true, ackUsed := true)), true)
    else (t, false)
  }

  /** The acknowledgement asked for by a RREP; it is sent with NEXT_HOP_WAIT as its length. */
  function Acks(self: Addr, asked: bool, next: Addr): (out: seq<Packet>) {
    if asked then [Packet(self, next, MAXTTL, NEXT_HOP_WAIT, RrepAckMsg)] else []
  }

  /** rrep_process. */
  function RrepProcess(n: NodeState, now: int, m: Rrep, len: int, src: Addr, ttl: int): (r: (NodeState, seq<Packet>))
    requires |n.table.buckets| == TABLE_SIZE
  {
    if len < RREP_SIZE || m.dest == n.self then (n, [])
    else
      var hadRev := m.orig in n.table.entries;
      var (t, dr, accepted) := ForwardTable(n.table, now, m, src);
      if !accepted then (n, [])
      else
        RrepRest(n.(table := t), now, m, len, ttl, hadRev, dr)
  }

  /** rrep_process from line 196: acknowledge, then forward unless the RREP is for this node. */
  function RrepRest(n: NodeState, now: int, m: Rrep, len: int, ttl: int, hadRev: bool,
                    dr: Draft): (r: (NodeState, seq<Packet>))
    requires m.dest in n.table.entries && (hadRev ==> m.orig in n.table.entries)
  {
    var out := LinkBreakPackets(n.self, dr) + Acks(n.self, m.ack, n.table.entries[m.dest].next);
    if m.orig != n.self && hadRev && n.table.entries[m.orig].valid then
      var (n1, fw) := RrepForward(n, now, m.(ack := false), len, m.orig, m.dest, ttl - 1);
      (n1, out + fw)
    else (n, out)
  }

  /** Whether the RERR pair (d, r) from `src` takes down a route. */
  predicate RerrHits(t: Table, src: Addr, d: Addr, r: u32) {
    d in t.entries && t.entries[d].valid && t.entries[d].next == src && !Newer(t.entries[d].seqno, r)
  }

  function TakeDownStep(t: Table, now: int, noDelete: bool, d: Addr, s: u32, dr: Draft): (r: (Table, Draft))
    requires d in t.entries
    ensures r.0.entries.Keys == t.entries.Keys && r.0.buckets == t.buckets
  {
    var t1 := if noDelete then t else InvalidateSpec(t, now, d);
    var t2 := Put(t1, d, t1.entries[d].(seqno := s));
    var e := t2.entries[d];
    (if e.valid then t2 else ClearPrecursorsSpec(t2, d), Report(dr, d, s, e.precs))
  }

  /** One listed destination of a RERR. */
  function RerrStep(t: Table, now: int, noDelete: bool, src: Addr, d: Addr, s: u32, dr: Draft): (r: (Table, Draft))
    ensures r.0.entries.Keys == t.entries.Keys && r.0.buckets == t.buckets
  {
    if RerrHits(t, src, d, s) then TakeDownStep(t, now, noDelete, d, s, dr) else (t, dr)
  }

  /** The walk of rerr_process over the listed destinations. */
  function RerrWalk(t: Table, now: int, noDelete: bool, src: Addr, work: seq<(Addr, u32)>,
                    dr: Draft): (r: (Table, Draft))
    ensures r.0.entries.Keys == t.entries.Keys && r.0.buckets == t.buckets
    decreases work
  {
    if work == [] then (t, dr)
    else
      var (t1, dr1) := RerrStep(t, now, noDelete, src, work[0].0, work[0].1, dr);
      RerrWalk(t1, now, noDelete, src, work[1..], dr1)
  }

  lemma RerrWalkStep(t: Table, now: int, noDelete: bool, src: Addr, d: Addr, s: u32, rest: seq<(Addr, u32)>, dr: Draft)
    ensures var (t1, dr1) := RerrStep(t, now, noDelete, src, d, s, dr);
            RerrWalk(t, now, noDelete, src, [(d, s)] + rest, dr) == RerrWalk(t1, now, noDelete, src, rest, dr1)
  {
    assert ([(d, s)] + rest)[1..] == rest;
  }

  lemma RerrWalkAt(t: Table, now: int, noDelete: bool, src: Addr, dests: seq<(Addr, u32)>, i: nat, dr: Draft)
    requires i < |dests|
    ensures var (t1, dr1) := RerrStep(t, now, noDelete, src, dests[i].0, dests[i].1, dr);
            RerrWalk(t, now, noDelete, src, dests[i..], dr) == RerrWalk(t1, now, noDelete, src, dests[i + 1..], dr1)
  {
    RerrWalkStep(t, now, noDelete, src, dests[i].0, dests[i].1, dests[i + 1..], dr);
    assert dests[i..] == [(dests[i].0, dests[i].1)] + dests[i + 1..];
  }

  /** rerr_process. A unicast target without a table entry gets nothing. */
  function RerrProcess(n: NodeState, now: int, m: Rerr, len: int, src: Addr): (r: (NodeState, seq<Packet>))
  {
    if len < RerrSize(|m.dests|) then (n, [])
    else
      var (t, dr) := RerrWalk(n.table, now, m.noDelete, src, m.dests, NoRerr);
      (n.(table := t),
       if dr.NoRerr? || (dr.unicast != 0 && dr.unicast !in t.entries) then []
       else [RerrPacket(n.self, m.noDelete, dr.dests, dr.unicast)])
  }

  /** rrep_ack_process. */
  function AckProcess(n: NodeState, src: Addr): (n': NodeState) {
    if src in n.table.entries
    then n.(table := Put(n.table, src, n.table.entries[src].(ackUsed := false)))
    else n
  }

  /** aodv_socket_package_process; HELLO messages do not occur. */
  function Receive(n: NodeState, now: int, p: Packet): (r: (NodeState, seq<Packet>))
    requires |n.table.buckets| == TABLE_SIZE
  {
    Dispatched(HearNeighbor(n, now, p.src), now, p)
  }

  function Dispatched(n: NodeState, now: int, p: Packet): (r: (NodeState, seq<Packet>))
    requires |n.table.buckets| == TABLE_SIZE
  {
    match p.msg
    case RreqMsg(m) => RreqProcess(n, now, m, p.len, p.src, p.ttl)
    case RrepMsg(m) => RrepProcess(n, now, m, p.len, p.src, p.ttl)
    case RerrMsg(m) => RerrProcess(n, now, m, p.len, p.src)
    case RrepAckMsg => (AckProcess(n, p.src), [])
  }

  /** rreq_send: a new RREQ with the next id and an incremented own sequence number. */
  function RreqSend(n: NodeState, dest: Addr, destSeqno: u32, ttl: int): (r: (NodeState, seq<Packet>)) {
    var n1 := n.(rreqId := Wrap(n.rreqId + 1), hostSeq := SeqnoIncr(n.hostSeq));
    (n1, [Packet(n.self, BROADCAST, ttl, RREQ_SIZE,
                 RreqMsg(Rreq(0, n.rreqId, dest, destSeqno, n.self, n1.hostSeq, false, false)))])
  }

  /** Keeps a known route alive for the time of a discovery. */
  function HoldRoute(t: Table, now: int, d: Addr): (t': Table)
    requires d in t.entries
  {
    if DiffMs(t.entries[d].deadline - now) < 2 * NET_TRAVERSAL_TIME
    then UpdateTimeoutSpec(t, now, d, 2 * NET_TRAVERSAL_TIME) else t
  }

  function HoldIfKnown(t: Table, now: int, d: Addr): (t': Table) {
    if d in t.entries then HoldRoute(t, now, d) else t
  }

  /** Sends a RREQ and remembers the discovery. */
  function Ask(n: NodeState, d: Addr, seqno: u32, ttl: int, s: Seek): (r: (NodeState, seq<Packet>)) {
    var (n1, out) := RreqSend(n, d, seqno, ttl);
    (n1.(table := n.table.(seeks := n.table.seeks[d := s])), out)
  }

  /** rreq_route_discovery, with expanding ring search. */
  function Discover(n: NodeState, now: int, d: Addr): (r: (NodeState, seq<Packet>)) {
    if d in n.table.seeks then (n, [])
    else
      var known := d in n.table.entries;
      var seqno := if known then n.table.entries[d].seqno else 0;
      var ttl := if known then n.table.entries[d].hops + TTL_INCREMENT else TTL_START;
      Ask(n.(table := HoldIfKnown(n.table, now, d)), d, seqno, ttl, Seek(seqno, ttl, 1))
  }

  /** route_discovery_timeout: widen the ring and ask again, or give up. */
  function DiscoveryTimeout(n: NodeState, now: int, d: Addr): (r: (NodeState, seq<Packet>))
    requires d in n.table.seeks
  {
    var s := n.table.seeks[d];
    if s.count < RREQ_RETRIES then
      var ttl := if s.ttl < TTL_THRESHOLD then s.ttl + TTL_INCREMENT else NET_DIAMETER;
      Ask(n.(table := HoldIfKnown(n.table, now, d)), d, s.seqno, ttl, s.(ttl := ttl, count := s.count + 1))
    else (n.(table := n.table.(seeks := n.table.seeks - {d})), [])
  }

  /** The KAODVM_SEND_RERR message: a data packet from `src` to `dst` met no route. */
  function UnsolicitedRerr(n: NodeState, now: int, src: Addr, dst: Addr): (r: (NodeState, seq<Packet>)) {
    var t := n.table;
    var known := dst in t.entries;
    var seqno := if known then t.entries[dst].seqno else 0;
    var to := if src in t.entries && t.entries[src].valid then t.entries[src].next else 0;
    if dst == BROADCAST then (n, [])
    else (if known then n.(table := UpdateTimeoutSpec(t, now, dst, DELETE_PERIOD)) else n,
     [RerrPacket(n.self, false, [(dst, seqno)], to)])
  }

  /** The rt_timer of an entry fires. */
  function RouteTimeout(n: NodeState, now: int, d: Addr): (r: (NodeState, seq<Packet>))
    requires |n.table.buckets| == TABLE_SIZE && d in n.table.entries
  {
    match n.table.entries[d].handler
    case ExpireHandler =>
      var (t, dr) := ExpireSpec(n.table, now, d);
      (n.(table := t), LinkBreakPackets(n.self, dr))
    case DeleteHandler => (n.(table := DeleteSpec(n.table, d)), [])
  }

  /** rrep_ack_timeout. */
  function AckTimeout(n: NodeState, d: Addr): (n': NodeState)
    requires d in n.table.entries
  {
    n.(table := Put(n.table, d, n.table.entries[d].(ackUsed := false)), blacklist := n.blacklist + {d})
  }
}
