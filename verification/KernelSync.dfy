/**
 The two halves together: the daemon's table operations send messages, and the kernel's list follows them.
 */
module KernelSync {
  import opened RouteSpec
  import opened TableRuns
  import opened KernelMirror
  import opened AodvSpec
  import opened Network
  import opened DaemonRuns
  import E = ExpiryList
  import K = KernelPeer

  /** The netlink message the kernel receives. */
  function OnWire(m: RouteMsg, ifindex: int): (msg: K.Msg) {
    match m
    case AddRoute(d, next, lifetime) => K.AddRoute(d, next, lifetime, false, false, ifindex)
    case DelRoute(d) => K.DelRoute(d)
  }

  /** The kernel after the messages, the i-th of which arrives at the i-th time. */
  function Fed(k: K.Kernel, ms: seq<RouteMsg>, times: seq<int>, ifindex: int): (k': K.Kernel)
    requires |times| == |ms|
    decreases |ms|
  {
    if ms == [] then k else Fed(K.Received(k, OnWire(ms[0], ifindex), times[0]), ms[1..], times[1..], ifindex)
  }

  /** No route is added to a copy that holds more than the limit. */
  predicate StaysSmall(k: map<Addr, Addr>, ms: seq<RouteMsg>)
    decreases |ms|
  {
    ms == [] || ((ms[0].AddRoute? ==> |k| <= E.MAX_LEN) && StaysSmall(Apply(k, ms[0]), ms[1..]))
  }

  /** The kernel's list is the copy, and its counter is right. */
  ghost predicate Follows(k: K.Kernel, copy: map<Addr, Addr>) {
    K.Inv(k) && K.NextHops(k.expl.list) == copy && k.expl.len == |k.expl.list|
  }

  lemma {:induction false} TableSize(list: seq<E.Entry>)
    requires E.Distinct(list)
    ensures |E.Table(list)| == |list|
  {
    if list != [] {
      TableSize(list[1..]);
      var t := E.Table(list[1..]);
      assert E.Table(list).Keys == t.Keys + {list[0].daddr};
      assert |E.Table(list)| == |E.Table(list).Keys| && |t| == |t.Keys|;
    }
  }

  lemma CopySize(list: seq<E.Entry>)
    requires E.Distinct(list)
    ensures |K.NextHops(list)| == |list|
  {
    TableSize(list);
    assert K.NextHops(list).Keys == E.Table(list).Keys;
    assert |K.NextHops(list)| == |K.NextHops(list).Keys| && |E.Table(list)| == |E.Table(list).Keys|;
  }

  lemma ReceivedFollows(k: K.Kernel, m: RouteMsg, jiffies: int, ifindex: int, copy: map<Addr, Addr>)
    requires Follows(k, copy) && (m.AddRoute? ==> |copy| <= E.MAX_LEN)
    ensures Follows(K.Received(k, OnWire(m, ifindex), jiffies), Apply(copy, m))
  {
    var msg := OnWire(m, ifindex);
    CopySize(k.expl.list);
    K.ReceivedKeepsInv(k, msg, jiffies);
    K.PeerMirrorsIff(k, msg, jiffies);
    E.DoKeeps(k.expl, K.OpOf(k, msg, jiffies));
  }

  lemma {:induction false} FedFollows(k: K.Kernel, ms: seq<RouteMsg>, times: seq<int>, ifindex: int,
                                      copy: map<Addr, Addr>)
    requires |times| == |ms| && Follows(k, copy) && StaysSmall(copy, ms)
    ensures Follows(Fed(k, ms, times, ifindex), ApplyAll(copy, ms))
    decreases |ms|
  {
    if ms != [] {
      ReceivedFollows(k, ms[0], times[0], ifindex, copy);
      FedFollows(K.Received(k, OnWire(ms[0], ifindex), times[0]), ms[1..], times[1..], ifindex, Apply(copy, ms[0]));
    }
  }

  /** Over any run of table operations, whenever the messages arrive: as long as the daemon never adds a route
      to more than 1024, the kernel's list is the daemon's copy, which is the VALID routes with their next
      hops less those lost to self-breaking updates. */
  lemma KernelFollowsTable(t: Table, ops: seq<Timed>, k: K.Kernel, times: seq<int>, ifindex: int)
    requires IsEmpty(t) && RunAllowed(t, ops) && AllNamed(ops)
    requires Follows(k, map[]) && |times| == |RunMessages(t, ops)| && StaysSmall(map[], RunMessages(t, ops))
    ensures var k', t' := Fed(k, RunMessages(t, ops), times, ifindex), Run(t, ops);
            && K.NextHops(k'.expl.list) == t'.kernel == ValidRoutes(t') - LostOver(t, ops, {})
            && k'.expl.len == |k'.expl.list|
  {
    RunSends(t, ops);
    FedFollows(k, RunMessages(t, ops), times, ifindex, map[]);
    KernelMirrorOverRuns(t, ops);
  }

  /** The same for every run of a node that hears no packet from the address 0, with the messages its own
      handlers send. */
  lemma KernelFollowsDaemon(n: NodeState, evs: seq<Event>, k: K.Kernel, times: seq<int>, ifindex: int)
    requires IsEmpty(n.table) && NodeRuns(n, evs) && FromHosts(evs) && RunAllowed(n.table, NodeOps(n, evs))
    requires var ms := RunMessages(n.table, NodeOps(n, evs));
             Follows(k, map[]) && |times| == |ms| && StaysSmall(map[], ms)
    ensures var k', t' := Fed(k, RunMessages(n.table, NodeOps(n, evs)), times, ifindex), NodeAfter(n, evs).table;
            && K.NextHops(k'.expl.list) == t'.kernel == ValidRoutes(t') - LostOver(n.table, NodeOps(n, evs), {})
            && k'.expl.len == |k'.expl.list|
  {
    DaemonKernel(n, evs);
    KernelFollowsTable(n.table, NodeOps(n, evs), k, times, ifindex);
  }
}
