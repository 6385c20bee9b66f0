# A verified model of the AODV routing daemon

The repository is a routing daemon for AODV (RFC 3561) with a kernel module that holds packets
until a route is known. This project models both halves in Dafny, proves each operation against
a specification, and proves what the specifications promise over whole runs.

| file | what it models |
|---|---|
| `Words.dfy` | 32-bit words, the signed comparison of sequence numbers, truncating time differences |
| `RouteSpec.dfy` | the routing table as a value, and every table operation as a function on it |
| `RouteTable.dfy` | the routing table as it is kept: route objects, an array of 64 buckets, counters; each method is proved equal to its function |
| `Sequences.dfy` | lists without duplicates |
| `TableRuns.dfy` | all runs of table operations, with any arguments: the index and the counters |
| `LifeCycle.dfy` | the timers of entries over those runs, and exactly which operations stop one |
| `KernelMirror.dfy` | the kernel's copy over those runs, and the messages that make it |
| `RouteErrors.dfy` | what a broken link and a received RERR do to the table, and what they report |
| `AodvSpec.dfy` | one node's handlers for RREQ, RREP, RERR, acknowledgements, discovery and timers, as functions |
| `Aodv.dfy` | the node as an object, with the handlers as methods proved equal to those functions |
| `HandlerRuns.dfy` | the table operations each handler performs, in order, and what a claim about the packet makes of their arguments |
| `RreqOutcomes.dfy` | what a node does about a route request: ignore it, answer it, pass it on or let it end, and what it sends |
| `RrepOutcomes.dfy` | what it does about a RREP and about acknowledgements, and how long a silent neighbour is ignored |
| `RerrOutcomes.dfy` | the RERRs it sends for broken links and for data without a route, and what it does about unusual ones |
| `Freshness.dfy` | which of these steps keep stored routes fresh, with the exact conditions |
| `Network.dfy` | any number of nodes and all packets ever sent: loop freedom and freshness over runs |
| `Growth.dfy` | how fast sequence numbers grow, and loop freedom without the assumption on numbers |
| `Clock.dfy` | runs in time: a monotone clock, route timers of all nodes that fire when they are due, and other timers that do not fire before their periods |
| `TimedRuns.dfy` | such runs step by step, and what it is for one to end in a loop |
| `Loops.dfy` | runs from empty tables that end in a loop: a number that starts at 0, numbers that overflow, an entry that is deleted |
| `MessageLoops.dfy` | the same for the two acceptance rules: a RERR that lists the stored number, a RREP over a unidirectional route |
| `Lifetimes.dfy` | the lifetimes that handlers compute and send, and the timers these start or stop |
| `DaemonRuns.dfy` | what holds over runs of table operations, for the handlers' own operations in every run of a node and of the network |
| `PacketRuns.dfy` | received packets that lose a route from the kernel, and that lose an answer |
| `Fading.dfy` | how long an entry lasts that nothing renews, over runs of a node and of the network |
| `Flood.dfy` | how far and how often a route request is flooded |
| `Discovery.dfy` | how often a node asks for a destination |
| `DiscoveryEnds.dfy` | exactly which events end a discovery |
| `IntrusiveList.dfy` | circular doubly linked lists with the links inside the elements |
| `TimerOrder.dfy` | the order of the timer queue, and which expired timers fire |
| `TimerQueue.dfy` | the timer queue over linked nodes, and the pass that fires timers |
| `RreqWindow.dfy` | the filter against duplicate route requests |
| `RouteTimers.dfy` | the timers of routing entries in the timer queue: which calls each table operation makes, and that queue and table stay in step |
| `RateLimit.dfy` | the ten-a-second limits on RREQ and RERR |
| `RerrWire.dfy` | the RERR message as bytes |
| `ExpiryList.dfy` | the kernel's list of routes |
| `PacketQueue.dfy` | the kernel's queue of waiting packets |
| `KernelPeer.dfy` | messages from the daemon and packets leaving the host, acting on both |
| `KernelSync.dfy` | the daemon's messages fed to the kernel module: its list follows the table of a running node |
| `MinimalEncap.dfy` | the Internet checksum and minimal IP encapsulation |

`dafny verify dfyconfig.toml` checks everything.

## Conventions

Times are integers in microseconds, and a handler reads the clock once. `long` is 32 bits, as on
the mt7620 target, so a lifetime of 2^31 or more is negative as an argument of
`timer_set_timeout`. Hop counts, counters and clocks are unbounded; sequence numbers, request
ids, addresses and lifetimes are 32-bit words and wrap. Netlink messages to the kernel are
direct calls that succeed. A RERR under construction may list any number of destinations, while
the code's send buffer ends at 127 (`RerrWire.FitsIff`). Expanding ring search is on, local repair is
off, and HELLO messages do not occur, as `main.c` sets them.

A packet in the network model may be delivered late, repeatedly or never. This covers loss,
movement, the rate limits, and `wait_on_reboot`: it is 1, its timer is never initialised, and
`aodv_socket_send` drops every RREP while it is set (`main.c:28`, `aodv_socket.c:137`).

## What loop freedom needs

`Network.LoopFreedom` holds for every number of nodes and every run in which

* own sequence numbers start at 1 or more;
* all sequence numbers stay below 2^31, which every run of fewer than 2^31 - k events from numbers
  of at most k does (`Growth.ShortRunsFit`, `Growth.ShortRunsAreLoopFree`);
* no RREP with the stored sequence number and a longer hop count is accepted over a VALID route
  marked RT_UNIDIR;
* no RERR takes a route down by listing exactly the number that is stored;
* no entry is deleted.

Each is needed: for each, `Loops.dfy` or `MessageLoops.dfy` has a run that starts with empty tables
and no packets, breaks this assumption and no other, and ends in a loop of two nodes. The safety
theorems let every event happen at any time. These runs are in time (`Clock.InTime`): the clock does
not run backwards, every route timer of every node fires at its deadline, the timers of discoveries,
records, acknowledgements and the blacklist do not fire before their periods, though they may be late,
and when the loop stands no route timer is due at any node (`TimedRuns.EndsInLoop`).

The daemon's own start breaks the first assumption. `main.c:295` sets the number to 0, where
`seqno_incr` leaves it, and `Loops.ZeroSeqnoLoop` is a run of six admissible events. For the two
acceptance rules the condition is exact (`Freshness.RrepRuleKeepsFreshIff`,
`Freshness.RerrKeepsFreshIff`). `MessageLoops.UnidirLoop` delivers RREPs, so it presupposes that
`wait_on_reboot` has been cleared, which a run of the daemon as it stands never does (see Conventions);
no other run delivers a RREP.

## Other places where the code does less than it seems to

* `rt_table_update` on a VALID neighbour that becomes more than a hop away announces the route
  and then breaks its own link: the counter of active routes is one too low afterwards and the
  kernel no longer has the route (`KernelMirror.UpdateInKernelIff`). `KernelMirror.KernelLosesRoute`
  is a run of two operations that ends so and `PacketRuns.PacketsLoseRoute` one of two received
  requests; `DaemonRuns.SlipsIff` says which packets do it, and `DaemonRuns.ActiveCount` that the
  counter is short by exactly their number.
* The timer queue is sorted only up to a millisecond: an insertion leaves it sorted in the plain
  sense if and only if it was and no queued deadline is later than the new one by less than a
  millisecond (`TimerOrder.StaysSortedIff`; `TimerOrder.PlainOrderIsLost` is an instance).
* A reverse route 70 hops long gets a lifetime of 0 and never expires; beyond that the lifetime
  wraps (`Lifetimes.ReverseLifetimeInRangeIff`, `LifeCycle.InsertArmsIff`).
* `rt_table_update` looks at the timeout before it sets the state, so a route that was INVALID comes back
  with whatever time its deletion had left, whatever the lifetime (`LifeCycle.UpdatedDeadline` has all
  cases; `LifeCycle.RevivedBriefly` is an input).
* A RREP's lifetime is used as it comes off the wire. One answered from the table carries a lifetime
  that a timer accepts if and only if the route has a millisecond left, 0 if and only if it is within
  a millisecond of its deadline, and otherwise a wrapped one (`Lifetimes.AnswerLifetimeIff`). A
  lifetime of 2^31 or more stops the timer of a VALID route that it updates; `LifeCycle.UpdateStopsIff`,
  `LifeCycle.ProlongStopsIff` and `Lifetimes.StaleAnswerStopsIff` say exactly when.
* When a unidirectional link is broken while a RREP is being sent, the RERR is built in the
  buffer that holds the RREP, and the RERR's bytes go out in its place (`aodv_rrep.c:73-92`). This
  happens if and only if the reverse route is VALID and unidirectional, its next hop is known, VALID,
  one hop away and not waiting for an acknowledgement, and that neighbour or a VALID route through it
  has a precursor (`RouteErrors.RrepSurvivesIff`, and `PacketRuns.AnswerGoesOutIff` for the requests
  that a node answers; `RouteErrors.RrepIsLost` and `PacketRuns.PacketsLoseRrep` are inputs).
* `rrep_process` sends its acknowledgement with the length `NEXT_HOP_WAIT` (`aodv_rrep.c:201`).
* `RREQ_RETRIES` is 2, but the first request is counted (`seek_list.c:23`), so a discovery is
  retried once (`Discovery.DiscoveryAsksTwice`).
* Above its limit the kernel's list counts an add that it refuses and loses an entry that it
  updates (`ExpiryList.AddIff`, `ExpiryList.UpdateIff`).
* An encapsulated packet that is given a new id carries a stale header checksum
  (`MinimalEncap.OuterVerifiesIff`).
* Sequence numbers are compared by casting each side to signed. This agrees with section 6.1 of
  RFC 3561 exactly when the difference of the cast values fits a signed word
  (`Words.CastAgreesWithSubtraction`).

## Model

| member | source | states |
|---|---|---|
| Words.CastAgreesWithSubtraction | aodv_rreq.c:150 | comparing two cast sequence numbers agrees with the subtraction of section 6.1 of RFC 3561 if and only if the difference of the signed values fits a signed word |
| Words.IncrementIsNewer | routing_table.h:18 | an incremented number is newer than the old one if and only if the old one is neither 0 nor 2^31 - 1 |
| Words.IncrementIsNext | routing_table.h:18 | an incremented number is the next word, never 0, and 0 stays 0 |
| Words.DiffMsSign | timer_queue.h:19-30 | the truncated difference is positive from one millisecond up and negative from one millisecond down, and 0 in between |
| RouteSpec.CascadeShape | aodv_neighbor.c:76-131 | the cascade of a link break changes exactly the VALID routes through the broken neighbour, whatever the order of the walk |
| RouteTable.RouteTable.Check | routing_table.c:49-73 | lookup in the bucket of the hash, with the shortcut on num_entries, finds exactly the entry of the map |
| RouteTable.RouteTable.Insert | routing_table.c:75-160 | a known destination is refused and nothing changes; a new one gives the new table in full: bucket head, entry, timer, counters, kernel copy, discovery ended |
| RouteTable.RouteTable.Update | routing_table.c:162-208 | the whole new table and the RERR of the link break that a neighbour becoming distant causes, in the order of the code |
| RouteTable.RouteTable.UpdateTimeout | routing_table.c:210-227 | only a VALID entry is touched, and only to a deadline later by a millisecond or more |
| RouteTable.RouteTable.Invalidate | routing_table.c:264-318 | a VALID entry ends INVALID with an incremented number, the delete handler armed, the counter and the kernel copy updated; an INVALID one is refused |
| RouteTable.RouteTable.LinkBreak | aodv_neighbor.c:41-152 | the double loop over buckets and entries, with the RERR it builds, equals the specified cascade; a route of more than one hop is left alone |
| RouteTable.RouteTable.Delete | routing_table.c:320-345 | the entry leaves its bucket, the map, the counters and, if VALID, the kernel copy |
| RouteTable.RouteTable.AddPrecursor | routing_table.c:351-379 | a known precursor is not added again; a new one goes to the head |
| RouteTable.RouteTable.DestroyPrecursors | routing_table.c:404-419 | the precursor list is empty and nothing else changes |
| RouteTable.RouteIndex.Find | routing_table.c:59-72 | the search of one bucket returns the object of the destination, or nothing if there is none |
| RouteTable.IndexedFits | routing_table.c:320-342 | in an indexed table the count of entries fits the map and buckets hold no entry twice, as deletion needs |
| TableRuns.DoKeepsIndex | routing_table.c:49-126 | every operation with any arguments keeps each destination once, in the bucket of its hash, and num_entries exact |
| TableRuns.CountersOverRuns | routing_table.c:122-145 | over every run from the empty table, whatever lifetimes come off the wire, num_entries is the size of the map, and num_active plus the number of self-breaking updates is the number of VALID entries |
| KernelMirror.KernelMirrorOverRuns | routing_table.c:164-188 | over every run that stores no address 0 the kernel holds the VALID routes with their next hops except those lost to a self-breaking update, so it is exact if and only if none of those is VALID |
| KernelMirror.UpdateInKernelIff | routing_table.c:162-188 | an update leaves its route in the kernel if and only if it does not break its own link and the route is announced or was there |
| KernelMirror.KernelLosesRoute | routing_table.c:180-188 | two operations on the empty table after which a route is VALID, the kernel does not have it, and num_active is 0 |
| PacketRuns.PacketsLoseRoute | routing_table.c:180-188 | the same as a run of a node that has just started and hears two requests: the route is VALID, the kernel does not have it, and num_active is one too low |
| KernelMirror.DoSends | routing_table.c:122-188 | one operation moves the kernel's copy by exactly the add and delete messages it sends, in their order |
| KernelMirror.RunSends | routing_table.c:297-342 | the same over runs: the kernel's copy is what the messages of the run make of it |
| KernelSync.KernelFollowsTable | kaodv/src/kaodv_netlink.c:183-207 | over every run of table operations, while no route is added to more than 1024, the kernel module's list holds exactly the VALID routes with their next hops except those lost to a self-breaking update |
| KernelSync.KernelFollowsDaemon | kaodv/src/kaodv_netlink.c:183-207 | the same over every run of a node that hears no packet from address 0, with the messages its own handlers send: the kernel module's list ends up with the VALID routes less those lost |
| LifeCycle.DoKeepsArmedIff | timer_queue.c:100-118 | an operation leaves every timer running if and only if it is not an insertion with a lifetime outside 1..2^31-1, nor an update or prolongation that takes effect with one of 2^31 or more |
| LifeCycle.UpdateStopsIff | routing_table.c:190-205 | an update stops the running timer of its entry if and only if the lifetime is 2^31 or more, would be later, the entry was VALID and it did not break its own link |
| LifeCycle.ProlongStopsIff | routing_table.c:210-227 | the same for a prolonged timeout |
| LifeCycle.LifeCycleOverRuns | routing_table.c:128-152 | over every run each entry has the expire handler exactly when VALID and the delete handler exactly when INVALID, and a running timer unless some operation of the run stops one |
| LifeCycle.FiringLowersRank | aodv_timeout.c:134-166 | each firing takes an entry from VALID to INVALID or from INVALID to gone and starts the next timer; two firings remove it |
| LifeCycle.InsertArmsIff | routing_table.c:128-152 | an entry inserted as VALID has its timer started if and only if the lifetime is in 1..2^31-1 |
| LifeCycle.InsertStores | routing_table.c:75-160 | an inserted route is the one given, unmarked, without precursors and not waiting for an acknowledgement, and has its whole lifetime; nothing else changes |
| LifeCycle.UpdatedDeadline | routing_table.c:180-200 | the deadline of an updated route: the later of its own and the new one up to a millisecond if it was VALID, DELETE_PERIOD if it broke its own link, and whatever its deletion had left if it was INVALID |
| LifeCycle.RevivedBriefly | routing_table.c:195-200 | an input: a route taken with a lifetime of 6000 ms a microsecond before its old entry is deleted expires then |
| LifeCycle.ProlongedDeadline | routing_table.c:210-227 | a prolonged VALID route has the later deadline up to a millisecond, and an INVALID one is not touched |
| LifeCycle.GoesDown | routing_table.c:264-318 | a route that goes down keeps next hop, distance and precursors, is one newer, waits for no acknowledgement and is deleted after DELETE_PERIOD; nothing else changes |
| LifeCycle.ExpiresAlone | aodv_timeout.c:134-152 | a route of several hops that expires goes down alone, loses its precursors and is reported to nobody |
| Fading.GoneInTime | aodv_timeout.c:134-166 | over every run of a node in which timers are at most `lag` late: an entry with a running timer that nothing renews is gone `lag` after its deadline if it is INVALID, and DELETE_PERIOD plus twice `lag` after it if VALID, whatever else the node receives or does |
| Fading.GoneInTimeAt | aodv_timeout.c:134-166 | the same at every node in every run of any number of nodes |
| Fading.ReactHarmless | routing_table.c:162-227 | only hearing the destination, a RREQ from it, a RREP about it or for it, or, while it is VALID, a discovery of it or data for it makes an operation that can renew its entry |
| Fading.TimelyIsPunctual | timer_queue.c:69-98 | in a run in time no event finds a route timer of any node late |
| TableRuns.WalkIsComplete | aodv_neighbor.c:76-78 | walking all buckets meets exactly the stored destinations |
| RouteErrors.IndexedWalk | aodv_neighbor.c:76-78 | in an indexed table the walk meets every destination exactly once |
| RouteErrors.LinkBreakExact | aodv_neighbor.c:41-131 | after a link break no VALID route uses the neighbour, every route through it and the neighbour itself are invalidated without precursors, and every other entry is unchanged |
| RouteErrors.LinkBreakReports | aodv_neighbor.c:63-152 | the RERR lists exactly the neighbour and the cascaded routes that had precursors, once each, with the numbers after invalidation; it is unicast to u if and only if u is the sole precursor of all of them |
| RouteErrors.RrepSurvivesIff | aodv_rrep.c:60-101 | a RREP is what rrep_send hands to the socket if and only if the link it would take is not broken and reported first, a condition on the table before the call; otherwise a RERR goes to the next hop with the RREP's length, and no RREP at all |
| RouteErrors.RrepIsLost | aodv_rrep.c:73-92 | an input: after three operations on the empty table no RREP along the route is sent, whatever it says |
| PacketRuns.AnswerGoesOutIff | aodv_rreq.c:139-170 | after any run of a node that heard no packet from address 0, a request for it that passes the filters makes it hand a RREP to the socket if and only if the link this would take is not broken and reported first; otherwise a RERR goes out with the RREP's length |
| PacketRuns.PacketsLoseRrep | aodv_rrep.c:73-92 | such an input as packets: a request, the RREP that is forwarded for it and its acknowledgement, after which a request for this node gets no RREP |
| RouteErrors.RerrProcessExact | aodv_rerr.c:54-137 | a RERR is a fold over its list judged on the table before: exactly the VALID routes via the sender with a stored number not above the listed one end INVALID with the listed number and no precursors |
| RouteErrors.RerrOnward | aodv_rerr.c:85-155 | the onward RERR lists exactly those routes that had precursors, in order; it goes to the sole precursor of all of them if there is one and it is known, to nobody if that one is unknown, and is broadcast otherwise |
| RerrOutcomes.BreakIsSent | aodv_neighbor.c:41-152 | a broken link with users is reported by one RERR that goes one hop, to the sole user of everything listed if there is one and to everybody otherwise, about exactly the neighbour and the routes through it that had users; one without users is not |
| RerrOutcomes.TimeoutOutcome | aodv_timeout.c:134-166 | the expiry of a one-hop route sends exactly that, and the timer of any other route sends nothing |
| RerrOutcomes.UpdateOutcome | routing_table.c:180-188 | an update that breaks its own link sends exactly that, and any other sends nothing |
| RerrOutcomes.RequestTaken | aodv_rreq.c:141-154 | so an accepted request that replaces a one-hop route by a longer one has exactly that reported, and any other nothing |
| RerrOutcomes.RrepTaken | aodv_rrep.c:171-194 | the same for a RREP |
| RerrOutcomes.ShortRerr | aodv_rerr.c:48-52 | a RERR shorter than its count says does nothing |
| RerrOutcomes.NoDeleteRaises | aodv_rerr.c:64-137 | a RERR that forbids deletion takes no route down; the VALID routes through its sender get the signed largest of their own and the listed numbers, and what goes on forbids deletion too and lists only such routes with users |
| RerrOutcomes.DataOutcome | nl.c:228-270 | data without a route is answered with one RERR about its destination alone, one hop towards its source or to everybody; a VALID route to the destination is held, and nothing else changes |
| RouteErrors.PrecursorsOverRuns | routing_table.c:351-379 | over every run no precursor list holds an address twice, nor the address 0 if the run stores none |
| HandlerRuns.ReceiveLeads | aodv_socket.c:215-242 | whatever packet arrives, the operations that its handler performs lead from the table before to the table after, and whatever is claimed of the packet (a sender other than 0, lifetimes in range) holds of their arguments |
| DaemonRuns.DaemonTable | aodv_socket.c:203-242 | after every run of a node, whatever it received and whichever timers fired, the table is what the handlers' own operations make of it, an exact index, with num_active short by the number of those that broke their own link, fitting handlers and distinct precursors |
| DaemonRuns.TimersRun | aodv_rreq.c:139-154 | every routing timer is running after any run in which each RREQ received has come at most 69 hops and each RREP's lifetime is in 1..2^31-1 |
| DaemonRuns.SlipsIff | routing_table.c:180-188 | an event breaks its own link at most once, and does if and only if it is the arrival of an accepted RREQ or RREP that puts a longer route in the place of a VALID one-hop route |
| DaemonRuns.ActiveCount | routing_table.c:164-188 | after every run num_active is the number of VALID routes less the number of packets received that did so |
| DaemonRuns.DaemonKernel | routing_table.c:164-188 | after every run of a node that heard no packet from address 0 the kernel's copy is the VALID routes less those lost when one of the handlers' own operations broke its own link, and the tables are as link breaks need them |
| DaemonRuns.ReactKeepsTable | routing_table.c:49-126 | every event at a node keeps the index, the handlers and the precursor lists |
| DaemonRuns.NetworkTables | aodv_socket.c:215-242 | in every run of any number of nodes every node's table stays so |
| Aodv.Node.HearNeighbor | aodv_neighbor.c:12-39 | hearing any packet makes its sender a VALID one-hop neighbour with its number kept, unless its entry is marked unidirectional |
| Aodv.Node.RreqProcess | aodv_rreq.c:87-216 | the handler's new state and the packets it sends equal the specified ones, over every guard, answer and forwarding branch |
| Aodv.Node.ReverseTable | aodv_rreq.c:139-154 | the reverse route is inserted, updated or kept by the acceptance rule, with the unsigned lifetime |
| Aodv.Node.AnswerOrForward | aodv_rreq.c:159-215 | a RREQ is answered as the destination, answered from the table, forwarded with the larger destination number, or dropped at the end of its ttl |
| Aodv.Node.RrepSend | aodv_rrep.c:60-101 | sends the RREP and links the precursors of both routes; a unidirectional link is broken first and overwrites what is sent |
| Aodv.Node.RrepProcess | aodv_rrep.c:145-234 | the forward route by the acceptance rule, then the acknowledgement, then forwarding along a VALID reverse route |
| Aodv.Node.RrepForward | aodv_rrep.c:103-143 | the next hop is asked for an acknowledgement once, the hop count is rewritten, precursors are linked and the reverse route is held |
| Aodv.Node.RerrProcess | aodv_rerr.c:36-156 | the length check and the loop over the list, with the table and the onward RERR they give |
| Aodv.Node.AckProcess | aodv_rrep.c:43-58 | only the acknowledgement timer of the sender's entry stops |
| Aodv.Node.Receive | aodv_socket.c:215-242 | the sender is heard first, then the packet goes to its handler |
| Aodv.Node.RreqSend | aodv_rreq.c:18-69 | a request carries the next id and the incremented own number |
| Aodv.Node.Discover | aodv_rreq.c:314-362 | one request a destination at a time, starting from the number and distance last known |
| Aodv.Node.DiscoveryTimeout | aodv_timeout.c:34-92 | the first time the ring is widened and the request repeated, the second time the discovery is given up |
| Aodv.Node.UnsolicitedRerr | nl.c:228-270 | data without a route is answered with a RERR to the next hop towards its source, or broadcast |
| Aodv.Node.RouteTimeout | aodv_timeout.c:134-166 | the entry's handler runs: link break or invalidation, or deletion, from any state the node can be in |
| Aodv.Node.AckTimeout | aodv_timeout.c:194-206 | the neighbour that did not acknowledge is blacklisted |
| RreqOutcomes.IgnoredIff | aodv_rreq.c:99-129 | a request that is the node's own, too short, from a blacklisted neighbour or recorded does nothing; any other is recorded |
| RreqOutcomes.PassesOnIff | aodv_rreq.c:203-214 | a request that is neither for this node nor answered here goes on exactly once if and only if its ttl is more than 1: one hop older, with the signed larger of the number asked for and the one stored, all else as received |
| RreqOutcomes.AnswerNumber | aodv_rreq.c:161-167 | the number in an answer is one of the own and the wanted number and below neither in the signed sense, and the increment of both if they are equal and not 0; a wanted 0 leaves the own one |
| RreqOutcomes.AnswersAsDestination | aodv_rreq.c:159-170 | the destination sends one RREP with that number, hop count 0 and MY_ROUTE_TIMEOUT to the next hop of the reverse route, unless a RERR replaces it |
| RreqOutcomes.AnswerParts | aodv_rreq.c:174-200 | an answer from the table is a RREP for the originator, and a second one for the destination if that is asked for |
| RreqOutcomes.TellsOriginator | aodv_rreq.c:183-185 | the first says what the table says about the destination, and goes to the next hop of the reverse route unless a RERR replaces it |
| RreqOutcomes.TellsDestination | aodv_rreq.c:192-195 | the second says what the table says about the originator, and goes to the next hop towards the destination |
| RreqOutcomes.RrepGoesBack | aodv_rrep.c:60-92 | all that rrep_send sends: the RERR of the link it breaks, if any, and then the RREP along the route back, or that RERR in its place |
| RreqOutcomes.RequestOutcome | aodv_rreq.c:87-216 | over the whole handler: who answers, who passes on and who does neither, with every packet sent and the own number afterwards |
| RrepOutcomes.HealthyOverRuns | aodv_socket.c:215-242 | over every run of a node that hears no packet from address 0 its table is indexed, its next hops are addresses and its precursors distinct addresses, as these results need |
| RrepOutcomes.RouteFromRrep | aodv_rrep.c:171-194 | the route an accepted RREP brings is VALID, leads to its sender, and is as long and as new as the RREP says |
| RrepOutcomes.RefusedRrep | aodv_rrep.c:160-194 | a RREP that is too short, about this node itself or no better than what is stored does nothing |
| RrepOutcomes.RefusedIff | aodv_rrep.c:160-194 | it is refused if and only if it is too short, about this node, older than what is stored, or as new while the stored route is VALID, not unidirectional and no longer |
| RrepOutcomes.RrepOutcome | aodv_rrep.c:145-234 | an accepted RREP is acknowledged if and only if it asks for that, once, to the node it came from, whether or not it goes on; and it goes on if and only if there is a VALID route to its originator, once, along that route, one hop older, asking the next hop if that is known and not being asked |
| RrepOutcomes.ForwardingMarks | aodv_rrep.c:119-142 | when it goes on its next hop is waited for, each end's route has the other's next hop as a precursor, and the route back is held |
| RrepOutcomes.PrecursorsLinked | aodv_rrep.c:94-98 | the routes to both ends learn each other's next hop as a precursor, and nothing else changes |
| RrepOutcomes.SendingLinks | aodv_rrep.c:94-98 | so they do when a RREP is sent about a route, whether or not the link it takes is broken first |
| RrepOutcomes.BrokenOnTheWay | aodv_rrep.c:73-89 | a link that is broken on the way of a RREP: the neighbour is marked and waited for, and if it is one hop away its route and all others through it are down |
| RrepOutcomes.AckEndsWait | aodv_rrep.c:43-58 | an acknowledgement ends the wait for its sender and does nothing else |
| RrepOutcomes.SilentNeighborIgnored | aodv_timeout.c:194-206 | from the end of the wait for a silent neighbour on, over every run until its blacklist timer fires, a request from it does nothing beyond being heard |
| RrepOutcomes.TimersForget | aodv_timeout.c:18-32 | the timers of the blacklist and of the records take exactly their entry off |
| Freshness.ImprovesMeansFresh | routing_table.c:288-292 | the order on entries that steps keep means, for entries whose number is 0 only at one hop: the net number never falls, and while VALID at one number the hop count never grows |
| Freshness.RreqRule | aodv_rreq.c:150 | accepting a RREQ never replaces a route by a worse one, and refusing it means that the stored route is already ahead |
| Freshness.RrepRuleKeepsFreshIff | aodv_rrep.c:179 | accepting a RREP keeps the stored route fresh if and only if it is not a longer one of the same number over a VALID unidirectional route |
| Freshness.RerrKeepsFreshIff | aodv_rerr.c:64-83 | taking a route down on a RERR keeps it fresh if and only if the listed number is not the stored one |
| Freshness.LinkBreakDecays | aodv_neighbor.c:41-131 | a link break with its cascade only takes routes away and only raises their numbers |
| Freshness.RreqKeeps | aodv_rreq.c:87-216 | the RREQ handler keeps every entry fresh, gets new next hops only from the packet's sender, and sends only packets its own table stands behind |
| Freshness.RrepKeeps | aodv_rrep.c:145-234 | the same for RREPs outside the unidirectional branch |
| Freshness.RerrKeeps | aodv_rerr.c:36-156 | the same for RERRs that list no number equal to the stored one |
| Network.StepKeepsInv | aodv_socket.c:215-242 | every admissible event keeps the network invariant: next hops are strictly ahead, and every packet in flight is backed by its sender's table |
| Network.PathClimbs | routing_table.c:162-208 | along a chain of next hops the stored route gets newer, or as new and shorter |
| Network.LoopFreedom | aodv_rrep.c:172-194 | in every state of every admissible run of any number of nodes, the VALID next hops for a destination contain no cycle |
| Network.FreshnessOverRuns | aodv_rreq.c:141-154 | between any two states of a run no entry is lost, its net number does not fall, and its hop count does not grow while VALID at one number, the number 0 included |
| Network.NoDeleteAndGratuitousNeverSet | aodv_rerr.c:15 | no packet of any run at all from silence carries the no-delete or the gratuitous flag |
| Network.AdmissibleMeetsAll | aodv_rrep.c:172-194 | the assumptions on an event are the four named ones and no more |
| Growth.RunRises | routing_table.h:18 | whatever the events, a run of n events raises the largest sequence number in the network by at most n |
| Growth.ShortRunsAreLoopFree | aodv_rreq.c:150 | loop freedom without the assumption on numbers, for every run of fewer than 2^31 - k events from own numbers of at most k |
| Loops.ZeroSeqnoLoop | main.c:295 | a run in time of six admissible events from empty tables with own numbers 0, as the daemon starts, that ends in a loop while no route timer is due anywhere |
| Loops.OverflowLoop | aodv_rreq.c:150 | a run in time from empty tables and an own number of 2^31 - 2 that meets every assumption but that on numbers and ends in such a loop |
| Loops.DeletionLoop | aodv_timeout.c:154-166 | from every small own number, a run in time from empty tables that meets every assumption but that on deletion and ends in such a loop |
| MessageLoops.EqualRerrLoop | aodv_rerr.c:67 | the same for a RERR that lists exactly the stored number |
| MessageLoops.UnidirLoop | aodv_rrep.c:179 | the same for a longer RREP of equal number over a unidirectional route, given that RREPs are sent |
| Flood.HopcountPlusTtl | aodv_rreq.c:71-85 | for every copy of a request ever sent in any run from silence, hop count plus ttl is the ttl the originator sent it with |
| Flood.SentOnce | aodv_rreq.c:123-129 | in every run in which the records of one request live, and its originator's ids do not wrap, no node sends a second copy of it |
| Flood.FloodEnds | aodv_rreq.c:203-210 | in such a run the request is transmitted at most once by each node, so at most as often as there are nodes |
| Lifetimes.ReverseLifetimeInRangeIff | aodv_rreq.c:139 | the unsigned reverse lifetime is in 1..2^31-1 if and only if the hop count is at most 69 |
| Lifetimes.AnswerCarries | aodv_rreq.c:183-195 | every RREP answered from the table, the gratuitous one included, carries the time left on the route to the destination, as an unsigned word |
| Lifetimes.AnswerLifetimeIff | aodv_rreq.c:183 | while the clock is within 2^31 ms of the deadline, that word is in 1..2^31-1 if and only if a millisecond or more is left, 0 if and only if the deadline is within a millisecond, and wrapped if and only if it is past by one or more |
| Lifetimes.StaleAnswerStopsIff | aodv_rrep.c:179-184 | a node that takes such a RREP for a VALID route, whose own timer was set for less than 2^31 ms, loses that timer if and only if the answering node's route was overdue by a millisecond or more and the update does not break its own link |
| Discovery.CounterCounts | aodv_timeout.c:49-91 | while a discovery lasts, whatever else the node hears or does, it changes by one retry for each further request |
| Discovery.DiscoveryAsksTwice | aodv_timeout.c:49-91 | over every run of events at the node a discovery makes at most two requests, the first included |
| Discovery.StartsWithOne | aodv_rreq.c:314-362 | a discovery starts with one request, which carries the number last known, goes two hops further than the distance last known, and uses up the next id and the next own number |
| Discovery.GivesUpIff | aodv_timeout.c:49-91 | its timer gives it up, silently, if and only if both requests have been made; otherwise it asks again, further if and only if the last request did not span the network |
| Discovery.AskingHolds | aodv_rreq.c:344-350 | with each request a VALID route to the destination is held for twice NET_TRAVERSAL_TIME up to a millisecond, and no other route changes |
| DiscoveryEnds.DoSeeksExactly | routing_table.c:154-207 | an insertion or update, which leaves its route VALID, ends the discovery of its destination, and no other operation on routes ends any |
| DiscoveryEnds.DiscoveryEndsIff | aodv_socket.c:215-242 | a pending discovery ends with an event if and only if that brings a route to its destination which is taken (its destination is heard, or a RREQ from it or a RREP about it is accepted) or is the last firing of its own timer |
| DiscoveryEnds.LastsIff | aodv_timeout.c:49-91 | over every run of a node a discovery lasts throughout if and only if no such event occurs |
| Flood.InitialTtlBoundsLifetime | aodv_rreq.c:139 | in any run from silence no receiver of a request sent with a ttl of at most 69 computes a lifetime out of range |
| IntrusiveList.Insert | list.c:23-28 | insertion between two neighbours gives the circle with the node at that place |
| IntrusiveList.Remove | list.c:45-55 | removal gives the circle without the node and leaves the node unattached |
| IntrusiveList.PushFront | list.c:30-38 | the node becomes the first of the circle |
| IntrusiveList.PushBack | list.c:40-43 | the node becomes the last of the circle |
| IntrusiveList.RingIsEmpty | list.c:13-16 | the test on the head's pointers holds exactly for the empty circle |
| TimerOrder.PlaceIsFirst | timer_queue.c:145-150 | the place found is behind every timer less than a millisecond later, and before one that is later by a millisecond or more |
| TimerOrder.PlaceKeepsOrder | timer_queue.c:145-152 | insertion keeps every deadline below every later one plus a millisecond, for every new deadline |
| TimerOrder.DueIsSound | timer_queue.c:75-84 | what the harvest leaves is strictly later than now, and what it takes is due less than a millisecond after now |
| TimerOrder.StaysSortedIff | timer_queue.c:145-152 | for every queue and deadline, the queue is sorted in the plain sense after an insertion if and only if it was before and no queued deadline is later than the new one by less than a millisecond |
| TimerOrder.PlainOrderIsLost | timer_queue.h:27 | an instance in which it does not: a deadline of 1500 goes behind one of 2000 |
| Firing.FiredOnce | timer_queue.c:86-97 | no harvested timer fires twice, and no other fires |
| Firing.FiresIffUndisturbed | timer_queue.c:86-97 | a harvested timer fires if and only if no timer that fired before it removed or re-armed it |
| Firing.FiredInOrder | timer_queue.c:86-97 | timers fire in queue order |
| TimerQueue.TimerQueue.LinkedIffUsed | timer_queue.c:24-39 | in a valid queue a timer is used if and only if it is linked |
| TimerQueue.TimerQueue.Remove | timer_queue.c:24-39 | the timer leaves whichever list it is in, both lists stay well formed, and the result says whether it was in one |
| TimerQueue.TimerQueue.FindPlace | timer_queue.c:145-150 | the search ends at the specified place |
| TimerQueue.TimerQueue.Add | timer_queue.c:120-154 | the timer is linked at the place of its deadline, and nothing else moves |
| TimerQueue.TimerQueue.SetTimeout | timer_queue.c:100-118 | the timer leaves its list and is queued for now plus the delay, normalised; a negative delay leaves it unarmed |
| TimerQueue.TimerQueue.Harvest | timer_queue.c:75-84 | the due prefix of the queue becomes the list of expired timers, in order |
| TimerQueue.TimerQueue.FireAll | timer_queue.c:86-97 | whatever the handlers remove or re-arm, the loop ends with no expired timer left, having fired exactly the specified sequence, and the queue stays in order |
| TimerQueue.TimerQueue.Timeout | timer_queue.c:69-98 | harvest and firing together; with a monotone clock no timer left is due before now |
| TimerQueue.TimerQueue.AgeQueue | timer_queue.c:156-186 | with a monotone clock the sleep returned is normalised, not negative, exact for the head and too long for no timer by a millisecond or more; none is returned if and only if the queue is empty |
| RreqWindow.RecordList.Hear | aodv_rreq.c:123-129 | a request passes if and only if it has no record, and then gets a record and a timer |
| RreqWindow.RecordList.Check | aodv_rreq.c:251-264 | the search finds exactly the recorded requests |
| RreqWindow.RecordList.Age | aodv_timeout.c:18-24 | the records of the timers that are due are removed, and no others |
| RreqWindow.NextKeepsInv | aodv_rreq.c:218-249 | records stay distinct and in step with their timers, whatever other timers do |
| RreqWindow.PassedApart | aodv_rreq.c:123-129 | in every run with a monotone clock two requests of one originator and id that both pass are more than PATH_DISCOVERY_TIME less a millisecond apart |
| RreqWindow.AgedGuard | aodv_timeout.c:18-24 | an aging pass forgets every request whose window has ended and none whose window ends a millisecond or more later |
| RouteTimers.DoKeepsStep | routing_table.c:122-345 | the timer calls of each table operation keep the linked route timers exactly the running ones, each with its entry's deadline |
| RouteTimers.FireKeepsStep | aodv_timeout.c:134-166 | so does the handler of a timer that the pass has just unlinked |
| RouteTimers.OneTimerOverRuns | timer_queue.c:69-154 | over every run of table operations, passes and calls of other parts: an entry's timer is linked with a deadline if and only if it is running with it, no timer is linked twice, and the queue is in order |
| RouteTimers.PassLeavesNoneDue | timer_queue.c:69-98 | when a pass has run the handlers of all the timers it harvested, no route timer is due |
| RateLimit.Window.Admit | aodv_socket.c:157-177 | the ten slots always hold the last ten sends, and a message is refused exactly by the rule on the tenth last |
| RateLimit.Window.Shift | aodv_socket.c:167 | the slots move down by one |
| RateLimit.Send | aodv_socket.c:132-201 | each kind is limited by its own window alone, RREPs are dropped while waiting after a reboot, and acknowledgements pass |
| RateLimit.SentIsSpaced | aodv_socket.c:157-176 | with a monotone clock every send is at least a second after the tenth before it |
| RateLimit.NoSecondOverTen | aodv_socket.c:157-198 | no one-second window sees more than ten sends of one kind |
| RateLimit.DroppedIff | aodv_socket.c:157-176 | a message is dropped if and only if ten were sent in the second that ends with it |
| RerrWire.Create | aodv_rerr.c:7-23 | the buffer holds the message about one destination |
| RerrWire.AddUdest | aodv_rerr.c:25-34 | the buffer holds the message about one destination more |
| RerrWire.FitsIff | aodv_rerr.h:29 | a message of n destinations is RERR_CALC_SIZE bytes long, and fits the send buffer if and only if n is at most 127 |
| RerrWire.Walk | aodv_rerr.c:48-60 | a message shorter than RERR_CALC_SIZE is refused; otherwise exactly the counted destinations are read, from those bytes only |
| RerrWire.DecodeEncode | aodv_rerr.h:29-31 | reading back as many destinations as were written gives the same list |
| RerrWire.Layout | aodv_rerr.h:8-31 | where type, flag, count, addresses and numbers stand: addresses as the little-endian host has them, numbers in network order |
| RerrWire.RoundTrip | aodv_rerr.c:7-60 | a message built for 1 to 127 destinations is read as the same list with the same flag |
| ExpiryList.PositionIsStable | kaodv/src/kaodv_expl.c:108-120 | an entry goes behind all that expire no later and before all that expire later |
| ExpiryList.AddIff | kaodv/src/kaodv_expl.c:214-266 | adding a new destination is a map update if and only if the counter is at most 1024; it is counted either way |
| ExpiryList.UpdateIff | kaodv/src/kaodv_expl.c:434-465 | updating a known destination is a map update if and only if the counter is at most 1024; otherwise the entry is lost |
| ExpiryList.DelRemoves | kaodv/src/kaodv_expl.c:142-193 | deletion removes exactly the destination and counts it |
| ExpiryList.StatusIff | kaodv/src/kaodv_expl.c:142-266 | what an add, an update and a deletion report: an add is refused if and only if its destination is unknown and the counter is over 1024 |
| ExpiryList.KernelList.Get | kaodv/src/kaodv_expl.c:195-212 | lookup is the lookup of the map |
| ExpiryList.KernelList.Insert | kaodv/src/kaodv_expl.c:95-124 | the sorted insertion and its limit |
| ExpiryList.KernelList.AddEntry | kaodv/src/kaodv_expl.c:214-266 | the new list, counter and status of an add |
| ExpiryList.KernelList.UpdateEntry | kaodv/src/kaodv_expl.c:434-465 | the new list, counter and status of an update |
| ExpiryList.KernelList.DelEntry | kaodv/src/kaodv_expl.c:167-193 | the new list, counter and status of a deletion |
| ExpiryList.CounterOverRuns | kaodv/src/kaodv_expl.c:95-266 | over every run the list is sorted with unique destinations, and the counter exceeds its length by the number of refusals |
| ExpiryList.RefinesMap | kaodv/src/kaodv_expl.c:95-266 | a run without refusals is a run of a finite map, and the counter is the length of the list |
| ExpiryList.RefusalIsForever | kaodv/src/kaodv_expl.c:229-232 | after one refusal the counter exceeds the length in every later state |
| PacketQueue.KernelQueue.EnqueuePacket | kaodv/src/kaodv_queue.c:62-78 | a packet is accepted if and only if fewer than 1024 wait |
| PacketQueue.KernelQueue.CheckEntry | kaodv/src/kaodv_queue.c:80-94 | the search finds the oldest packet that matches |
| PacketQueue.KernelQueue.CheckDelete | kaodv/src/kaodv_queue.c:96-110 | that packet leaves, and the others keep their order |
| PacketQueue.KernelQueue.Drain | kaodv/src/kaodv_queue.c:211-226 | all packets of a destination leave, oldest first, the rest keep their order, and the ICMP error is about the oldest |
| PacketQueue.KernelQueue.FlushAll | kaodv/src/kaodv_queue.c:112-121 | every packet is dropped, oldest first |
| PacketQueue.FifoOverRuns | kaodv/src/kaodv_queue.c:62-110 | over every run the packets of a destination leave in the order in which they were accepted, and queue_total is the length and at most 1024 |
| PacketQueue.FlushDropsAll | kaodv/src/kaodv_queue.c:112-121 | a flush drops every packet that waits, and none waits afterwards |
| PacketQueue.Conservation | kaodv/src/kaodv_queue.c:206-265 | every accepted packet is queued, sent or dropped, exactly once |
| KernelPeer.Module.SendAll | kaodv/src/kaodv_queue.c:227-262 | all packets of a destination leave along its route, or are freed if it has none; the count is of those sent |
| KernelPeer.Module.SetVerdict | kaodv/src/kaodv_queue.c:206-265 | the two verdicts and the others, which do nothing |
| KernelPeer.Module.ReceivePeer | kaodv/src/kaodv_netlink.c:172-234 | each message's effect on routes, queue and timeout, and which are refused |
| KernelPeer.Module.Output | kaodv/src/kaodv_mod.c:149-158 | a packet without a usable route waits, and the daemon is asked exactly for the first one of its destination |
| KernelPeer.NoneWaitsOverRuns | kaodv/src/kaodv_netlink.c:183-218 | over every run no packet waits for a destination that has a usable route |
| KernelPeer.PeerMirrorsIff | kaodv/src/kaodv_netlink.c:183-207 | the kernel's copy follows an added route if and only if the list is not over its limit, and a deleted one always |
| KernelPeer.AddRouteReleases | kaodv/src/kaodv_netlink.c:183-197 | an added route empties the queue of its destination: sent along that route below the limit, dropped above it |
| KernelPeer.NoRouteDrops | kaodv/src/kaodv_netlink.c:199-217 | a message that a route is gone or was not found drops exactly the packets that wait for its destination, oldest first, and leaves all others alone |
| KernelPeer.OthersWait | kaodv/src/kaodv_netlink.c:183-234 | an added route leaves packets for other destinations alone, and configuration, short and unknown messages leave routes and packets alone |
| KernelPeer.AddRouteStores | kaodv/src/kaodv_netlink.c:183-197 | below the limit an added route is stored as the message says, until the message's time is over, and no other route changes |
| KernelPeer.UsableIff | kaodv/src/kaodv_mod.c:149-158 | below the limit packets for the destination of an added route pass if and only if it is not under repair, for a deleted one they wait, and other destinations are not affected |
| KernelPeer.OutputKeeps | kaodv/src/kaodv_mod.c:149-158 | a packet without a usable route becomes the last that waits for its destination and the last ever accepted if and only if fewer than 1024 wait, and nothing else changes |
| KernelPeer.WaitsForDecision | kaodv/src/kaodv_netlink.c:183-217 | such a packet waits over every run until the daemon decides about its destination, and is then among those sent along the new route below the limit, or among those dropped |
| KernelPeer.TimeoutOverRuns | kaodv/src/kaodv_netlink.c:219-227 | over every run the timeout is that of the last configuration message |
| InternetChecksum.TwoFoldsSuffice | kaodv/src/kaodv_ipenc.c:18-19 | two folds give the one's complement sum of every 32-bit sum |
| InternetChecksum.ChecksumIsOnesComplement | kaodv/src/kaodv_ipenc.c:9-22 | the checksum is right for every buffer of up to 65537 words |
| InternetChecksum.OneWordMoreIsTooMany | kaodv/src/kaodv_ipenc.c:11-16 | for 65538 words it is not |
| InternetChecksum.FinishedSumsToZero | kaodv/src/kaodv_ipenc.c:66-74 | a block that contains its own checksum sums to zero |
| InternetChecksum.IpCsum | kaodv/src/kaodv_ipenc.c:9-22 | the loop over a 32-bit register and the folds compute that checksum |
| MinimalEncap.Encapsulate | kaodv/src/kaodv_ipenc.c:24-84 | the copies and field updates give the specified packet |
| MinimalEncap.SkBuff.Decapsulate | kaodv/src/kaodv_ipenc.c:86-108 | the updates in place give the specified packet |
| MinimalEncap.RoundTrip | kaodv/src/kaodv_ipenc.c:24-108 | decapsulation after encapsulation restores every header field and payload byte, with the id that was chosen and the header checksum computed afresh |
| MinimalEncap.EncapsulatedFields | kaodv/src/kaodv_ipenc.c:44-81 | an encapsulated packet goes to the gateway as protocol 55, eight bytes longer, with its old protocol, destination and payload behind the header, and nothing else of the header changes but checksum and a missing id |
| MinimalEncap.RoundTripIff | kaodv/src/kaodv_ipenc.c:78-81 | the packet comes back unchanged if and only if its checksum was right and it needed no new id |
| MinimalEncap.HeadersVerify | kaodv/src/kaodv_ipenc.c:63-76 | the finished inner header and the outer header sum to zero |
| MinimalEncap.OuterVerifiesIff | kaodv/src/kaodv_ipenc.c:76-81 | the outer header sums to zero if and only if the packet had an id or the new one is 0 or 0xffff |

## Left out

* HELLO messages, which `main.c:405` disables, and `hello_timer`.
* Local repair: RT_REPAIR is never set while `local_repair` is 0, so its branches are not in the model.
* Gateways, Internet destinations, link quality, the expiry timer of the kernel list (not compiled in) and interface handling.
* Overflow of 32-bit clocks, of the counters of routes, and of hop counts stored in a byte.
* `rt_table_update_route_timeouts` and the kernel hook's own extension of routes: they move deadlines of VALID entries only, as `TableRuns.Op.Prolong` does.
* `precursor_remove`, which nothing calls.
* Messages of a wrong length, except where a handler tests the length; what lies behind a short message in the receive buffer is not modelled.
* The acknowledgement and discovery timers as members of the timer queue: `RouteTimers.dfy` counts them among the timers of other parts, whose calls are arbitrary.
* Freed memory: a freed timer or entry is one that is no longer used.
* Packets the kernel refuses because the queue is full: the hook does not look at the result, and they are neither freed nor sent.
* Failing allocations, sockets, netlink transport, kernel locks, `ip_route_me_harder`, `icmp_send` and the other netfilter hooks.
* The destination address that a route message or a hook compares with the broadcast address of the device.
* RerrWire.AddUdest: the code does not test that the buffer has room; the contract requires fewer than 127 destinations so far, which is exactly when it has (`RerrWire.FitsIff`).
* RreqWindow.RecordList.Age: the timer queue is a sequence here and in `RouteTimers.dfy`; the linked one is in `TimerQueue.dfy`.
* MinimalEncap.Encapsulate: the id that the kernel chooses for a packet without one is a parameter.
