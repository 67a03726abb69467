# Verified models of the port mapper and of the hard helpers around it

This project models the iWARP port mapper daemon (`iwpmd`) of rdma-core and several small but intricate pieces of the
same tree, and proves what they promise. Everything is plain Dafny; `dafny verify dfyconfig.toml` checks all of it.

The port mapper:

- `Addresses`, `PortTable`, `Requests`: socket addresses, the table of mapped ports with its wildcard matching and
  reference counts, and the tracking objects with their timeouts.
- `Daemon`: each client request, wire message and timer pass as a function on the daemon's state, with outcomes of
  system calls as parameters, and the invariant that each of them keeps.
- `Conversations`: what one or several such steps achieve together: undoing, answering, deduplication, the whole
  handshake, recovery after a restart.
- `Effects`: case by case when each handler succeeds, whom it tells what, which object it leaves and which message it
  queues, and that nothing else changes; the handshake that ends in a reject.
- `Network`: several daemons over a network that loses, duplicates and reorders, and the theorems over all runs.
- `Repeats`: one daemon over any sequence of its events: repeated requests and repeated accepts.
- `Reuse`: the run that shows what the reuse of handles can do to agreement.
- `PortMapper`: the daemon as a class that updates its lists in place, proved to take exactly the steps of `Network`.
- `Threads`: the three threads and two condition variables at the granularity of critical sections.
- `Wire`: the bytes of the messages.

Beside it: `CircularList` (the intrusive list and its checker), `Graphs` and `LibraryGraph` (the transitive reduction of
library dependencies), `Bits` and `IntLog` (all versions of the integer logarithm), `RouteTrace` (the unicast route
tracer over any fabric, and its GUID table), `StrCount`, `RouteText`, `HexMask` and `Counters`.

Where the code does something else than a reader might expect, the model follows the code:

- A query that fails only when its first copy is queued reports failure but keeps its mapping and its tracking object
  (`Conversations.QueryMappingEffect`, `Conversations.QueryKeepsMappingOnSendFailure`).
- A query with a wildcard local address borrows a specific port with the same number. Its request then names the
  wildcard, and within one family no reply can reach the query (`Conversations.WildcardQueryUnanswered`, with the exact
  condition for all queries in `Conversations.AnswerableIff`).
- A query's handle is the address of its tracking object. Once the object has expired the address may come back as the
  handle of another query, and a late accept then answers that one (`Reuse.ReuseMisleads`, with the exact condition in
  `Reuse.ReuseSafeIff` and `Network.Agreement`).
- A request without a handle is never recognised when it is repeated, its acknowledgement has no effect, and its object
  may share its number with that of another conversation (`Conversations.UnnamedRequestRepeats`,
  `Conversations.AckCompletesItsAccept`, `Daemon.WireRequestInv`).
- A wildcard address finds different ports in different orders of the list (`PortTable.WildcardLookupDependsOnOrder`,
  with the exact condition in `PortTable.OrderIrrelevantIff`).
- A message queued before the sender thread first waits is not noticed until the next one
  (`Threads.LostFirstWakeUp`, with the exact condition in `Threads.NoLostSenderWakeUp`).
- A route that is complete only after the last permitted hop is reported as not found
  (`RouteTrace.LastHopRefused`, with the exact bound in `RouteTrace.TraceableIff`).
- Counting an empty needle does not end (`StrCount.EndsIffNeedleNotEmpty`).
- A comma list of more than 64 fields is written past its array, and a printed byte array may put its terminator past
  its buffer (the exact bounds are in `RouteText.DrPath.FromText` and `HexMask.DumpArray`).
- A parsed mask leaves the leading bytes of its buffer alone (`HexMask.StoredValueIff`).
- A 48-byte request takes its mapped address from what the receive buffer held (`Wire.DependsOnDatagramIff`).

## Model

| member | source | states |
|---|---|---|
| `Network.Agreement` | open-rdma-driver/dtld-ibverbs/rdma-core-55.0/iwpmd/iwarp_pm_server.c:640-796 | In every run over a network that loses, duplicates and reorders, for every query whose handle was not shared with a query for another address: when a client is told that R is mapped to M, the daemon that R leads to had a listed port that accounts for M (R itself mapped to M, or a wildcard port with R's number, M being R's IP address with the mapped number); after the query was asked, if no other query's replies reach it |
| `Network.AnswerOrigin` | open-rdma-driver/dtld-ibverbs/rdma-core-55.0/iwpmd/iwarp_pm_server.c:418-796 | Whatever addresses are used again as handles: every answer comes from a port listed, after some query with that handle was asked, at the daemon which that query asked |
| `Reuse.ReuseMisleads` | open-rdma-driver/dtld-ibverbs/rdma-core-55.0/iwpmd/iwarp_pm_helper.c:48-82 | For all addresses and every handle: the run in which a late accept of an expired conversation answers a new query that got its address, so that a client asking for one address is told the mapping of another; the condition of Agreement cannot be dropped |
| `Reuse.ReuseSafeIff` | open-rdma-driver/dtld-ibverbs/rdma-core-55.0/iwpmd/iwarp_pm_helper.c:48-82 | Two queries from one address under one handle: over all runs, the answer to the second is accounted for by a port listed where it asked, if and only if both ask for the same address |
| `Network.AtMostOneAnswer` | open-rdma-driver/dtld-ibverbs/rdma-core-55.0/iwpmd/iwarp_pm_helper.c:125-160 | In every run and every state no query has more than one connection-info message, whatever accepts, rejects, duplicates and ticks happened and whatever addresses are used again |
| `Network.AlwaysInv` | open-rdma-driver/dtld-ibverbs/rdma-core-55.0/iwpmd/iwarp_pm_server.c:314-957 | Every daemon in every reachable state has a conflict-free table, balanced references, well-formed tracking objects, no two live ones for one conversation in one role, and answers each query at most once |
| `Network.LocalMappingReported` | open-rdma-driver/dtld-ibverbs/rdma-core-55.0/iwpmd/iwarp_pm_server.c:754-792 | The mapped local address in the answer is the one of the query's port, if the local address stayed listed between the query and the answer; and it is the one the request carried, unless replies to a query for another address reach the query |
| `Network.MappingConstant` | open-rdma-driver/dtld-ibverbs/rdma-core-55.0/iwpmd/iwarp_pm_helper.c:337-344 | While an address stays listed its mapping never changes, over any stretch of a run |
| `Network.NewTraffic` | open-rdma-driver/dtld-ibverbs/rdma-core-55.0/iwpmd/iwarp_pm_server.c:418-882 | A step makes a daemon carry a new message only for a client's query (its own request) or for a delivered message (the reply to it) |
| `Network.HostNextInv` | open-rdma-driver/dtld-ibverbs/rdma-core-55.0/iwpmd/iwarp_pm_server.c:314-957 | Each event of one daemon keeps the daemon's invariant, if and only if it is not a request without a handle that collides |
| `Daemon.AddMappingInv` | open-rdma-driver/dtld-ibverbs/rdma-core-55.0/iwpmd/iwarp_pm_server.c:314-398 | Adding a mapping keeps conflict freedom, the reference balance and the tracking invariants, on every outcome of bind, allocation and reply |
| `Daemon.QueryMappingInv` | open-rdma-driver/dtld-ibverbs/rdma-core-55.0/iwpmd/iwarp_pm_server.c:418-531 | The same for a query, whose object is allocated where no live query object is; the address may have been a handle before |
| `Daemon.RemoveMappingInv` | open-rdma-driver/dtld-ibverbs/rdma-core-55.0/iwpmd/iwarp_pm_server.c:539-578 | The same for removal by an owner or by anybody else |
| `Daemon.MapInfoInv` | open-rdma-driver/dtld-ibverbs/rdma-core-55.0/iwpmd/iwarp_pm_server.c:901-957 | The same for a mapping reported after a restart |
| `Daemon.WireRequestInv` | open-rdma-driver/dtld-ibverbs/rdma-core-55.0/iwpmd/iwarp_pm_server.c:640-716 | The same for a peer's request, with timer passes between its critical sections, in particular at most one live ACCEPT object per handle and mapped address: if and only if it is not a request without a handle whose object gets an address that a live ACCEPT object has as its handle |
| `Conversations.CollisionHappens` | open-rdma-driver/dtld-ibverbs/rdma-core-55.0/iwpmd/iwarp_pm_helper.c:64-76 | Such a collision does happen: for every mapped address and every handle, a request under that handle and then one without a handle |
| `Daemon.WireAcceptInv` | open-rdma-driver/dtld-ibverbs/rdma-core-55.0/iwpmd/iwarp_pm_server.c:735-796 | The same for an accept: a query is answered only when its object turns complete |
| `Daemon.WireRejectInv` | open-rdma-driver/dtld-ibverbs/rdma-core-55.0/iwpmd/iwarp_pm_server.c:806-855 | The same for a reject |
| `Daemon.WireAckInv` | open-rdma-driver/dtld-ibverbs/rdma-core-55.0/iwpmd/iwarp_pm_server.c:861-882 | The same for an acknowledgement |
| `Daemon.TickInv` | open-rdma-driver/dtld-ibverbs/rdma-core-55.0/iwpmd/iwarp_pm_server.c:115-138 | A pass of the timer keeps the invariant, whichever retransmissions fail to be copied |
| `Conversations.ListedIffReferenced` | open-rdma-driver/dtld-ibverbs/rdma-core-55.0/iwpmd/iwarp_pm_server.c:338-398 | Under the invariant an address is listed exactly while more references were taken on it than given back, and its count is the difference |
| `Conversations.AddMappingEffect` | open-rdma-driver/dtld-ibverbs/rdma-core-55.0/iwpmd/iwarp_pm_server.c:338-398 | A failing add leaves table, counts, requests and messages as they were; a successful one takes one reference on the requested address, reports that address's mapping and leaves all others alone |
| `Conversations.QueryMappingEffect` | open-rdma-driver/dtld-ibverbs/rdma-core-55.0/iwpmd/iwarp_pm_server.c:447-531 | A query leaves no trace if and only if it did not get as far as posting; it succeeds if and only if it was posted and its first copy was queued; then there is exactly one new open QUERY object and one more reference on the address of the port used |
| `Conversations.QueryKeepsMappingOnSendFailure` | open-rdma-driver/dtld-ibverbs/rdma-core-55.0/iwpmd/iwarp_pm_server.c:508-531 | The failing family: a query whose first copy cannot be queued reports failure and keeps its mapping |
| `Conversations.RemoveMappingEffect` | open-rdma-driver/dtld-ibverbs/rdma-core-55.0/iwpmd/iwarp_pm_server.c:559-575 | The owner's exact address loses one reference and leaves the list exactly when it held one; nobody else changes anything |
| `Conversations.DispatchOut` | open-rdma-driver/dtld-ibverbs/rdma-core-55.0/iwpmd/iwarp_pm_server.c:735-855 | An accept or reject tells nobody anything unless the matched object is an open query, and then exactly its client |
| `Conversations.AnsweredIffAnswerable` | open-rdma-driver/dtld-ibverbs/rdma-core-55.0/iwpmd/iwarp_pm_server.c:757-792 | While the query is open and its port listed, an accept or reject of its request is answered if and only if the request names the port's own address |
| `Conversations.AnswerableIff` | open-rdma-driver/dtld-ibverbs/rdma-core-55.0/iwpmd/iwarp_pm_server.c:447-500 | Exactly which posted queries can be answered: within one family those from a specific address; across families only those from a wildcard address that borrows a port of the remote's family whose IP address equals the bytes read from the wildcard address's storage |
| `Conversations.WildcardQueryUnanswered` | open-rdma-driver/dtld-ibverbs/rdma-core-55.0/iwpmd/iwarp_pm_server.c:447-488 | For every mapped specific address: a query from the wildcard address with its number is posted and cannot be answered |
| `Conversations.UnnamedRequestRepeats` | open-rdma-driver/dtld-ibverbs/rdma-core-55.0/iwpmd/iwarp_pm_server.c:673-716 | A request without a handle is never recognised: every copy is accepted anew and told to the client again |
| `Conversations.AckCompletesItsAccept` | open-rdma-driver/dtld-ibverbs/rdma-core-55.0/iwpmd/iwarp_pm_server.c:861-882 | While the port is listed the acknowledgement built from an accept completes exactly the object that sent that accept, wildcard ports included, if and only if the request had a handle |
| `Conversations.SpecificRequestServed` | open-rdma-driver/dtld-ibverbs/rdma-core-55.0/iwpmd/iwarp_pm_server.c:653-672 | A request for a specific address is accepted at an address that its port serves |
| `Conversations.Handshake` | open-rdma-driver/dtld-ibverbs/rdma-core-55.0/iwpmd/iwarp_pm_server.c:418-882 | Without losses query, request, accept and acknowledgement end with the querying client told the peer's mapping, the peer's client told the querying side's, and both conversations complete |
| `Conversations.ReplayRebuilds` | open-rdma-driver/dtld-ibverbs/rdma-core-55.0/iwpmd/iwarp_pm_server.c:925-949 | Replaying rebindable mappings into an empty table rebuilds exactly those mappings with their owners if and only if no two of them conflict, in any order |
| `Network.RestartRecovers` | open-rdma-driver/dtld-ibverbs/rdma-core-55.0/iwpmd/iwarp_pm_server.c:901-957 | From any state that keeps the invariant, a daemon that starts over and is told the listed mappings, once each, by their owners, in any order and with successful binds, has for every address the port with the same owner and mapping as before |
| `Conversations.ReplayAgain` | open-rdma-driver/dtld-ibverbs/rdma-core-55.0/iwpmd/iwarp_pm_server.c:925-949 | Replaying mappings that are listed already changes only the counters, of each client by the number of its reports |
| `Conversations.KnownMappingCounted` | open-rdma-driver/dtld-ibverbs/rdma-core-55.0/iwpmd/iwarp_pm_server.c:925-949 | One report of a listed mapping changes only the counter |
| `Effects.AddMappingDecides` | open-rdma-driver/dtld-ibverbs/rdma-core-55.0/iwpmd/iwarp_pm_server.c:338-398 | An add succeeds if and only if its reply gets through and the address conflicts with nothing listed and a port can be had, or is a wildcard that is listed; a conflicting address is refused with code 12, a port that cannot be had with code 11, and a failed reply says nothing |
| `Effects.AddMappingResult` | open-rdma-driver/dtld-ibverbs/rdma-core-55.0/iwpmd/iwarp_pm_server.c:338-398 | A successful add takes one reference on the listed wildcard, or lists a port of the client's own for the address; it sends one reply with that port's mapping and changes nothing else |
| `Effects.MapInfoDecides` | open-rdma-driver/dtld-ibverbs/rdma-core-55.0/iwpmd/iwarp_pm_server.c:925-957 | A report succeeds if and only if the mapping is listed as reported, or its address conflicts with nothing and its port can be opened again; a contradicting one is refused with code 12, one that cannot be opened with code 11 |
| `Effects.MapInfoResult` | open-rdma-driver/dtld-ibverbs/rdma-core-55.0/iwpmd/iwarp_pm_server.c:925-949 | A report lists the reported port if its address was free, and otherwise leaves the table alone; beside table, counters and notices it changes nothing |
| `Effects.MapInfoCounted` | open-rdma-driver/dtld-ibverbs/rdma-core-55.0/iwpmd/iwarp_pm_server.c:932-949 | A report is counted, once and for its own client, if and only if it succeeds |
| `Effects.QueryMappingDecides` | open-rdma-driver/dtld-ibverbs/rdma-core-55.0/iwpmd/iwarp_pm_server.c:447-531 | A query is posted if and only if it has a port, that port is for a specific address, the remote address is an internet address and memory is there; a missing or wildcard port is told with code 11, the other failures say nothing |
| `Effects.QueryPosted` | open-rdma-driver/dtld-ibverbs/rdma-core-55.0/iwpmd/iwarp_pm_server.c:463-520 | A posted query puts an object good for ten ticks at the head of the list and queues a request to port 3935 of the remote host that names the remote, the local and the mapped local address under the query's handle |
| `Effects.QueryRetransmitted` | open-rdma-driver/dtld-ibverbs/rdma-core-55.0/iwpmd/iwarp_pm_helper.c:48-82 | With no answer, the object of every posted query stays through ten ticks, is gone from the eleventh, and its request has then been queued exactly nine times more |
| `Effects.TimerRetransmits` | open-rdma-driver/dtld-ibverbs/rdma-core-55.0/iwpmd/iwarp_pm_server.c:115-138 | Undisturbed passes of the timer whose copies succeed queue exactly those retransmissions and change nothing but ages |
| `Effects.UnknownRejected` | open-rdma-driver/dtld-ibverbs/rdma-core-55.0/iwpmd/iwarp_pm_server.c:653-663 | A request for an address that conflicts with nothing listed queues one reject with its addresses and handle to where it came from, and changes nothing else |
| `Effects.RequestAdmitted` | open-rdma-driver/dtld-ibverbs/rdma-core-55.0/iwpmd/iwarp_pm_server.c:664-716 | A request for a listed address that is not being tracked puts an object good for ten ticks at the head of the list, queues the accept, naming the port's mapping or for a wildcard port the requested IP address with the mapped number, and then tells the port's owner; a failure stops it there, and nothing else changes |
| `Effects.RequestWithoutMemory` | open-rdma-driver/dtld-ibverbs/rdma-core-55.0/iwpmd/iwarp_pm_server.c:681-703 | Without memory such a request changes nothing |
| `Effects.TrackedIgnored` | open-rdma-driver/dtld-ibverbs/rdma-core-55.0/iwpmd/iwarp_pm_server.c:672-680 | A request changes nothing if a live ACCEPT object has its handle and the address it would be accepted at, and only then is it taken for a retransmission |
| `Effects.AcceptRetransmitted` | open-rdma-driver/dtld-ibverbs/rdma-core-55.0/iwpmd/iwarp_pm_server.c:115-138 | With no acknowledgement, the object of every accepted request stays through ten ticks, is gone from the eleventh, and its accept has then been queued exactly nine times more |
| `Effects.AcceptAnswers` | open-rdma-driver/dtld-ibverbs/rdma-core-55.0/iwpmd/iwarp_pm_server.c:754-796 | The awaited accept completes its query, tells its client both mappings, leaves an ACK object good for ten ticks and queues the acknowledgement to its sender, each step only if those before it succeed; nothing else changes |
| `Effects.AcceptReacknowledged` | open-rdma-driver/dtld-ibverbs/rdma-core-55.0/iwpmd/iwarp_pm_server.c:757-792 | An accept that meets an ACK object tells nobody anything, makes the object good for ten more ticks and queues the acknowledgement again; nothing else changes |
| `Effects.ReacknowledgedIff` | open-rdma-driver/dtld-ibverbs/rdma-core-55.0/iwpmd/iwarp_pm_server.c:757-792 | With no obstacle an accept is acknowledged without telling anybody if and only if the first object it concerns is an ACK object |
| `Effects.RejectAnswers` | open-rdma-driver/dtld-ibverbs/rdma-core-55.0/iwpmd/iwarp_pm_server.c:825-855 | The awaited reject completes its query and tells its client the remote address itself with code 16; nothing else changes |
| `Effects.LateAnswerIgnored` | open-rdma-driver/dtld-ibverbs/rdma-core-55.0/iwpmd/iwarp_pm_server.c:750-767 | An accept or reject that concerns no tracked object, or one that is complete, changes nothing |
| `Effects.AckDecides` | open-rdma-driver/dtld-ibverbs/rdma-core-55.0/iwpmd/iwarp_pm_server.c:861-882 | An acknowledgement completes the first ACCEPT object with its handle and address if some listed port is mapped there, and otherwise changes nothing |
| `Effects.RejectedHandshake` | open-rdma-driver/dtld-ibverbs/rdma-core-55.0/iwpmd/iwarp_pm_server.c:418-855 | Query, request at a peer that lists no such address, and reject end with exactly one answer to the query: the remote address itself, with code 16 |
| `Repeats.RepeatedRequestIgnored` | open-rdma-driver/dtld-ibverbs/rdma-core-55.0/iwpmd/iwarp_pm_server.c:653-680 | After a request with a handle was accepted, whatever the daemon then does, for ten timer passes and until an acknowledgement, a repetition that would be accepted at the same address changes nothing at all |
| `Repeats.RepeatedAcceptAcknowledged` | open-rdma-driver/dtld-ibverbs/rdma-core-55.0/iwpmd/iwarp_pm_server.c:757-792 | After an accept answered its query, whatever the daemon then does for ten timer passes, short of a restart or a new query under the old handle, the same accept again tells nobody anything, is acknowledged to its sender, and makes the ACK object good for ten more ticks |
| `PortTable.MissMeansNoConflict` | open-rdma-driver/dtld-ibverbs/rdma-core-55.0/iwpmd/iwarp_pm_helper.c:394-413 | A lookup that misses proves that the address conflicts with no listed one |
| `PortTable.LookupIgnoresOrder` | open-rdma-driver/dtld-ibverbs/rdma-core-55.0/iwpmd/iwarp_pm_helper.c:394-413 | In a conflict-free table the lookup of a specific local address finds the same port in every order of the list |
| `PortTable.OrderIrrelevantIff` | open-rdma-driver/dtld-ibverbs/rdma-core-55.0/iwpmd/iwarp_pm_helper.c:394-413 | For every table and address, a lookup gives the same answer in every order of the list if and only if all ports that match are equal |
| `PortTable.WildcardLookupIff` | open-rdma-driver/dtld-ibverbs/rdma-core-55.0/iwpmd/iwarp_pm_helper.c:394-413 | For a wildcard address that is so if and only if no two different listed ports have its number |
| `PortTable.WildcardLookupDependsOnOrder` | open-rdma-driver/dtld-ibverbs/rdma-core-55.0/iwpmd/iwarp_pm_helper.c:394-413 | Any two specific addresses with one number may be listed together, and then the lookup of a wildcard address with that number depends on their order |
| `PortTable.UniqueHit` | open-rdma-driver/dtld-ibverbs/rdma-core-55.0/iwpmd/iwarp_pm_helper.c:394-413 | At most one listed port matches a non-wildcard local address |
| `PortTable.RefsAtIsEntry` | open-rdma-driver/dtld-ibverbs/rdma-core-55.0/iwpmd/iwarp_pm_helper.c:423-438 | All references on an address are those of the one entry that the lookup by equality finds |
| `PortTable.CreatePort` | open-rdma-driver/dtld-ibverbs/rdma-core-55.0/iwpmd/iwarp_pm_helper.c:278-298 | A port is created if and only if memory is there and mapping is off or the bind of an internet address succeeds; it is owned once, for the address asked for, mapped to that address with the number from bind, or to itself when mapping is off |
| `PortTable.ReopenPort` | open-rdma-driver/dtld-ibverbs/rdma-core-55.0/iwpmd/iwarp_pm_helper.c:306-331 | A port is reopened if and only if the families agree, memory is there and mapping is off or the bind succeeds; it has the recorded mapping, with the number from bind only if the recorded number is 0 |
| `Requests.NineRetransmissions` | open-rdma-driver/dtld-ibverbs/rdma-core-55.0/iwpmd/iwarp_pm_server.c:115-138 | An unanswered QUERY or ACCEPT object anywhere in the list is kept through ten ticks, gone from the eleventh, and adds exactly nine retransmissions to those of the others |
| `Requests.TickSendsLast` | open-rdma-driver/dtld-ibverbs/rdma-core-55.0/iwpmd/iwarp_pm_server.c:118-135 | An object's message joins the front of the queue in a tick exactly when it is due and its copy could be made |
| `Requests.CompletedNeverResent` | open-rdma-driver/dtld-ibverbs/rdma-core-55.0/iwpmd/iwarp_pm_helper.c:142-153 | A completed object adds no retransmission, ever, and is gone after the next tick |
| `Requests.DrainsInElevenTicks` | open-rdma-driver/dtld-ibverbs/rdma-core-55.0/iwpmd/iwarp_pm_server.c:115-138 | Without input the request list is empty after eleven ticks |
| `Requests.TicksSplit` | open-rdma-driver/dtld-ibverbs/rdma-core-55.0/iwpmd/iwarp_pm_server.c:115-138 | Objects age and retransmit independently of each other |
| `Requests.TickKeepsNoClash` | open-rdma-driver/dtld-ibverbs/rdma-core-55.0/iwpmd/iwarp_pm_server.c:115-138 | A tick keeps the list free of two objects for one conversation in one role, and of acknowledgement objects in front of an open query with their handle |
| `PortMapper.PortMapper.Handle` | open-rdma-driver/dtld-ibverbs/rdma-core-55.0/iwpmd/iwarp_pm_server.c:95-957 | The imperative daemon, given any event but a transmission or a restart, keeps its invariant and changes its state exactly as the event does in the runs of the network |
| `PortMapper.PortMapper.Transmit` | open-rdma-driver/dtld-ibverbs/rdma-core-55.0/iwpmd/iwarp_pm_server.c:147-191 | A run of the sender is an event of the network: the packets are exactly the messages that went out, all of them pending before |
| `PortMapper.PortMapper.Attempt` | open-rdma-driver/dtld-ibverbs/rdma-core-55.0/iwpmd/iwarp_pm_server.c:168-184 | A message goes out if and only if one of three attempts succeeds |
| `PortMapper.PortMapper.FindMapping` | open-rdma-driver/dtld-ibverbs/rdma-core-55.0/iwpmd/iwarp_pm_helper.c:394-413 | The loop over the list finds the first port that equals the address or shares its number with a wildcard on either side |
| `PortMapper.PortMapper.FindSameMapping` | open-rdma-driver/dtld-ibverbs/rdma-core-55.0/iwpmd/iwarp_pm_helper.c:423-438 | The loop finds the first port with the equal address |
| `PortMapper.PortMapper.UpdateMapRequest` | open-rdma-driver/dtld-ibverbs/rdma-core-55.0/iwpmd/iwarp_pm_helper.c:125-160 | Finds the first object with handle, source and role, returns a copy of it as it was, and completes it or, for ACK, renews its timeout |
| `PortMapper.PortMapper.TimerPass` | open-rdma-driver/dtld-ibverbs/rdma-core-55.0/iwpmd/iwarp_pm_server.c:108-138 | The removing and retransmitting loop has the effect of one tick on the list and on the queue |
| `PortMapper.PortMapper.SenderPass` | open-rdma-driver/dtld-ibverbs/rdma-core-55.0/iwpmd/iwarp_pm_server.c:155-190 | Empties the queue; exactly the messages that one of three attempts accepted go out, in order |
| `PortMapper.PortMapper.AddMapping` | open-rdma-driver/dtld-ibverbs/rdma-core-55.0/iwpmd/iwarp_pm_server.c:314-398 | Takes the reference or creates the port, replies, and undoes the reference when the reply fails |
| `PortMapper.PortMapper.QueryMapping` | open-rdma-driver/dtld-ibverbs/rdma-core-55.0/iwpmd/iwarp_pm_server.c:418-531 | Reserves the port, posts the request or undoes the reservation |
| `PortMapper.PortMapper.RemoveMapping` | open-rdma-driver/dtld-ibverbs/rdma-core-55.0/iwpmd/iwarp_pm_server.c:539-578 | Gives one reference back and unlinks the port with the last one |
| `PortMapper.PortMapper.MapInfo` | open-rdma-driver/dtld-ibverbs/rdma-core-55.0/iwpmd/iwarp_pm_server.c:901-957 | Reopens an unknown mapping, refuses a different one, counts a known one |
| `PortMapper.PortMapper.WireRequest` | open-rdma-driver/dtld-ibverbs/rdma-core-55.0/iwpmd/iwarp_pm_server.c:640-716 | Rejects, ignores or accepts a request, with timer passes in between |
| `PortMapper.PortMapper.WireAccept` | open-rdma-driver/dtld-ibverbs/rdma-core-55.0/iwpmd/iwarp_pm_server.c:735-796 | Answers and acknowledges, only re-acknowledges, or ignores an accept |
| `PortMapper.PortMapper.WireReject` | open-rdma-driver/dtld-ibverbs/rdma-core-55.0/iwpmd/iwarp_pm_server.c:806-855 | Answers with the error, or ignores a reject |
| `PortMapper.PortMapper.WireAck` | open-rdma-driver/dtld-ibverbs/rdma-core-55.0/iwpmd/iwarp_pm_server.c:861-882 | Completes the matching ACCEPT object |
| `Threads.NoLostTimerWakeUp` | open-rdma-driver/dtld-ibverbs/rdma-core-55.0/iwpmd/iwarp_pm_server.c:95-142 | In every run of the three threads the timer never waits with a request listed unless its signal has been delivered; the flag that saves signals is down while it waits and up while it works |
| `Threads.NoLostSenderWakeUp` | open-rdma-driver/dtld-ibverbs/rdma-core-55.0/iwpmd/iwarp_pm_server.c:147-191 | From the sender's first wait on, it never waits on a non-empty queue without a signal delivered or owed, if and only if at that wait the queue is empty or a signal is owed |
| `Threads.TimerServes` | open-rdma-driver/dtld-ibverbs/rdma-core-55.0/iwpmd/iwarp_pm_server.c:95-142 | In every reachable state with a request listed the timer is in a pass or at most two steps of its own away, without spurious wake-ups |
| `Threads.TimerRests` | open-rdma-driver/dtld-ibverbs/rdma-core-55.0/iwpmd/iwarp_pm_server.c:100-138 | With nothing listed the timer waits after at most six steps of its own |
| `Threads.SenderServes` | open-rdma-driver/dtld-ibverbs/rdma-core-55.0/iwpmd/iwarp_pm_server.c:155-190 | An alert sender with a message queued has a signal delivered or owed, and taking it empties the queue |
| `Threads.LostFirstWakeUp` | open-rdma-driver/dtld-ibverbs/rdma-core-55.0/iwpmd/iwarp_pm_helper.c:494-509 | The run in which a message queued and signalled before the first wait is left until the next one |
| `Wire.ReadBackIff` | open-rdma-driver/dtld-ibverbs/rdma-core-55.0/iwpmd/iwarp_pm_common.c:379-438 | A formed message parses back to every carried field if and only if the IP version is 4 or 6 and version and type are below 4; the mapped fields exactly for requests |
| `Wire.RoundTrip` | open-rdma-driver/dtld-ibverbs/rdma-core-55.0/iwpmd/iwarp_pm_common.c:379-438 | What parsing makes of any formed message: each packed field modulo its width, an error for other IP versions |
| `Wire.ParsedIsFormed` | open-rdma-driver/dtld-ibverbs/rdma-core-55.0/iwpmd/iwarp_pm_common.c:379-438 | Every message that parses is byte for byte the one its parameters form, the request-only fields zeroed in the other types |
| `Wire.Offsets` | open-rdma-driver/dtld-ibverbs/rdma-core-55.0/iwpmd/iwarp_pm_common.c:420-438 | Where every field is in a formed message, and what the first byte is made of |
| `Wire.HandleAt` | open-rdma-driver/dtld-ibverbs/rdma-core-55.0/iwpmd/iwarp_pm_common.c:424-424 | The handle is in network order |
| `Wire.TypesOnTheWire` | open-rdma-driver/dtld-ibverbs/rdma-core-55.0/iwpmd/iwarp_pm_common.c:445-490 | Requests have type 0 and 64 bytes, accepts type 1, acknowledgements type 2 and rejects type 3, all with 48 bytes; the IP version is 4 or 6 |
| `Wire.MagicRoundTrip` | open-rdma-driver/dtld-ibverbs/rdma-core-55.0/iwpmd/iwarp_pm_common.c:425-428 | The three fields of the first byte do not disturb each other |
| `Wire.Carried` | open-rdma-driver/dtld-ibverbs/rdma-core-55.0/iwpmd/iwarp_pm_server.c:1245-1263 | A message sent at the length of its type is received whole, whatever the receive buffer held |
| `Wire.DependsOnDatagramIff` | open-rdma-driver/dtld-ibverbs/rdma-core-55.0/iwpmd/iwarp_pm_server.c:1245-1263 | What is received depends on the datagram alone if and only if it is not a request of 48 bytes |
| `Wire.MessageCarried` | open-rdma-driver/dtld-ibverbs/rdma-core-55.0/iwpmd/iwarp_pm_common.c:379-490 | For every message of the daemons' protocol, IPv4 and IPv6, the peer parses the message that was sent |
| `Wire.AnswerFits` | open-rdma-driver/dtld-ibverbs/rdma-core-55.0/iwpmd/iwarp_pm_common.c:458-490 | The answer built from a message that fits the wire format fits it, too |
| `Wire.FormMsg` | open-rdma-driver/dtld-ibverbs/rdma-core-55.0/iwpmd/iwarp_pm_common.c:420-438 | Filling the buffer field by field yields the encoding |
| `Wire.Form` | open-rdma-driver/dtld-ibverbs/rdma-core-55.0/iwpmd/iwarp_pm_common.c:445-490 | The four wrappers set type and length and yield the encoding |
| `Wire.Parse` | open-rdma-driver/dtld-ibverbs/rdma-core-55.0/iwpmd/iwarp_pm_common.c:379-413 | Reading field by field yields the decoding, or fails exactly when the IP version is neither 4 nor 6, and leaves the mapped fields alone outside requests |
| `CircularList.CheckNode` | open-rdma-driver/dtld-ibverbs/rdma-core-55.0/ccan/list.c:20-36 | Ends on every finite heap of links, however corrupted, and accepts exactly when the next chain from the node is a cycle with prev as its inverse |
| `CircularList.IntactList` | open-rdma-driver/dtld-ibverbs/rdma-core-55.0/ccan/list.c:20-43 | What the list operations maintain is what the check accepts |
| `CircularList.HeadInit` | open-rdma-driver/dtld-ibverbs/rdma-core-55.0/ccan/list.h:143-146 | An empty list |
| `CircularList.AddAfter` | open-rdma-driver/dtld-ibverbs/rdma-core-55.0/ccan/list.h:178-188 | Inserts after a position of the sequence, touching only the three nodes involved |
| `CircularList.Add` | open-rdma-driver/dtld-ibverbs/rdma-core-55.0/ccan/list.h:204-209 | Inserts at the front |
| `CircularList.AddBefore` | open-rdma-driver/dtld-ibverbs/rdma-core-55.0/ccan/list.h:227-237 | Inserts before a position |
| `CircularList.AddTail` | open-rdma-driver/dtld-ibverbs/rdma-core-55.0/ccan/list.h:250-255 | Inserts at the end |
| `CircularList.IsEmpty` | open-rdma-driver/dtld-ibverbs/rdma-core-55.0/ccan/list.h:267-271 | Answers whether the sequence is empty |
| `CircularList.Del` | open-rdma-driver/dtld-ibverbs/rdma-core-55.0/ccan/list.h:324-333 | Removes one position, touching only its neighbours |
| `CircularList.Swap` | open-rdma-driver/dtld-ibverbs/rdma-core-55.0/ccan/list.h:405-417 | Replaces one position |
| `CircularList.Pop` | open-rdma-driver/dtld-ibverbs/rdma-core-55.0/ccan/list.h:475-484 | Removes and returns the first entry, or nothing from an empty list |
| `CircularList.Tail` | open-rdma-driver/dtld-ibverbs/rdma-core-55.0/ccan/list.h:503-508 | Returns the last entry, or nothing |
| `CircularList.AppendList` | open-rdma-driver/dtld-ibverbs/rdma-core-55.0/ccan/list.h:640-656 | to becomes to followed by from and from becomes empty, when either or both are empty too |
| `CircularList.PrependList` | open-rdma-driver/dtld-ibverbs/rdma-core-55.0/ccan/list.h:672-688 | to becomes from followed by to and from becomes empty, when either or both are empty too |
| `LibraryGraph.ComputeGraph` | open-rdma-driver/dtld-ibverbs/rdma-core-55.0/buildlib/sanitize_static_lib.py:197-214 | On every acyclic symbol graph: ends, keeps reachability exactly, leaves no edge that a longer path implies, adds none, and keeps needs and needed inverse to each other |
| `LibraryGraph.BuildGraph` | open-rdma-driver/dtld-ibverbs/rdma-core-55.0/buildlib/sanitize_static_lib.py:200-203 | Records exactly the edge from each library to every other one that uses a symbol of it |
| `LibraryGraph.Prune` | open-rdma-driver/dtld-ibverbs/rdma-core-55.0/buildlib/sanitize_static_lib.py:206-210 | The recursion removes from the pruned library exactly its edges to everything below the current one |
| `LibraryGraph.PruneFrom` | open-rdma-driver/dtld-ibverbs/rdma-core-55.0/buildlib/sanitize_static_lib.py:212-214 | The loop over a library's users removes exactly the implied edges |
| `LibraryGraph.OutcomeUnique` | open-rdma-driver/dtld-ibverbs/rdma-core-55.0/buildlib/sanitize_static_lib.py:197-214 | The result is contained in every subgraph with the same reachability, and is the only reduced one |
| `Graphs.PruneKeepsReach` | open-rdma-driver/dtld-ibverbs/rdma-core-55.0/buildlib/sanitize_static_lib.py:205-214 | Dropping all implied edges of one node keeps reachability and reduces that node |
| `Graphs.EdgeIndispensable` | open-rdma-driver/dtld-ibverbs/rdma-core-55.0/buildlib/sanitize_static_lib.py:205-214 | An edge of a reduced acyclic graph is in every graph with the same reachability |
| `IntLog.IlogMeaning` | open-rdma-driver/dtld-ibverbs/rdma-core-55.0/ccan/ilog.h:9-27 | Ilog is floor(log2 v) + 1, and 0 for 0 |
| `IntLog.Ilog32Branchless` | open-rdma-driver/dtld-ibverbs/rdma-core-55.0/ccan/ilog.c:36-52 | The branchless 32-bit code computes Ilog for every 32-bit value |
| `IntLog.Ilog32DeBruijn` | open-rdma-driver/dtld-ibverbs/rdma-core-55.0/ccan/ilog.c:54-64 | So does the de Bruijn multiply-and-table code |
| `IntLog.Ilog64Branchless` | open-rdma-driver/dtld-ibverbs/rdma-core-55.0/ccan/ilog.c:75-95 | The branchless 64-bit code computes Ilog for every 64-bit value |
| `IntLog.Ilog64Split` | open-rdma-driver/dtld-ibverbs/rdma-core-55.0/ccan/ilog.c:97-113 | So does the code that falls back to the 32-bit table |
| `IntLog.Ilog64DeBruijn` | open-rdma-driver/dtld-ibverbs/rdma-core-55.0/ccan/ilog.c:115-132 | So does the 64-bit de Bruijn code |
| `IntLog.Table32` | open-rdma-driver/dtld-ibverbs/rdma-core-55.0/ccan/ilog.c:20-23 | The 32-bit product sends every power of two to the table slot with its exponent |
| `IntLog.Table64` | open-rdma-driver/dtld-ibverbs/rdma-core-55.0/ccan/ilog.c:116-121 | The same for the 64-bit product |
| `IntLog.Static5Is` | open-rdma-driver/dtld-ibverbs/rdma-core-55.0/ccan/ilog.h:86-86 | The 32-bit macro computes Ilog |
| `IntLog.Static6Is` | open-rdma-driver/dtld-ibverbs/rdma-core-55.0/ccan/ilog.h:97-97 | The 64-bit macro computes Ilog |
| `RouteTrace.FindRoute` | open-rdma-driver/dtld-ibverbs/rdma-core-55.0/infiniband-diags/ibtracert.c:262-385 | Succeeds exactly when both ends answer and the walk along the forwarding tables arrives in the time the loop allows, and then leaves that walk's route in the array; ends within 63 rounds, the array never overrun, over any fabric |
| `RouteTrace.TraceableIff` | open-rdma-driver/dtld-ibverbs/rdma-core-55.0/infiniband-diags/ibtracert.c:262-385 | The tracer succeeds if and only if there is a journey of at most 61 hops, or of 62 into a switch's own port, in which every port but the last into a switch is active (state 4) or belongs to a switch with a basic port 0, and every hop is what the fabric's own tables and cables say |
| `RouteTrace.RouteSound` | open-rdma-driver/dtld-ibverbs/rdma-core-55.0/infiniband-diags/ibtracert.c:172-196 | The place a successful walk arrives at answers with the target's port GUID, and at every switch on the way it left through the port in entry i of block b of the forwarding table, with 64 b + i the destination LID |
| `RouteTrace.BeyondTables` | open-rdma-driver/dtld-ibverbs/rdma-core-55.0/infiniband-diags/ibtracert.c:172-187 | The walk ends, without a route, at a switch whose tables do not reach up to the destination LID |
| `RouteTrace.HashOfWord` | open-rdma-driver/dtld-ibverbs/rdma-core-55.0/infiniband-diags/ibtracert.c:409-415 | The lower word of a GUID is hashed by its multiple of 101, the upper by that of 103, modulo 137 |
| `RouteTrace.NoSwitchTwice` | open-rdma-driver/dtld-ibverbs/rdma-core-55.0/infiniband-diags/ibtracert.c:291-360 | A walk that arrives never forwards from the same switch twice |
| `RouteTrace.ArrivesOnce` | open-rdma-driver/dtld-ibverbs/rdma-core-55.0/infiniband-diags/ibtracert.c:291-299 | The walk arrives after at most one number of hops |
| `RouteTrace.LastHopRefused` | open-rdma-driver/dtld-ibverbs/rdma-core-55.0/infiniband-diags/ibtracert.c:362-365 | Along a row of switches the walk reaches the one 62 hops away and is refused all the same |
| `RouteTrace.OutOfTime` | open-rdma-driver/dtld-ibverbs/rdma-core-55.0/infiniband-diags/ibtracert.c:362-365 | A walk still under way after 63 hops is not traceable |
| `RouteTrace.DirectedRoute.Extend` | open-rdma-driver/dtld-ibverbs/rdma-core-55.0/infiniband-diags/ibtracert.c:203-210 | Appends a hop exactly when the array keeps two places free |
| `RouteTrace.Hop` | open-rdma-driver/dtld-ibverbs/rdma-core-55.0/infiniband-diags/ibtracert.c:299-341 | A round's move: through the table at a switch, one hop back or out of the own port at the starting end port, nowhere from any other |
| `RouteTrace.GuidTable.Insert` | open-rdma-driver/dtld-ibverbs/rdma-core-55.0/infiniband-diags/ibtracert.c:409-428 | Refuses exactly the GUIDs already in the table and adds all others, each once and in the chain of its hash |
| `StrCount.StrCount` | open-rdma-driver/dtld-ibverbs/rdma-core-55.0/ccan/str.c:4-13 | For a non-empty needle the count is the greatest number of pairwise disjoint occurrences |
| `StrCount.EndsIffNeedleNotEmpty` | open-rdma-driver/dtld-ibverbs/rdma-core-55.0/ccan/str.c:4-13 | On every haystack the loop ends if and only if the needle is not empty |
| `StrCount.GreedyIsBound` | open-rdma-driver/dtld-ibverbs/rdma-core-55.0/ccan/str.c:4-13 | No set of disjoint occurrences is larger than the greedy count |
| `RouteText.PrintThenParse` | open-rdma-driver/dtld-ibverbs/rdma-core-55.0/libibmad/portid.c:79-123 | Printing a route that fits and parsing the list behind the header restores the route, an empty route excepted, which comes back as the first array element |
| `RouteText.ListRoundTrip` | open-rdma-driver/dtld-ibverbs/rdma-core-55.0/libibmad/portid.c:79-123 | The parsed fields of every printed comma list are its hops |
| `RouteText.FieldsMakeUp` | open-rdma-driver/dtld-ibverbs/rdma-core-55.0/libibmad/portid.c:93-101 | The fields put together with commas make up the text, but for a comma at its end |
| `RouteText.SignThen` | open-rdma-driver/dtld-ibverbs/rdma-core-55.0/libibmad/portid.c:96-96 | A signed number is read up to its first other character |
| `RouteText.HeaderReads` | open-rdma-driver/dtld-ibverbs/rdma-core-55.0/libibmad/portid.c:110-114 | In every printed line the number read after slid is the source LID and the one after dlid the destination LID |
| `RouteText.DrPath.FromText` | open-rdma-driver/dtld-ibverbs/rdma-core-55.0/libibmad/portid.c:79-108 | Stays inside the array if and only if there are at most 64 fields; stores the value of each comma-separated field modulo 256, no field behind a last comma, and the default LIDs |
| `RouteText.DrPath.ToText` | open-rdma-driver/dtld-ibverbs/rdma-core-55.0/libibmad/portid.c:110-123 | Prints header and hops, cut off at the size of the buffer |
| `HexMask.Parse256` | open-rdma-driver/dtld-ibverbs/rdma-core-55.0/infiniband-diags/ibccconfig.c:172-220 | Refuses exactly the texts with another character or with more than 64 digits and then changes nothing; otherwise packs the digits into the last bytes and leaves the bytes before them alone |
| `HexMask.PrefixOptional` | open-rdma-driver/dtld-ibverbs/rdma-core-55.0/infiniband-diags/ibccconfig.c:179-180 | A leading 0x or 0X makes no difference, and nothing else is taken away |
| `HexMask.StoredValueIff` | open-rdma-driver/dtld-ibverbs/rdma-core-55.0/infiniband-diags/ibccconfig.c:187-217 | The stored big-endian value equals the numeral if and only if the bytes left alone are zero |
| `HexMask.DumpArray` | open-rdma-driver/dtld-ibverbs/rdma-core-55.0/libibmad/dump.c:716-726 | Prints two digits for each byte that the buffer has room for and a terminator, which falls into the buffer if and only if the buffer has an odd size or more than twice the bytes, or there is nothing to print |
| `HexMask.DumpedValue` | open-rdma-driver/dtld-ibverbs/rdma-core-55.0/libibmad/dump.c:716-726 | The printed digits are a numeral for the value of the bytes |
| `HexMask.PrintThenParse` | open-rdma-driver/dtld-ibverbs/rdma-core-55.0/infiniband-diags/ibccconfig.c:172-220 | Parsing the printed form of a 32-byte mask restores it, whatever the buffer held |
| `Counters.Counter.AddCapped` | open-rdma-driver/dtld-ibverbs/rdma-core-55.0/infiniband-diags/perfquery.c:116-140 | The 4-, 8- and 16-bit additions give the smaller of sum and cap in spite of 32-bit wrap-around |
| `Counters.Counter.AddWord` | open-rdma-driver/dtld-ibverbs/rdma-core-55.0/infiniband-diags/perfquery.c:142-156 | The 32- and 64-bit additions give the smaller of sum and the largest word |
| `Counters.AddPortsCapped` | open-rdma-driver/dtld-ibverbs/rdma-core-55.0/infiniband-diags/perfquery.c:158-202 | Over any sequence of ports a narrow counter ends at the smaller of the sum and the cap |
| `Counters.AddPortsWord` | open-rdma-driver/dtld-ibverbs/rdma-core-55.0/infiniband-diags/perfquery.c:244-305 | Over any sequence of ports a full-word counter ends at the smaller of the sum and the largest word |
| `Counters.SumIgnoresOrder` | open-rdma-driver/dtld-ibverbs/rdma-core-55.0/infiniband-diags/perfquery.c:158-202 | The result does not depend on the order of the ports |

## Left out

- Network.Agreement: assumes that a packet reaches the host that its destination address leads to from its sender, and
  that its source address leads back from there. Which host an address leads to may depend on where it is used, so
  loopback and wildcard destinations are included.
- Conversations.Handshake: for addresses of one family and outcomes of system calls that let each step succeed.
- PortMapper.PortMapper.Handle: a restart is an event of the network model only; a new object then takes the place of the old one.
- The objects and answers carry the number of their query as history. The program has no such field, and no step
  depends on it.
- Reads of a socket address through the wrong family yield arbitrary bytes, which are parameters of the steps.
- Timer passes inside a handler are modelled between the lookup of a tracking object and what follows it. One between
  linking a new object and queueing its first copy is modelled as coming after the handler, which changes only the order
  of the queue. The sender thread's passes are separate events, because they only empty that queue.
- Sockets, binding, memory allocation and netlink delivery are outcomes chosen freely for each step; netlink parsing,
  client registration, the hello and mapping-count messages, logging and signals are not modelled.
- The overflow of a port's reference count and of the per-client counters is not modelled.
- The list operations are proved on the linked nodes themselves; the daemon's lists are sequences, with `CircularList`
  as the reason why that is right.
- RouteTrace.FindRoute: without the force option, and over a fabric that does not change during the trace.
- RouteTrace.GuidTable.Insert: the hash chains are sequences of GUIDs instead of linked nodes.
- RouteText.DrPath.FromText: for numbers that fit the conversion's integer type; what happens once a list leaves the
  array is not modelled.
- Counters.AddPortsCapped: one counter at a time; the decoding of the counters from a response is not modelled.
- LibraryGraph.ComputeGraph: for acyclic symbol graphs. On a graph with a cycle the recursion either never ends or
  shrinks a set that it is iterating over; neither is modelled.
- The multicast path search of the route tracer, the other diagnostic tools, the management-datagram layers, the kernel
  driver and the Rust driver: not part of this model.
