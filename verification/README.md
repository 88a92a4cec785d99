# Verified model of the ros-z RMW layer

This project models the RMW layer of ros-z (`crates/rmw-zenoh-rs`), the parts of `crates/ros-z` it
rests on, and the package resolution of `crates/ros-z-msgs`, in Dafny 4.11. `dafny verify
dfyconfig.toml` checks all of it.

| module | what it models |
|---|---|
| `Common` | 64-bit wrap-around, return codes, attachments |
| `BoundedQueues` | the receive queue of subscriptions and services |
| `Subscriptions` | take, take with info, serialized take and the bounded batch |
| `RequestIds` | the two counters behind a request's number, under concurrent calls |
| `Servers` | the server's queue and pending map |
| `Responses` | the client's response channel, unread count and callback |
| `ServiceSystems` | client, network and servers together |
| `Boxes` | ownership of boxed implementations behind C handles |
| `Contexts` | init, shutdown and fini of a context |
| `Nodes` | nodes, guard conditions and the graph trigger |
| `CMemory` | memory given to C callers, with an allocator that may refuse anything |
| `NodeNames` | the node-name queries |
| `InitOptions` | deep copy and finalisation of init options |
| `ErrorStrings` | the error buffer |
| `Qos` | the compatibility check and the profile conversions |
| `TypeNames` | type names and printed type hashes |
| `Packages` | where message packages come from |

Protocols are step functions over every sequence of events; the classes beside them are the
imperative code, and each method is proved to take exactly the step of the machine. Where memory is
allocated, the allocator's answers are arbitrary, so each statement holds for every schedule of
failures.

## Contracts of code outside the model

* The Zenoh transport may delay, reorder and lose messages between a client and a server but
  neither forges nor duplicates them. Building a Zenoh context or node, delivering a reply, and the
  clock are parameters.
* The rcutils and rmw library functions behave as documented beside their bindings
  (`crates/rmw-zenoh-rs/src/bindings.rs:126, 633, 641, 1386, 1394, 1445, 1461`). A new string array is
  all null; finalising skips null slots; a failed call leaves nothing
  allocated.
* A message is represented by the bytes handed to the foreign decoder, whose verdict the code
  ignores.

## Where the code and its promises part

Each of these is a theorem with its exact condition.

* The subscription and service queues drop their oldest element when full, so "no loss" holds if and
  only if no arrival finds the queue full (`BoundedQueues.NothingLostIffNeverFull`).
* The request number returned to a caller is the one its request carried if and only if no call
  overtakes another (`RequestIds.ReturnedIsCarriedIffOldestFirst`); two overlapping calls suffice to
  swap numbers.
* A response that cannot be transmitted is final: the pending entry is gone
  (`Servers.FailedReplyIsFinal`).
* Announcements match the responses to take if and only if no reply finds the response channel full,
  as refused ones are announced like any other (`Responses.AnnouncementsMatchResponsesIff`).
* A reply waits, counted, behind a callback until the next call that sets one, if and only if its
  notification came without a callback in force between a drain and an installation
  (`Responses.NothingWaitsIff`).
* A callback is called with the user data of another set call if and only if a notification finds the
  two stores apart (`Responses.InvocationsMatchIff`); overlapping set calls can leave them apart.
* Nothing sets a context's implementation identifier, without which it cannot be finalised
  (`Contexts.UnidentifiedIsNeverFreed`).
* The test that protects an already filled copy of init options never fires
  (`InitOptions.CopyTwice`).
* Copying init options looks only for `allocate`. With an allocator that has it and lacks
  `deallocate` the copy is refused after the security path is allocated, and finalising cannot free
  that path (`InitOptions.CopyThenFini`).
* The strict QoS check is transitive exactly through concrete profiles (`Qos.BridgesIffConcrete`).
* A printed type hash does not depend on the version byte (`TypeNames.PrintsEqualIff`).
* `BoundedQueue::push` reports a drop at capacity 0 even when it drops nothing, against its
  documentation.

## Model

| member | source | states |
|---|---|---|
| `BoundedQueues.BoundedQueue.Push` | crates/ros-z/src/queue.rs:42-54 | stores at the back, drops the oldest element when full; the result says whether the length had reached the capacity (at capacity 0 it is true although nothing is dropped, unlike the documentation at lines 39-41) |
| `BoundedQueues.BoundedQueue.TryRecv` | crates/ros-z/src/queue.rs:84-86 | removes the oldest element or reports none |
| `BoundedQueues.RunConserves` | crates/ros-z/src/queue.rs:42-86 | over every run: everything that left, in order, followed by what is inside, is everything that entered, in order; the bound holds |
| `BoundedQueues.EvictionIffOverflow` | crates/ros-z/src/queue.rs:42-54 | an element is evicted in a run if and only if some push finds the queue full and not empty |
| `BoundedQueues.NothingLostIffNeverFull` | crates/ros-z/src/queue.rs:12-54 | received elements followed by the queue are all pushed elements if and only if no push found the queue full |
| `BoundedQueues.KeepsTheNewest` | crates/ros-z/src/queue.rs:12-16 | without polling the queue holds exactly the most recent pushes |
| `Subscriptions.SerializedMessage.Store` | crates/rmw-zenoh-rs/src/pubsub.rs:170-195 | the buffer is replaced only when too small, holds exactly the bytes, and keeps its tail otherwise |
| `Subscriptions.MaxLengthIsTheMaximum` | crates/rmw-zenoh-rs/src/pubsub.rs:170-195 | the capacity that the buffer invariant names is the maximum of the initial capacity and all stored lengths |
| `Subscriptions.Subscription.DeliveryIsFifoExactlyOnce` | crates/rmw-zenoh-rs/src/pubsub.rs:72-216 | for every mix of arrivals and the four takes: samples leave in arrival order and once each; delivered plus waiting is everything that arrived if and only if no arrival found the queue full |
| `Subscriptions.Subscription.Arrive` | crates/ros-z/src/queue.rs:42-54 | arriving samples are recorded in order, and the queue sees one push each |
| `Subscriptions.Subscription.Take` | crates/rmw-zenoh-rs/src/pubsub.rs:72-91 | removes one sample if there is one, hands its payload to the decoder for the given message and touches no other; an error without a queue |
| `Subscriptions.Subscription.TakeWithInfo` | crates/rmw-zenoh-rs/src/pubsub.rs:93-152 | the same, and unless the pointer is null the info holds the source timestamp of the attachment if that can be read and 0 otherwise, the clock, sequence numbers 0 and an all-zero gid |
| `Subscriptions.Subscription.TakeSerialized` | crates/rmw-zenoh-rs/src/pubsub.rs:154-216 | the same into the caller's byte buffer, whose bytes are then the payload; the info carries no timestamps |
| `Subscriptions.SlotsHoldTheBatch` | crates/rmw-zenoh-rs/src/pubsub.rs:454-470 | after a batch, slot i of both sequences comes from sample i and later slots are untouched |
| `Subscriptions.FillSlots` | crates/rmw-zenoh-rs/src/pubsub.rs:454-470 | the batch loop, with arrivals between its iterations, against that specification and with the queue's events |
| `Subscriptions.TakeSequence` | crates/rmw-zenoh-rs/src/pubsub.rs:424-477 | terminates with taken <= count <= both capacities, both sizes equal to taken, exact slots and infos field by field; stops early only on an empty queue; a rejected call changes nothing |
| `RequestIds.RunRepresents` | crates/rmw-zenoh-rs/src/service.rs:21-78 | the machine with two wrapping 64-bit counters refines one that counts without bound |
| `RequestIds.CountersDifferByCallsInFlight` | crates/rmw-zenoh-rs/src/service.rs:21-37 | in every interleaving the counters differ by the number of calls between their two steps, modulo 2^64; they agree when no call is in flight |
| `RequestIds.ReturnedNumbersCollideIff` | crates/rmw-zenoh-rs/src/service.rs:31-78 | two finished calls hold different tickets and return the same number exactly when the tickets differ by a multiple of 2^64 |
| `RequestIds.ReturnedNumbersAreDistinct` | crates/rmw-zenoh-rs/src/service.rs:31-78 | up to 2^64 calls, overlapping in any way, return pairwise distinct numbers |
| `RequestIds.ReturnedIsCarriedIffOldestFirst` | crates/rmw-zenoh-rs/src/service.rs:31-78 | every call returns the number its request carried if and only if no call overtakes another between the two steps |
| `RequestIds.OverlappingCallsSwapNumbers` | crates/rmw-zenoh-rs/src/service.rs:31-78 | two overlapping calls that are each told the other's number |
| `RequestIds.ZClient.RmwSendRequest` | crates/ros-z/src/service.rs:125-127 | advances its counter exactly once per call, also when the send fails |
| `RequestIds.ClientImpl.FetchAdd` | crates/rmw-zenoh-rs/src/service.rs:37 | first atomic step of a call |
| `RequestIds.ClientImpl.SendInner` | crates/rmw-zenoh-rs/src/service.rs:66-71 | second atomic step of a call; the caller's number is written only on success |
| `RequestIds.ClientImpl.SendRequest` | crates/rmw-zenoh-rs/src/service.rs:31-78 | a call that nothing overlaps returns the number its request carried and keeps the counters together |
| `Servers.EveryQueryIsAccountedFor` | crates/rmw-zenoh-rs/src/service.rs:188-333 | over every run of arrivals, takes and responses each query is in exactly one of seven places, as often as it arrived |
| `Servers.DisplacedIff` | crates/rmw-zenoh-rs/src/service.rs:208-256 | over every run a pending query is overwritten if and only if some take finds at the head of the queue a query with a payload whose key is in use |
| `Servers.DistinctKeysAreNeverDisplaced` | crates/rmw-zenoh-rs/src/service.rs:208-256 | in particular never when keys are pairwise different |
| `Servers.PlaceholdersCollide` | crates/rmw-zenoh-rs/src/service.rs:219-234 | two queries without attachments: the second overwrites the first |
| `Servers.HeaderReachesItsQueryIff` | crates/rmw-zenoh-rs/src/service.rs:291-333 | a response under a taken query's header reaches that query if and only if nothing has touched its key since |
| `Servers.FailedReplyIsFinal` | crates/ros-z/src/service.rs:530-554 | a query is replied to at most once, and never after a response to it failed: the entry is removed before the reply is sent |
| `Servers.OnlyPayloadsAreFiled` | crates/rmw-zenoh-rs/src/service.rs:199-256 | over every run, pending, displaced and answered queries have a payload, and the discarded ones have none |
| `Servers.PayloadlessIsNeverAnswered` | crates/rmw-zenoh-rs/src/service.rs:199-256 | whatever the run, a response under a key that no query with a payload brought reaches nothing |
| `Servers.ServiceImpl.QueryArrives` | crates/ros-z/src/queue.rs:42-54 | an arriving query enters the queue, pushing out the oldest if full |
| `Servers.ServiceImpl.TakeRequest` | crates/rmw-zenoh-rs/src/service.rs:188-289 | moves the oldest query to the map under its key; the header holds the attachment's number, gid bytes and timestamp, or zeros; a query without payload is used up, nothing is reported and the map stays as it was |
| `Servers.ServiceImpl.SendResponse` | crates/rmw-zenoh-rs/src/service.rs:291-333 | succeeds exactly when the header's key is pending and the reply is delivered, and then replies to the query filed under it; removes the key either way |
| `Servers.RequestHeader.Fill` | crates/rmw-zenoh-rs/src/service.rs:270-282 | the header names the key, byte by byte, and both timestamps |
| `Responses.TakenInOrder` | crates/rmw-zenoh-rs/src/service.rs:80-169 | over every run responses are taken in arrival order, once each, from a channel that keeps its bound |
| `Responses.EachReplyIsCounted` | crates/rmw-zenoh-rs/src/service.rs:44-63 | each successful reply is reported to a callback once, still counted or about to be notified, also when the channel refused it |
| `Responses.UnreadIsWaiting` | crates/rmw-zenoh-rs/src/service.rs:56-61 | the unread count is the number of notifications that met no callback and have not been followed by a drain |
| `Responses.AnnouncementsMatchResponsesIff` | crates/ros-z/src/service.rs:239-248 | the announcements, made, counted or due, are as many as the responses there were to take if and only if no reply found the channel full |
| `Responses.NothingWaitsIff` | crates/rmw-zenoh-rs/src/rmw.rs:2222-2242 | over every run, set calls overlapping or not, no reply ever waits behind a callback if and only if no notification comes, with no callback in force, between a drain and an installation |
| `Responses.NotifyDuringSetWaits` | crates/rmw-zenoh-rs/src/rmw.rs:2222-2242 | from any state without a callback such a reply stays counted behind the new callback, and the next set call reports it |
| `Responses.InvocationsMatchIff` | crates/rmw-zenoh-rs/src/rmw.rs:2236-2250 | over every run, with any overlap of set and clear calls: every invocation passes the user data of the call that set its callback if and only if no notification finds the callback of one call in force and not that call's user data |
| `Responses.SerialInvocationsMatchIff` | crates/rmw-zenoh-rs/src/rmw.rs:2236-2242 | for calls that do not overlap, if and only if no notification comes between the store of a callback and the store of its user data |
| `Responses.SerialSetsGoOn` | crates/rmw-zenoh-rs/src/rmw.rs:2222-2242 | a thread that is between calls can always make its next set call, with replies and takes anywhere between its three steps |
| `Responses.SerialClearsGoOn` | crates/rmw-zenoh-rs/src/rmw.rs:2243-2251 | or clear, in two steps |
| `Responses.OverlappingSetsStayMixed` | crates/rmw-zenoh-rs/src/rmw.rs:2236-2242 | two overlapping calls can leave the callback of one with the user data of the other for good |
| `Responses.CallbackFrom` | crates/rmw-zenoh-rs/src/rmw.rs:2236-2246 | a callback in force was stored by the last store that was not followed by another or a clearing |
| `Responses.DataFrom` | crates/rmw-zenoh-rs/src/rmw.rs:2239-2250 | the same for user data |
| `Responses.DataFollowsCallback` | crates/rmw-zenoh-rs/src/rmw.rs:2236-2250 | only between those two stores are callback and user data from different calls |
| `Responses.NotifyBeforeBindMixesCalls` | crates/rmw-zenoh-rs/src/rmw.rs:2236-2242 | a notification there calls the new callback with the old user data |
| `Responses.ResponseSide.OnReply` | crates/ros-z/src/service.rs:239-247 | a reply enters the channel if there is room |
| `Responses.ResponseSide.NotifyCaller` | crates/rmw-zenoh-rs/src/service.rs:44-63 | then, in any case, it is announced with the user data in force, or counted without a callback |
| `Responses.ResponseSide.OnError` | crates/ros-z/src/service.rs:250-254 | an error reply changes nothing |
| `Responses.ResponseSide.SetCallback` | crates/rmw-zenoh-rs/src/rmw.rs:2222-2251 | reports what was counted to the new callback with the new data, then stores the callback, then its user data; clearing keeps the count |
| `Responses.ResponseSide.TakeResponse` | crates/rmw-zenoh-rs/src/service.rs:80-169 | takes the oldest response; the header identifies the request by the attachment, or by zeros |
| `ServiceSystems.ResponsesMatchRequests` | crates/rmw-zenoh-rs/src/service.rs:31-333 | client, lossy reordering network and any number of servers together, up to 2^64 calls: no own request is overwritten at a server, every response taken carries the number of exactly one own successful request, and there is at most one per request and server |
| `ServiceSystems.OneServerAnswersOnce` | crates/rmw-zenoh-rs/src/service.rs:31-333 | with one server no number comes back twice |
| `ServiceSystems.CallersRecogniseTheirResponses` | crates/rmw-zenoh-rs/src/service.rs:31-169 | when no call overtakes another, the number on a response is the one returned to the caller of its request |
| `ServiceSystems.ChannelKeepsWhatFits` | crates/ros-z/src/service.rs:239-248 | over every run the responses taken and those waiting are, in order of delivery, exactly the replies that found room; the channel keeps its bound and drops none if and only if none found it full |
| `ServiceSystems.EverySuccessIsSent` | crates/rmw-zenoh-rs/src/service.rs:31-78 | over every run one request is transmitted for every successful send, in order, with its number, payload and timestamp, and none for a failed one |
| `ServiceSystems.OnlyTheNetworkLoses` | crates/rmw-zenoh-rs/src/service.rs:31-333 | over every run as many messages are lost between the client and a server as the network loses |
| `ServiceSystems.AnythingMayComeNext` | crates/ros-z/src/service.rs:85-91 | the runs leave the network, the servers and everybody else free: any message may be delivered or lost next, in any order, any taken request answered at any time, and any foreign query may come |
| `ServiceSystems.EachServerRuns` | crates/rmw-zenoh-rs/src/service.rs:187-333 | within every run of the system each server goes through a run of the server machine, on the queries that reach it, its takes and its responses, so that what holds of all those runs holds here |
| `ServiceSystems.ResponseComesBack` | crates/rmw-zenoh-rs/src/service.rs:31-333 | wherever there is a server and room for a response, a run in which a request is sent, taken, answered and its response taken |
| `ServiceSystems.StepFlows` | crates/rmw-zenoh-rs/src/service.rs:31-333 | every step keeps each own request and each reply to it in exactly one place between the client and each server |
| `ServiceSystems.SameKeySameRequest` | crates/rmw-zenoh-rs/src/service.rs:35-37 | two transmitted requests with one key are the same request |
| `Boxes.Heap.Borrow` | crates/rmw-zenoh-rs/src/traits.rs:59-75 | the owned value, or the error for a null handle or a null field |
| `Boxes.Heap.Own` | crates/rmw-zenoh-rs/src/traits.rs:94-107 | frees the box once and clears the field, so a second call fails; errors change nothing |
| `Boxes.Heap.Assign` | crates/rmw-zenoh-rs/src/traits.rs:109-121 | fills a null field with a new box; an occupied field is left alone and nothing is allocated |
| `Contexts.SuccessesFollowTheProtocol` | crates/rmw-zenoh-rs/src/context.rs:296-401 | over every run the successful calls follow init, shutdown, fini; an implementation exists exactly between init and fini; at most one box is outstanding |
| `Contexts.FiniSucceedsIff` | crates/rmw-zenoh-rs/src/context.rs:369-401 | fini succeeds next exactly when the context is shut down and its identifier is set |
| `Contexts.UnidentifiedIsNeverFreed` | crates/rmw-zenoh-rs/src/context.rs:390-394 | as nothing here sets the identifier, a context nobody else identifies is never finalised |
| `Contexts.ImplCarriesItsOptions` | crates/rmw-zenoh-rs/src/context.rs:313-346 | over every run an implementation carries the domain id and the enclave of the last successful init, or "/" |
| `Contexts.Context.Init` | crates/rmw-zenoh-rs/src/context.rs:296-346 | one step of that machine: already initialised exactly when there is an implementation, an error exactly when building fails, else an implementation with the options' domain id and enclave, not shut down; anything but success changes nothing |
| `Contexts.Context.Shutdown` | crates/rmw-zenoh-rs/src/context.rs:349-366 | one step of that machine: an invalid argument without an implementation, else shut down and otherwise unchanged |
| `Contexts.Context.Fini` | crates/rmw-zenoh-rs/src/context.rs:369-401 | one step of that machine: the box is freed exactly on success, which needs a shut-down implementation without nodes and the identifier; else an invalid argument |
| `Nodes.TriggerEachLatches` | crates/ros-z/src/event.rs:240-247 | triggering a list of live guard conditions latches each of them and changes no other owner |
| `Nodes.GraphChangeReachesNodes` | crates/ros-z/src/event.rs:230-247 | a graph change, whatever came before, latches the guard condition of every live node, leaves those of callers alone and keeps the ownership invariant |
| `Nodes.GraphChangeSetsLatches` | crates/ros-z/src/event.rs:230-247 | the same box by box: each node's handle still holds its guard condition, that holds a set latch, and callers' guard conditions hold what they held |
| `Nodes.RegisteredAreLive` | crates/ros-z/src/event.rs:185-194 | the registered pointers are exactly the guard conditions of live nodes, all allocated |
| `Nodes.RetainDropsOnly` | crates/ros-z/src/event.rs:190-194 | unregistering removes every occurrence of one pointer and nothing else |
| `Nodes.RetainKeepsOrder` | crates/ros-z/src/event.rs:190-194 | and keeps the others in their order |
| `Nodes.NodeAnnounced` | crates/rmw-zenoh-rs/src/node.rs:88-103 | a new node's guard condition is registered before the node exists, and the announcement reaches it too |
| `Nodes.NodeFinished` | crates/rmw-zenoh-rs/src/node.rs:105-121 | boxing the node completes the invariant with four boxes more |
| `Nodes.GuardFreed` | crates/rmw-zenoh-rs/src/node.rs:142-151 | freeing a node's guard condition leaves every listed one alive |
| `Nodes.BereftAnnounced` | crates/rmw-zenoh-rs/src/node.rs:151-157 | a graph change between freeing the guard condition and freeing the node meets only live ones |
| `Nodes.HandleFreed` | crates/rmw-zenoh-rs/src/node.rs:154-157 | freeing the node then restores the invariant with four boxes less in all |
| `Nodes.UnlistedAnnounced` | crates/rmw-zenoh-rs/src/node.rs:142-150 | a graph change after a guard condition is unlisted and before it is freed meets only live ones |
| `Nodes.LatchKeepsOwners` | crates/rmw-zenoh-rs/src/guard_condition.rs:15-24 | setting or clearing a latch disturbs no owner |
| `Nodes.Graph.CreateGuard` | crates/rmw-zenoh-rs/src/guard_condition.rs:41-68 | null exactly without a context implementation; else a new guard condition that is not triggered |
| `Nodes.Graph.DestroyGuard` | crates/rmw-zenoh-rs/src/guard_condition.rs:71-83 | frees the guard condition's two boxes once |
| `Nodes.Graph.TriggerGuard` | crates/rmw-zenoh-rs/src/guard_condition.rs:86-98 | latches exactly the guard condition it is given |
| `Nodes.Graph.ResetGuard` | crates/rmw-zenoh-rs/src/guard_condition.rs:22-24 | clears exactly that latch |
| `Nodes.Graph.GraphChange` | crates/ros-z/src/event.rs:240-247 | the loop over the registered pointers meets only live guard conditions |
| `Nodes.Graph.Announce` | crates/ros-z/src/event.rs:230-247 | a graph change at any moment of any run |
| `Nodes.Graph.Unlist` | crates/ros-z/src/event.rs:190-194 | the retain loop |
| `Nodes.Graph.CreateNode` | crates/rmw-zenoh-rs/src/node.rs:55-122 | null, changing nothing, exactly when the context or the node cannot be had; else one node, one registration and four boxes more, and every node's guard condition latched if the node is announced or the graph changes elsewhere meanwhile |
| `Nodes.Graph.DestroyNode` | crates/rmw-zenoh-rs/src/node.rs:125-159 | one node and its registration less, four boxes freed, none of them reachable afterwards; the announcement comes while the node's guard condition is still alive, and the graph may change elsewhere in either window of the removal |
| `CMemory.Memory.Allocate` | crates/rmw-zenoh-rs/src/bindings.rs:125-130 | an address not in use, or null and nothing changed, as the allocator pleases |
| `CMemory.StringArray.Init` | crates/rmw-zenoh-rs/src/bindings.rs:632-637 | contract of rcutils_string_array_init: all slots null, or nothing allocated |
| `CMemory.StringArray.Put` | crates/rmw-zenoh-rs/src/node.rs:222-226 | stores a copy in the next slot, or leaves null there when the copy cannot be allocated |
| `CMemory.StringArray.Fini` | crates/rmw-zenoh-rs/src/bindings.rs:640-641 | frees each text once, skips null slots, frees the array: the memory is then exactly the rest |
| `CMemory.FootprintSize` | crates/rmw-zenoh-rs/src/bindings.rs:632-641 | an array of n texts owns exactly n + 1 blocks |
| `NodeNames.GetNodeNames` | crates/rmw-zenoh-rs/src/node.rs:162-245 | for every failure schedule: two arrays of new blocks that read the snapshot index by index and the memory grown by exactly them, or an error and the memory as before; out of memory exactly when an allocation was refused, and otherwise success exactly when no text has an interior NUL |
| `NodeNames.GetNodeNamesWithEnclaves` | crates/rmw-zenoh-rs/src/node.rs:248-364 | the same for three arrays |
| `NodeNames.FillTwo` | crates/rmw-zenoh-rs/src/node.rs:204-241 | one round of the loop with its cleanup on every failure |
| `NodeNames.FillThree` | crates/rmw-zenoh-rs/src/node.rs:299-360 | one round of the loop with its cleanup on every failure |
| `NodeNames.ColumnsAlign` | crates/rmw-zenoh-rs/src/node.rs:204 | row i of the columns is entry i of the snapshot |
| `NodeNames.QueryAllocates` | crates/rmw-zenoh-rs/src/node.rs:190-241 | a successful query leaves the caller one block per text and one per array |
| `InitOptions.Init` | crates/rmw-zenoh-rs/src/context.rs:131-161 | fields after initialisation, the domain id being the largest 64-bit number; zeroed options own nothing afterwards; fails exactly for an invalid allocator |
| `InitOptions.Copy` | crates/rmw-zenoh-rs/src/context.rs:164-251 | on every path the memory grows by exactly one private part; a destination without blocks owns it even after a failure; on success security path, peers and enclave have equal contents at new addresses; success exactly with a valid allocator, a null `impl_` and no refusal |
| `InitOptions.CopySecurity` | crates/rmw-zenoh-rs/src/bindings.rs:1445-1450 | contract of rmw_security_options_copy |
| `InitOptions.CopyDiscovery` | crates/rmw-zenoh-rs/src/bindings.rs:1370-1391 | contract of rmw_discovery_options_copy; the error for an invalid allocator is that of rmw_discovery_options_init (1370), through which the copy allocates |
| `InitOptions.CopyEnclave` | crates/rmw-zenoh-rs/src/context.rs:217-244 | the enclave name is duplicated, or null stays null |
| `InitOptions.Fini` | crates/rmw-zenoh-rs/src/context.rs:254-293 | with a deallocator everything the options own is freed and nothing else; without one nothing is |
| `InitOptions.CopyThenFini` | crates/rmw-zenoh-rs/src/context.rs:164-293 | copying into zeroed options and finalising the copy restores the memory, whichever allocation failed, and leaves the source intact, except exactly when the source's allocator allocates and does not free, its security path is set and its copy is not refused |
| `InitOptions.CopyTwice` | crates/rmw-zenoh-rs/src/context.rs:174-178 | the already-initialised test never fires, so after a second copy, successful or refused, the first one's blocks stay allocated; which of them the options still name |
| `InitOptions.OwnsNothing` | crates/rmw-zenoh-rs/src/context.rs:187-247 | options own no block exactly when their three pointers are null |
| `ErrorStrings.GetShowsTheLastChange` | crates/rmw-zenoh-rs/src/context.rs:19-58 | over every run a get shows the last nonempty set text, or its first 1023 characters if it is longer, and "Mock error" if the last change was anything else |
| `ErrorStrings.ShownFits` | crates/rmw-zenoh-rs/src/context.rs:39-51 | what is shown is nonempty and fits the buffer with its NUL |
| `ErrorStrings.ErrorBuffer.Set` | crates/rmw-zenoh-rs/src/context.rs:19-36 | all writes in bounds, a NUL always present, and the buffer stands for the new state |
| `ErrorStrings.ErrorBuffer.Fill` | crates/rmw-zenoh-rs/src/context.rs:22-31 | the copying loop leaves the C string of its argument, up to its first 1023 characters |
| `ErrorStrings.ErrorBuffer.Get` | crates/rmw-zenoh-rs/src/context.rs:39-51 | the text of the buffer returned is what the run so far shows |
| `ErrorStrings.ErrorBuffer.Reset` | crates/rmw-zenoh-rs/src/context.rs:54-58 | the buffer stands for no text |
| `Qos.NanosWrapsTotal` | crates/rmw-zenoh-rs/src/qos.rs:75-78 | the wrapping formula is the total number of nanoseconds, wrapped once |
| `Qos.NanosExactIff` | crates/rmw-zenoh-rs/src/qos.rs:75-78 | it is exact, and no step overflows, exactly up to i64::MAX nanoseconds |
| `Qos.InfiniteIsLargest` | crates/ros-z/src/qos.rs:102-107 | the infinite duration is exactly i64::MAX and no duration compares greater |
| `Qos.NanosOrder` | crates/rmw-zenoh-rs/src/qos.rs:75-82 | in range the comparison is the lexicographic order on seconds and nanoseconds |
| `Qos.CheckNamesTheFirst` | crates/rmw-zenoh-rs/src/qos.rs:50-109 | the check succeeds exactly when no requirement is violated, and else names the first in the fixed order by its policy number |
| `Qos.MatchesIff` | crates/rmw-zenoh-rs/src/qos.rs:50-109 | for every two profiles, the exact condition for a match in policy numbers and wrapped nanoseconds; a duration that is not positive, on either side, violates nothing |
| `Qos.InfiniteIsConcrete` | crates/rmw-zenoh-rs/src/qos.rs:50-109 | a concrete profile exists, and matches itself |
| `Qos.CompatibleIsOrder` | crates/rmw-zenoh-rs/src/qos.rs:50-109 | on concrete profiles the check is a policy-by-policy order |
| `Qos.CheckIsReflexive` | crates/rmw-zenoh-rs/src/qos.rs:50-109 | every profile matches itself |
| `Qos.BridgesIffConcrete` | crates/rmw-zenoh-rs/src/qos.rs:50-109 | the check is transitive through a profile exactly when its reliability and durability are decided and its two durations are positive |
| `Qos.VagueBreaksTheChain` | crates/rmw-zenoh-rs/src/qos.rs:50-109 | for every other profile, two profiles that match it but not each other |
| `Qos.MatchesSurvive` | crates/rmw-zenoh-rs/src/qos.rs:50-109 | strengthening a publisher and weakening a subscriber never breaks a match of concrete profiles |
| `Qos.RoundTripFromRosZ` | crates/rmw-zenoh-rs/src/qos.rs:112-238 | to RMW and back is the identity exactly for liveliness other than manual-by-node, which becomes manual-by-topic |
| `Qos.RoundTripFromRmw` | crates/rmw-zenoh-rs/src/qos.rs:112-238 | the opposite composite is idempotent and the identity exactly on canonical profiles |
| `Qos.NormalizingIsInvisible` | crates/rmw-zenoh-rs/src/qos.rs:5-16 | normalising first never changes the converted profile |
| `Qos.DefaultsFillIn` | crates/rmw-zenoh-rs/src/qos.rs:182-218 | which numbers convert to which ros-z policies and which to the defaults; durations are copied |
| `Qos.NumbersAre` | crates/rmw-zenoh-rs/src/qos.rs:112-175 | the numbers that a ros-z profile converts to, policy by policy; durations are copied |
| `Qos.ConvertedMatchIff` | crates/rmw-zenoh-rs/src/qos.rs:50-175 | two ros-z profiles match after conversion exactly when, in their own terms, the subscriber asks for nothing that the publisher declines |
| `Qos.ConvertedIsConcreteIff` | crates/rmw-zenoh-rs/src/qos.rs:112-175 | a converted profile passes matches on exactly when its two durations are positive |
| `Qos.NormalizeRmwQos` | crates/rmw-zenoh-rs/src/qos.rs:5-16 | afterwards keep-last has a positive depth, only the depth may have changed and only from keep-last with depth 0, and the profile converts to the same as before |
| `Qos.NormalFormIsUnique` | crates/rmw-zenoh-rs/src/qos.rs:5-16 | these properties determine the result |
| `TypeNames.ReplaceLeavesNoSeparator` | crates/rmw-zenoh-rs/src/type_support.rs:192 | no double colon survives the replacement, whatever the string |
| `TypeNames.ReplaceFirst` | crates/rmw-zenoh-rs/src/type_support.rs:192 | the first double colon becomes a slash, single colons before it stay, and the rest is treated alike |
| `TypeNames.ReplaceJoins` | crates/rmw-zenoh-rs/src/type_support.rs:192 | colon-free parts joined by :: become the same parts joined by / |
| `TypeNames.SplitUndoesJoin` | crates/rmw-zenoh-rs/src/type_support.rs:193 | slash-free parts can be read back |
| `TypeNames.RosTypeNameJoins` | crates/rmw-zenoh-rs/src/type_support.rs:178-195 | the ROS name is the namespace parts and the name without one trailing underscore, joined by slashes |
| `TypeNames.RosTypeNameIs` | crates/rmw-zenoh-rs/src/type_support.rs:178-195 | for every name, one trailing underscore goes and a name without one stays as it is, behind the namespace parts |
| `TypeNames.RosTypeNamesEqualIff` | crates/rmw-zenoh-rs/src/type_support.rs:178-195 | two ROS names are equal exactly when namespaces and stripped names are |
| `TypeNames.RosTypeNameDetermines` | crates/rmw-zenoh-rs/src/type_support.rs:178-195 | for names not ending in an underscore the ROS name determines namespace and name |
| `TypeNames.TypePrefixJoins` | crates/rmw-zenoh-rs/src/type_support.rs:163-175 | the mangled prefix is the namespace parts, dds_ and the name with an underscore, joined by double colons |
| `TypeNames.TypePrefixDetermines` | crates/rmw-zenoh-rs/src/type_support.rs:163-175 | the mangled prefix determines namespace and name for all identifiers |
| `TypeNames.ServiceNameExistsIff` | crates/rmw-zenoh-rs/src/type_support.rs:258-264 | the service name exists exactly for names of the form X_Response or X_Response_; else the call panics |
| `TypeNames.ServiceNameIs` | crates/rmw-zenoh-rs/src/type_support.rs:258-264 | for a service's response type the result is the service's own name |
| `TypeNames.PrintRoundTrips` | crates/rmw-zenoh-rs/src/type_support.rs:85-91 | a decoder recovers the bytes of a printed hash and accepts nothing else |
| `TypeNames.PrintIs` | crates/rmw-zenoh-rs/src/type_support.rs:85-91 | the text is RIHS01_ and then, for each byte in order, its two digits out of 0123456789abcdef |
| `TypeNames.PrintsEqualIff` | crates/rmw-zenoh-rs/src/type_support.rs:85-91 | two hashes print alike exactly when their values agree; the version byte is not printed |
| `Packages.DiscoverSystemPackages` | crates/ros-z-msgs/build.rs:271-344 | the nested search collects the packages along the prefixes of the first source that holds any |
| `Packages.DiscoverLocalAssets` | crates/ros-z-msgs/build.rs:347-383 | the wanted packages among the bundled assets, in order |
| `Packages.DiscoverRosPackages` | crates/ros-z-msgs/build.rs:138-212 | bundled paths alone if any was found, else the first path of each name in the system search |
| `Packages.FirstWinsMeans` | crates/ros-z-msgs/build.rs:177-186 | a discovered name, given by the package file or else by the directory, is mapped to the first path that carries it |
| `Packages.LastWinsMeans` | crates/ros-z-msgs/build.rs:151-156 | among bundled paths, to the last one |
| `Packages.AlongIsOverlay` | crates/ros-z-msgs/build.rs:276-343 | the search with its first-wins map is the overlay of its prefixes |
| `Packages.OverlayIsEarliest` | crates/ros-z-msgs/build.rs:276-343 | the overlay maps a wanted name to the earliest prefix that holds it, and nothing else |
| `Packages.SourceIsFirstNonempty` | crates/ros-z-msgs/build.rs:278-341 | a variable that leads to a wanted package is used before later sources, and an empty result means that no source holds anything |
| `Packages.EarliestInstallIsUsed` | crates/ros-z-msgs/build.rs:314-341 | where neither variable leads to one, the first existing installation path that holds a wanted package is used alone |
| `Packages.Resolve` | crates/ros-z-msgs/build.rs:138-212 | where package files agree with directory names the resolution is what the existing paths say: bundled packages alone if there is any, else the earliest prefix for each wanted name along AMENT_PREFIX_PATH, else CMAKE_PREFIX_PATH, else the first of rolling, jazzy, iron and humble that holds any; a package is an existing path with msg, srv or action below it |
| `Packages.ResolutionMeans` | crates/ros-z-msgs/build.rs:138-383 | the overlay specification meets that reading of the existing paths, for every file system |
| `Packages.FallbackMeans` | crates/ros-z-msgs/build.rs:314-341 | the last resort alone, the four paths in order |

## Left out

- Null-pointer checks on C arguments where they only return an error, and implementation-identifier
  checks other than the one in fini.
- Aliasing that callers must avoid: one string array passed twice, init options copied onto
  themselves, two message pointers to the same message.
- Subscriptions.SerializedMessage.Store: does not model which allocator owned the buffer it
  replaces; the code frees it as a Rust vector whatever the caller used.
- NodeNames.FillTwo: looks for interior NULs in both texts before it stores the first, as the
  code does, but does not model the temporary C strings made for that.
- CMemory.StringArray.Init: takes a block also for size 0, where the documentation leaves a null
  pointer open.
- Nodes.Graph.CreateNode: why the local graph refuses or already holds a node is a parameter, and
  the node's own names are left out.
- Contexts.Context.Init: an enclave that is not valid UTF-8 reads as "/"; strings here are always
  valid.
- Packages.DiscoverRosPackages: environment variables arrive already split at colons, a path is a
  list of components, and the result is the map whose values the code returns in no fixed order.
- ErrorStrings.ErrorBuffer.Set: the buffer is a static; access to it from several threads at once is
  not modelled.
- `localhost_only`, which copying init options does not set.
- The check for remaining nodes in fini as a guarantee: nothing adds to that map.
- CDR encoding and decoding, shared memory, graph discovery, logging.
- Wait sets, the notifier, and callbacks of subscriptions and services; the client's response
  callback is modelled.
- The lenient QoS check and the matched-count functions: the check never reports an error.
- Loaned messages, content filters, network-flow endpoints, return-code mapping: constant results or
  one-branch facts.
