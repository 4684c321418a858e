# Master/slave connection manager — a verified Dafny model

This project models the bookkeeping of Redisson's `MasterSlaveConnectionManager`
as a sequential state machine, one call at a time. The manager has three parts:

- **Master write pool.** A permit counter (the semaphore) and a FIFO of idle
  master connections. `connectionWriteOp` takes a permit and reuses the oldest
  idle connection, or opens a new one. `releaseWrite` puts the connection at the
  tail and gives the permit back. Invariant: free permits plus checked-out
  connections equal the configured master pool size, and idle plus checked-out
  connections never exceed it. Each connection carries the pool it belongs to
  (master, or a slave pool of the load balancer), so a master connection never
  equals a read connection, even though both pools number their connections
  from their own counters.
- **Pub/sub registry.** A map from channel name to the `PubSubConnectionEntry`
  that carries the channel. Each entry is a subscribe connection with a fixed
  number of channel slots.
  - `subscribe` (both overloads, modelled once with an optional listener;
    `SubscribeChannel` is the listener-less call that failover uses) returns
    the registered entry when there is one.
  - Otherwise it puts the channel on a known entry that grants a slot. Only
    when every entry refuses does it ask the load balancer for a new connection.
  - `unsubscribe` / `unsubscribeEntry` drop a channel. They hand the connection
    back once its entry closes.
  - Invariant: every registered channel is subscribed on its entry, and each
    registered entry is subscribed only to channels registered on it, so to no
    channel registered elsewhere. An entry's reserved slots are exactly the
    channels registered on it, within its capacity.
- **Failover.** `changeMaster` points the master client at a new node and takes
  that node out of the load balancer. `reattachListeners` then moves every
  channel whose entry ran on one of the removed connections: it closes the
  entry, unsubscribes the channel, and when listeners were attached it
  subscribes the channel again and appends those listeners, in order, to the
  entry it lands on. Only after that is the old master client shut down.

Files:

- `manager.dfy`: the manager itself, a class with the source's fields.
- `pubsub_entry.dfy` and `balancer.dfy`: the collaborators `PubSubConnectionEntry`
  and `LoadBalancer`. Their source is not part of this model, so they are small
  classes whose contracts are the behaviour the manager relies on. Those
  contracts are assumptions of the model, not verified facts about Redisson:
  - `tryAcquire` succeeds iff a slot is free, and ignores whether the entry is closed;
  - `tryClose` succeeds iff no slot is held;
  - `unsubscribe` frees a slot and keeps the channel's listeners;
  - `addListener` appends the listener to the list of the channel being
    re-homed (the source's call at line 134 passes no channel name, so which
    list it extends is a choice of the model);
  - the balancer hands out a new subscribe connection on a slave with spare
    subscription capacity, or reports that there is none.
- `registry.dfy`: slot counting over the registry map and insert-if-absent.
- `seqs.dfy`: sequence helpers.
- `types.dfy`: values such as addresses, connections (tagged with their pool), listeners and the configuration.

## Model

| member | source | states |
|---|---|---|
| Manager.ConnectionManager.constructor | src/main/java/org/redisson/connection/MasterSlaveConnectionManager.java:87-101 | The balancer gets the password and one connection entry per configured slave, in configuration order, with the slave pool sizes. One client per slave is recorded. The master client points at the configured master. Permits equal the master pool size, and the idle queue, checked-out set and registry are empty, so the invariant holds. |
| Manager.ConnectionManager.AcquireMasterConnection | src/main/java/org/redisson/connection/MasterSlaveConnectionManager.java:259-267 | Takes exactly one permit. A caller that would block is excluded by `permits > 0`. |
| Manager.ConnectionManager.ConnectionWriteOp | src/main/java/org/redisson/connection/MasterSlaveConnectionManager.java:163-176 | Consumes one permit. With idle connections it returns the queue head and pops it. Otherwise it opens a new connection to the current master, authenticated iff a password is configured, and the queue stays empty. The connection is tagged with the master pool. It joins the checked-out multiset and the pool invariant is kept, so idle and checked-out connections together never exceed the pool size. |
| Manager.ConnectionManager.ReleaseWrite | src/main/java/org/redisson/connection/MasterSlaveConnectionManager.java:290-293 | Appends the connection at the queue tail, restores exactly one permit, removes it from the checked-out multiset, and keeps the pool invariant, under which every pooled connection is tagged with the master pool. |
| Manager.ConnectionManager.ConnectionReadOp | src/main/java/org/redisson/connection/MasterSlaveConnectionManager.java:179-181 | A read connection comes from one of the balancer's slave entries, authenticated iff a password is configured, and tagged with the slave pool, so it is never one of the master pool's connections. There is none iff no slave is registered. The manager's invariant is kept, so any other operation can follow. |
| Manager.ConnectionManager.ReleaseRead | src/main/java/org/redisson/connection/MasterSlaveConnectionManager.java:295-297 | The connection is handed back to the balancer exactly once. |
| Manager.ConnectionManager.GetEntry | src/main/java/org/redisson/connection/MasterSlaveConnectionManager.java:184-186 | There is a result iff the channel is registered. Under the registry invariant, the entry returned has the channel subscribed and holds a slot for it, at least one and at most its capacity. |
| Manager.ConnectionManager.Subscribe | src/main/java/org/redisson/connection/MasterSlaveConnectionManager.java:189-257 | A registered channel returns its entry and nothing changes: that entry is untouched (no listener attached), registry and balancer unchanged. Otherwise the channel goes onto a known entry iff one had a free slot; that entry gains exactly one slot, the channel and the listener. Otherwise a new entry over a new balancer connection gets slot 1, the channel and the listener. No result only when the balancer had no spare subscription capacity. All other entries are unchanged and the registry invariant is kept. |
| Manager.ConnectionManager.SubscribeChannel | src/main/java/org/redisson/connection/MasterSlaveConnectionManager.java:189-220 | The overload without a listener. Afterwards the channel is registered on the entry returned, and nothing else in the registry changes. No entry's listeners or closed flag change. The entry is a known one, or a new one with no listeners. A registered channel gets its own entry back. Otherwise a known entry is reused iff one had a free slot, so a new connection is requested only when every known entry refuses. Live subscribe connections stay live. |
| Manager.ConnectionManager.SubscribeOnKnownEntry | src/main/java/org/redisson/connection/MasterSlaveConnectionManager.java:196-207 | The loop over a snapshot of the registry's entries stops at the first that grants a slot and registers the channel there. If none does, every entry was full and nothing changed. |
| Manager.ConnectionManager.SubscribeOnNewConnection | src/main/java/org/redisson/connection/MasterSlaveConnectionManager.java:209-219 | Asks the balancer for a connection. On success the channel is registered on a fresh entry with capacity `subscriptionsPerConnection`, one slot held, the channel subscribed and the listener attached. On failure nothing changes in the registry. |
| Manager.ConnectionManager.Claim | src/main/java/org/redisson/connection/MasterSlaveConnectionManager.java:198-205 | Succeeds iff the entry had a free slot. On success the channel is registered on it with one more slot. On failure the entry and the registry are unchanged. |
| Manager.ConnectionManager.Register | src/main/java/org/redisson/connection/MasterSlaveConnectionManager.java:199-205 | Insert-if-absent after a miss always installs the entry; the "already present" branch is proved unreachable. The registry gains exactly this channel, the entry subscribes it and gets the listener, and slot occupancy matches the registry again. |
| Manager.ConnectionManager.Attach | src/main/java/org/redisson/connection/MasterSlaveConnectionManager.java:204 | The entry subscribes the channel already registered on it, and the listener goes at the end of the channel's list. The registry invariant is whole again: every registered channel is subscribed on its entry, and every entry only on channels registered on it. |
| Manager.ConnectionManager.Unsubscribe | src/main/java/org/redisson/connection/MasterSlaveConnectionManager.java:269-276 | While the entry has listeners for the channel, nothing changes. Otherwise the channel leaves the registry and the entry, freeing one slot, and the listeners are kept. The entry closes iff its last slot is gone; exactly then its connection goes back to the balancer and leaves the live list, otherwise the balancer is unchanged. |
| Manager.ConnectionManager.UnsubscribeEntry | src/main/java/org/redisson/connection/MasterSlaveConnectionManager.java:278-284 | Removes exactly this channel from the registry, frees one slot, keeps the listeners, and keeps the registry invariant. The entry closes iff its last slot is gone; exactly then its connection is returned to the balancer, otherwise the balancer is unchanged. |
| Manager.ConnectionManager.ReturnSubscribeConnection | src/main/java/org/redisson/connection/MasterSlaveConnectionManager.java:286-288 | The entry's connection is handed back once and is no longer live. |
| Manager.ConnectionManager.ChangeMaster | src/main/java/org/redisson/connection/MasterSlaveConnectionManager.java:108-114 | The master client points at (host, port), and that node's entries leave the balancer. Only the registry, the entries, and the balancer's entries, live list, serial counter and returned connections may change; the password does not. `removed` is exactly the subscribe connections that were open on the node. Connections live before on other nodes stay live, and every connection live afterwards is one of those or was opened during the call. Channels on other connections keep their entry and listeners, and those entries keep their closed flag. No channel is added. On completion every channel on a removed connection has been re-registered with its listeners, or unregistered when it had none (see ReattachListeners). Only then is the old master client reported shut down. |
| Manager.ConnectionManager.DropNode | src/main/java/org/redisson/connection/MasterSlaveConnectionManager.java:111-112 | The balancer removes the node, and the channels of its connections are moved. The frame and the facts about the balancer's live list, untouched entries and untouched channels are the same as for ChangeMaster. |
| Manager.ConnectionManager.ReattachListeners | src/main/java/org/redisson/connection/MasterSlaveConnectionManager.java:116-140 | Channels on connections outside `removed` keep their entry and listeners, and no channel is added. Entries on connections outside `removed` keep their closed flag. Connections live before and outside `removed` stay live, and the balancer only gains connections opened since (Untouched). When the walk completes, every channel on a removed connection had its entry closed. It is unregistered if it had no listeners; otherwise it is registered again with its listeners, in their order, at the end of the new entry's list. The invariant is kept. |
| Manager.ConnectionManager.ReattachNext | src/main/java/org/redisson/connection/MasterSlaveConnectionManager.java:117-139 | One turn of the outer loop keeps the loop's progress predicates (Kept, MovedSoFar, and UntouchedSince against the closed flags, live list and serial counter recorded when the walk began) with the channel marked visited. |
| Manager.ConnectionManager.ReattachChannel | src/main/java/org/redisson/connection/MasterSlaveConnectionManager.java:118-138 | A channel whose entry's connection is not in `removed` changes nothing: registry, balancer and every entry are unchanged. Otherwise the channel is moved (see Rehome). Every other channel keeps its entry and listeners, and every other entry its closed flag. Connections outside `removed` stay live, and the balancer only gains new ones. |
| Manager.ConnectionManager.Rehome | src/main/java/org/redisson/connection/MasterSlaveConnectionManager.java:123-136 | The entry is closed and the channel is unsubscribed. With no listeners the channel ends unregistered; with listeners it is registered again with them at the end of its entry's list. Other channels and their listeners are unchanged, and every other entry keeps its closed flag. Live connections other than the entry's stay live, and the balancer only gains new ones. |
| Manager.ConnectionManager.Detach | src/main/java/org/redisson/connection/MasterSlaveConnectionManager.java:127-128 | Closes the entry and removes exactly this channel from the registry and from the entry, freeing one slot, without touching any listeners. When that was the last slot the entry's connection goes back to the balancer and leaves the live list; otherwise the balancer's live list and returned connections are unchanged. |
| Manager.ConnectionManager.Resubscribe | src/main/java/org/redisson/connection/MasterSlaveConnectionManager.java:130-135 | Subscribes the channel again without a listener (SubscribeChannel), then appends the captured listeners. On a fresh entry the channel's listeners are exactly those; on a reused entry they are its previous list followed by those. Other channels, every entry's closed flag and the live connections are unchanged, except that the balancer may open a new one. |
| Manager.ConnectionManager.AttachListeners | src/main/java/org/redisson/connection/MasterSlaveConnectionManager.java:133-135 | The loop appends the listeners, in order, to the channel's list. Every other channel's list is unchanged. |
| Manager.HostsAfterPut | src/main/java/org/redisson/connection/MasterSlaveConnectionManager.java:199 | Registering a new channel on one entry keeps the registry invariant for every other entry: its slot count still matches the channels registered on it, and it is still subscribed only to channels registered on it. |
| Manager.HostsAfterRemove | src/main/java/org/redisson/connection/MasterSlaveConnectionManager.java:279 | Removing a channel registered on one entry keeps the registry invariant for every other entry: the same two facts hold against the smaller registry. |
| Registry.PutIfAbsent | src/main/java/org/redisson/connection/MasterSlaveConnectionManager.java:199-203 | The first value registered under a key wins. Afterwards the key is present and no value already in the map is replaced. There is a previous value iff the key was present, and it is the value the key now holds. Otherwise the key holds the value offered. |
| Registry.PutIfAbsentAfterMiss | src/main/java/org/redisson/connection/MasterSlaveConnectionManager.java:191-203 | After a lookup that missed, insert-if-absent installs the value and reports no previous one, so the release-and-return branch cannot run in a sequential run. |
| Registry.OccupancyPut | src/main/java/org/redisson/connection/MasterSlaveConnectionManager.java:199 | Registering a new channel on an entry gives that entry exactly one more registered channel and every other entry none. |
| Registry.OccupancyRemove | src/main/java/org/redisson/connection/MasterSlaveConnectionManager.java:279 | Removing a channel takes exactly one registered channel from its entry and none from any other. |
| Registry.OccupancyHeld | src/main/java/org/redisson/connection/MasterSlaveConnectionManager.java:279-280 | A registered channel's entry holds at least one channel, so unsubscribing it has a slot to free. |
| Registry.OccupancyAbsent | src/main/java/org/redisson/connection/MasterSlaveConnectionManager.java:211-213 | An entry not yet in the registry holds no registered channel. |
| Seqs.Filter | src/main/java/org/redisson/connection/MasterSlaveConnectionManager.java:111 | The connections the balancer hands back on removal are exactly the live ones on the node, and no longer than the live list. |
| Seqs.FilterDistinct | src/main/java/org/redisson/connection/MasterSlaveConnectionManager.java:111 | The removed connections hold each connection once. The inner loop of the re-homing relies on this to move a channel at most once. |
| Seqs.AppendDistinct | src/main/java/org/redisson/connection/MasterSlaveConnectionManager.java:222-224 | A new subscribe connection added to the live list keeps it duplicate-free. |

## Left out

- Netty event-loop groups, codec wrapping, and the shutdown of clients and groups (lines 103-106, 299-312). These are I/O and thread plumbing. The old master's shutdown in `changeMaster` appears only as the reported `shutDown` result.
- Network calls (`RedisClient.connect`, `auth`, and the wire-level subscribe and unsubscribe). A connection is a value with an address and a serial number. An opened connection is fresh, and authentication is a flag.
- Concurrency: `ConcurrentHashMap` atomicity, `synchronized (entry)`, `volatile`, and blocking in `acquireUninterruptibly`. A blocked acquire is the precondition `permits > 0`. Iteration over the registry in `subscribe` and `reattachListeners` walks a snapshot, in no particular order.
- Logging and wall-clock timing in `acquireMasterConnection`, and the Netty release listeners (lines 142-160), which only forward to `releaseWrite` / `releaseRead`.
- The load balancer's selection policy and its read-connection pool bounds. Any slave with spare subscription capacity may be chosen; a read connection is opened on the first slave.
- Manager.ConnectionManager.Register: the source's lost-race branch (release the slot, or return the new connection, then return the other caller's entry) is proved unreachable rather than modelled.
- Manager.ConnectionManager.constructor: requires `subscriptionsPerConnection > 0`. The source ignores the result of `tryAcquire` on a fresh entry (lines 212, 249), so with capacity 0 it would register a channel without a slot.
- Manager.ConnectionManager.GetEntry: requires the registry invariant, which every operation keeps. The lookup itself needs nothing; the invariant is what lets the contract say the entry carries the channel.
- Manager.ConnectionManager.UnsubscribeEntry: requires that the channel is registered on the given entry. The source removes by name alone and trusts its callers to pass the registered entry.
- Manager.ConnectionManager.Unsubscribe: when the channel has no listeners left, requires that it is registered on the given entry, as for UnsubscribeEntry.
- Manager.ConnectionManager.ReleaseWrite: requires a connection that is checked out, one release per acquire. The source does not check this.
- Manager.ConnectionManager.ChangeMaster: the idle master queue is not drained, exactly as in the source. A connection to the old master can therefore still be handed out by ConnectionWriteOp after a failover.
- Manager.ConnectionManager.ReattachListeners: states that a moved channel's listeners end up at the end of its new entry's list, not which entry that is. It can be any entry with a free slot, including one on a connection in `removed`: the known-entry scan of `subscribe` (lines 196-207) does not skip those, in the source as in the model. Example: channel A on entry E1 over R1 and channel B on entry E2 over R2, capacity 2, one slot used on each, `removed` = [R1, R2], A visited first. Detaching A leaves E2 as the only entry with a free slot, so A lands on E2. Visiting B then closes E2, and A, already visited, stays registered on the closed E2 whose connection the balancer has dropped. So `changeMaster` does not guarantee that every channel ends on a usable entry. The collaborator contract also lets a closed entry still grant a slot, so a channel can land back on its own closed entry. Its listener list is then the old list followed by the captured one (Resubscribe states this exactly).
- Manager.ConnectionManager.ChangeMaster: how the balancer fails when it has no subscribe connection to give is not part of this model. The balancer is assumed to report that there is none. Re-homing then stops with `ok` false, leaves the remaining channels as they are, and does not shut the old master down. The manager's own code has no failure branch there. If the balancer returned null, lines 211-213 would register the channel on an entry without a connection before the subscribe at line 218 failed; that path is not modelled.
