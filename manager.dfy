/** The master/slave connection manager: a bounded pool of command connections
    to the master, the registry that multiplexes pub/sub channels onto shared
    subscribe connections, and the re-homing of those channels when the master
    changes. The model is sequential: one call runs at a time. */
module Manager {
  import opened Types
  import opened Seqs
  import opened Registry
  import opened Balancer
  import opened PubSub

  /** `e` reserves a slot for each channel `registry` maps to it, plus
      `extra`, within its capacity. */
  ghost predicate Hosts(e: PubSubEntry, registry: map<string, PubSubEntry>, extra: nat)
    reads e`slots
  {
    && e.slots == Occupancy(registry, e) + extra
    && e.slots <= e.capacity
  }

  /** `e` is subscribed only to channels `registry` maps to it. */
  ghost predicate SubscribedHere(e: PubSubEntry, registry: map<string, PubSubEntry>)
    reads e`channels
  {
    forall ch {:trigger ch in e.channels} :: ch in e.channels ==> ch in registry && registry[ch] == e
  }

  /** Registering a new channel on another entry leaves what `e` hosts as it was. */
  lemma HostsAfterPut(e: PubSubEntry, before: map<string, PubSubEntry>, channel: string, entry: PubSubEntry)
    requires channel !in before && e != entry
    requires Hosts(e, before, 0) && SubscribedHere(e, before)
    ensures Hosts(e, before[channel := entry], 0) && SubscribedHere(e, before[channel := entry])
  {
    OccupancyPut(before, channel, entry, e);
  }

  /** Dropping a channel registered on another entry leaves what `e` hosts as it was. */
  lemma HostsAfterRemove(e: PubSubEntry, before: map<string, PubSubEntry>, channel: string)
    requires channel in before && before[channel] != e
    requires Hosts(e, before, 0) && SubscribedHere(e, before)
    ensures Hosts(e, before - {channel}, 0) && SubscribedHere(e, before - {channel})
  {
    OccupancyRemove(before, channel, e);
  }

  class ConnectionManager {
    const config: Config
    const balancer: LoadBalancer
    /** Clients opened for the configured slaves, in configuration order. */
    var slaveClients: seq<Address>
    /** The node the master client points at. */
    var masterClient: Address
    /** Idle master connections, oldest first. */
    var masterConnections: seq<Conn>
    /** Free permits of the master pool semaphore. */
    var permits: int
    /** Serial of the next connection opened through the master client. */
    var nextSerial: nat
    /** Channel name to the entry that carries it. */
    var registry: map<string, PubSubEntry>
    /** Master connections handed out and not yet released. */
    ghost var checkedOut: multiset<Conn>

    ghost predicate Valid()
      reads this`permits, this`checkedOut, this`masterConnections, this`registry, balancer, registry.Values`slots, registry.Values`channels
    {
      && balancer.Valid()
      && PoolValid()
      && config.subscriptionsPerConnection > 0
      && RegistryHolds(None)
    }

    /** Bounded master pool: free permits and checked-out connections add up
        to the configured pool size, idle and checked-out connections together
        never exceed it, and all of them belong to the master pool. */
    ghost predicate PoolValid()
      reads this`permits, this`checkedOut, this`masterConnections
    {
      && 0 <= permits && permits + |checkedOut| == config.masterConnectionPoolSize
      && |masterConnections| + |checkedOut| <= config.masterConnectionPoolSize
      && (forall c :: c in masterConnections ==> c.pool == MasterPool)
      && (forall c :: c in checkedOut ==> c.pool == MasterPool)
    }

    /** A registered channel is physically subscribed on its entry; an entry
        is subscribed to exactly the channels registered on it, so to no
        channel registered elsewhere; and its reserved slots count those
        channels (plus one for `reserved`, whose slot is taken but whose
        channel is not registered yet), within its capacity. */
    ghost predicate RegistryHolds(reserved: Option<PubSubEntry>)
      reads this`registry, registry.Values`slots, registry.Values`channels
    {
      && (forall ch :: ch in registry ==> ch in registry[ch].channels)
      && (forall e :: e in registry.Values ==>
            Hosts(e, registry, if reserved == Some(e) then 1 else 0) && SubscribedHere(e, registry))
    }

    /** Sets up the load balancer with one entry per configured slave, the
        master client, and a master pool of the configured size. */
    constructor (cfg: Config)
      requires cfg.subscriptionsPerConnection > 0
      ensures Valid() && fresh(balancer)
      ensures config == cfg
      ensures balancer.password == cfg.password
      ensures slaveClients == cfg.slaveAddresses
      ensures |balancer.entries| == |cfg.slaveAddresses|
      ensures forall i :: 0 <= i < |cfg.slaveAddresses| ==>
        balancer.entries[i] == ConnectionEntry(cfg.slaveAddresses[i], cfg.slaveConnectionPoolSize,
                                               cfg.slaveSubscriptionConnectionPoolSize)
      ensures balancer.live == [] && balancer.returned == multiset{}
      ensures masterClient == cfg.masterAddress
      ensures permits == cfg.masterConnectionPoolSize && masterConnections == [] && checkedOut == multiset{}
      ensures registry == map[]
    {
      var b := new LoadBalancer();
      b.Init(cfg.password);
      var clients: seq<Address> := [];
      for i := 0 to |cfg.slaveAddresses|
        invariant b.Valid() && b.live == [] && b.returned == multiset{} && b.password == cfg.password
        invariant clients == cfg.slaveAddresses[..i]
        invariant |b.entries| == i
        invariant forall k :: 0 <= k < i ==>
          b.entries[k] == ConnectionEntry(cfg.slaveAddresses[k], cfg.slaveConnectionPoolSize,
                                          cfg.slaveSubscriptionConnectionPoolSize)
      {
        var address := cfg.slaveAddresses[i];
        clients := clients + [address];
        b.Add(ConnectionEntry(address, cfg.slaveConnectionPoolSize, cfg.slaveSubscriptionConnectionPoolSize));
      }
      config := cfg;
      balancer := b;
      slaveClients := clients;
      masterClient := cfg.masterAddress;
      permits := cfg.masterConnectionPoolSize;
      masterConnections := [];
      nextSerial := 0;
      checkedOut := multiset{};
      registry := map[];
    }

    // ------------------------------------------------------------------
    // Master pool

    /** Takes one permit of the master pool. A caller that would block until
        a permit frees up is modelled by the precondition. */
    method AcquireMasterConnection()
      requires permits > 0
      modifies this`permits
      ensures permits == old(permits) - 1
    {
      permits := permits - 1;
    }

    /** Hands out a master connection: the oldest idle one if there is one,
        otherwise a new connection to the current master, authenticated when a
        password is configured. */
    method ConnectionWriteOp() returns (c: Conn)
      requires Valid()
      requires permits > 0
      modifies this`permits, this`masterConnections, this`nextSerial, this`checkedOut
      ensures Valid()
      ensures permits == old(permits) - 1
      ensures checkedOut == old(checkedOut) + multiset{c}
      ensures c.pool == MasterPool
      ensures old(masterConnections) != [] ==>
        c == old(masterConnections)[0] && masterConnections == old(masterConnections)[1..]
        && nextSerial == old(nextSerial)
      ensures old(masterConnections) == [] ==>
        masterConnections == [] && nextSerial == old(nextSerial) + 1
        && c.node == masterClient && c.serial == old(nextSerial)
        && c.authenticated == config.password.Some?
    {
      AcquireMasterConnection();
      if masterConnections != [] {
        c := masterConnections[0];
        masterConnections := masterConnections[1..];
      } else {
        c := Conn(masterClient, nextSerial, false, MasterPool);
        nextSerial := nextSerial + 1;
        if config.password.Some? {
          c := c.(authenticated := true);
        }
      }
      checkedOut := checkedOut + multiset{c};
    }

    /** Puts a master connection back at the tail of the idle queue and frees
        its permit; each connection handed out is released once. */
    method ReleaseWrite(c: Conn)
      requires Valid()
      requires c in checkedOut
      modifies this`permits, this`masterConnections, this`checkedOut
      ensures Valid()
      ensures masterConnections == old(masterConnections) + [c]
      ensures permits == old(permits) + 1
      ensures checkedOut == old(checkedOut) - multiset{c}
    {
      masterConnections := masterConnections + [c];
      permits := permits + 1;
      checkedOut := checkedOut - multiset{c};
    }

    /** Read connections come from the load balancer. */
    method ConnectionReadOp() returns (r: Option<Conn>)
      requires Valid()
      modifies balancer`nextSerial
      ensures Valid()
      ensures r.None? <==> balancer.entries == []
      ensures r.Some? ==> exists e :: e in balancer.entries && e.addr == r.value.node
      ensures r.Some? ==> r.value.authenticated == balancer.password.Some? && r.value.pool == SlavePool
    {
      r := balancer.NextConnection();
    }

    method ReleaseRead(c: Conn)
      modifies balancer`returnedReads
      ensures balancer.returnedReads == old(balancer.returnedReads) + multiset{c}
    {
      balancer.ReturnConnection(c);
    }

    // ------------------------------------------------------------------
    // Pub/sub registry

    /** The entry that carries `channel`, if any: one on which the channel is
        subscribed and which holds a slot for it. */
    function GetEntry(channel: string): (r: Option<PubSubEntry>)
      requires RegistryHolds(None)
      reads this`registry, registry.Values
      ensures r.Some? <==> channel in registry
      ensures r.Some? ==> registry[channel] == r.value
      ensures r.Some? ==> channel in r.value.channels && 1 <= r.value.slots <= r.value.capacity
    {
      if channel in registry then
        OccupancyHeld(registry, channel);
        Some(registry[channel])
      else None
    }

    /** Finds or creates the entry for `channel`. A channel already registered
        keeps its entry and nothing changes (the listener is not attached on
        that path). Otherwise the channel goes onto the first known entry that
        grants a slot; only when every known entry refuses is a new subscribe
        connection requested from the load balancer. None when the balancer
        has no connection to give. */
    method Subscribe(channel: string, listener: Option<Listener>) returns (r: Option<PubSubEntry>)
      requires Valid()
      modifies this`registry, balancer`live, balancer`nextSerial, registry.Values
      ensures Valid()
      ensures balancer.Grown() && forall c :: c in old(balancer.live) ==> c in balancer.live
      ensures r.Some? ==> channel in registry && registry[channel] == r.value
      ensures r.Some? ==> r.value in old(registry.Values) || fresh(r.value)
      ensures forall e :: e in registry.Values ==> e in old(registry.Values) || fresh(e)
      ensures forall e :: e in old(registry.Values) && r != Some(e) ==> unchanged(e)
      // already registered
      ensures channel in old(registry) ==>
        && r == Some(old(registry)[channel]) && registry == old(registry) && unchanged(balancer)
        && unchanged(old(registry)[channel])
      // registered on an entry that had a free slot
      ensures channel !in old(registry) && r.Some? && r.value in old(registry.Values) ==>
        && registry == old(registry)[channel := r.value]
        && unchanged(balancer)
        && old(r.value.slots) < r.value.capacity
        && r.value.slots == old(r.value.slots) + 1
        && r.value.channels == old(r.value.channels) + {channel}
        && r.value.closed == old(r.value.closed)
        && (listener.None? ==> r.value.listeners == old(r.value.listeners))
        && (listener.Some? ==>
              r.value.listeners == old(r.value.listeners)[channel := old(r.value.ListenersOf(channel)) + [listener.value]])
      // a known entry is reused exactly when one had a free slot
      ensures channel !in old(registry) ==>
        ((exists e :: e in old(registry.Values) && old(e.slots) < e.capacity)
         <==> (r.Some? && r.value in old(registry.Values)))
      // registered on a new entry over a new subscribe connection
      ensures channel !in old(registry) && r.Some? && r.value !in old(registry.Values) ==>
        && registry == old(registry)[channel := r.value]
        && r.value.conn !in old(balancer.live)
        && balancer.live == old(balancer.live) + [r.value.conn]
        && r.value.capacity == config.subscriptionsPerConnection
        && r.value.slots == 1
        && r.value.channels == {channel}
        && !r.value.closed
        && r.value.listeners == (if listener.Some? then map[channel := [listener.value]] else map[])
      // the balancer had nothing to give
      ensures r.None? ==>
        && channel !in old(registry)
        && registry == old(registry)
        && balancer.live == old(balancer.live)
        && forall e :: e in balancer.entries ==> !old(balancer.HasFreeSubscription(e))
    {
      if channel in registry {
        return Some(registry[channel]);
      }
      r := SubscribeOnKnownEntry(channel, listener);
      if r.None? {
        r := SubscribeOnNewConnection(channel, listener);
      }
    }

    /** The middle step of Subscribe: tries the entries already in the
        registry, in no particular order, and registers `channel` on the first
        that grants a slot. None, with nothing changed, when every entry
        refuses. */
    method SubscribeOnKnownEntry(channel: string, listener: Option<Listener>) returns (r: Option<PubSubEntry>)
      requires Valid()
      requires channel !in registry
      modifies this`registry, registry.Values
      ensures Valid()
      ensures r.None? ==>
        && registry == old(registry)
        && (forall e :: e in old(registry.Values) ==> unchanged(e))
        && (forall e :: e in old(registry.Values) ==> e.slots >= e.capacity)
      ensures r.Some? ==>
        && r.value in old(registry.Values)
        && registry == old(registry)[channel := r.value]
        && (forall e :: e in old(registry.Values) && e != r.value ==> unchanged(e))
        && old(r.value.slots) < r.value.capacity
        && r.value.slots == old(r.value.slots) + 1
        && r.value.channels == old(r.value.channels) + {channel}
        && r.value.closed == old(r.value.closed)
        && (listener.None? ==> r.value.listeners == old(r.value.listeners))
        && (listener.Some? ==>
              r.value.listeners == old(r.value.listeners)[channel := old(r.value.ListenersOf(channel)) + [listener.value]])
    {
      var entries := registry.Values;
      var untried := entries;
      while untried != {}
        invariant untried <= entries
        invariant registry == old(registry)
        invariant forall e :: e in entries ==> unchanged(e)
        invariant forall e :: e in entries - untried ==> e.slots >= e.capacity
        invariant Valid()
        decreases untried
      {
        var e :| e in untried;
        var acquired := Claim(channel, e, listener);
        if acquired {
          return Some(e);
        }
        untried := untried - {e};
      }
      r := None;
    }

    /** The last step of Subscribe: asks the balancer for a new subscribe
        connection, wraps it in a new entry, reserves a slot and registers
        `channel` there. None when the balancer has no connection to give. */
    method SubscribeOnNewConnection(channel: string, listener: Option<Listener>) returns (r: Option<PubSubEntry>)
      requires Valid()
      requires channel !in registry
      modifies this`registry, balancer`live, balancer`nextSerial
      ensures balancer.Grown()
      ensures r.None? ==>
        && registry == old(registry)
        && balancer.live == old(balancer.live)
        && forall e :: e in balancer.entries ==> !old(balancer.HasFreeSubscription(e))
      ensures r.Some? ==>
        && fresh(r.value)
        && registry == old(registry)[channel := r.value]
        && r.value.conn !in old(balancer.live)
        && balancer.live == old(balancer.live) + [r.value.conn]
        && r.value.capacity == config.subscriptionsPerConnection
        && r.value.slots == 1
        && r.value.channels == {channel}
        && !r.value.closed
        && r.value.listeners == (if listener.Some? then map[channel := [listener.value]] else map[])
      ensures Valid()
    {
      var conn := balancer.NextPubSubConnection();
      if conn.None? {
        return None;
      }
      var entry := new PubSubEntry(conn.value, config.subscriptionsPerConnection);
      var acquired := entry.TryAcquire();
      OccupancyAbsent(registry, entry);
      Register(channel, entry, listener);
      r := Some(entry);
      if listener.Some? {
        var empty: map<string, seq<Listener>> := map[];
        assert [] + [listener.value] == [listener.value];
        assert empty[channel := [listener.value]] == map[channel := [listener.value]];
      }
    }

    /** One step of the scan in Subscribe: when `entry` grants a slot,
        registers `channel` on it. */
    method Claim(channel: string, entry: PubSubEntry, listener: Option<Listener>) returns (ok: bool)
      requires Valid()
      requires channel !in registry
      requires entry in registry.Values
      modifies this`registry, entry`slots, entry`channels, entry`listeners
      ensures Valid()
      ensures ok == (old(entry.slots) < entry.capacity)
      ensures !ok ==> unchanged(entry) && registry == old(registry)
      ensures ok ==>
        && registry == old(registry)[channel := entry]
        && entry.slots == old(entry.slots) + 1
        && entry.channels == old(entry.channels) + {channel}
        && (listener.None? ==> entry.listeners == old(entry.listeners))
        && (listener.Some? ==>
              entry.listeners == old(entry.listeners)[channel := old(entry.ListenersOf(channel)) + [listener.value]])
    {
      ok := entry.TryAcquire();
      if ok {
        Register(channel, entry, listener);
      }
    }

    /** Registers `channel` on `entry`, whose slot for it is already reserved,
        through insert-if-absent, and subscribes it there. */
    method Register(channel: string, entry: PubSubEntry, listener: Option<Listener>)
      requires balancer.Valid() && PoolValid() && config.subscriptionsPerConnection > 0
      requires RegistryHolds(Some(entry))
      requires channel !in registry
      requires entry.slots == Occupancy(registry, entry) + 1 <= entry.capacity
      requires entry in registry.Values || entry.channels == {}
      modifies this`registry, entry`channels, entry`listeners
      ensures registry == old(registry)[channel := entry]
      ensures entry.channels == old(entry.channels) + {channel}
      ensures listener.None? ==> entry.listeners == old(entry.listeners)
      ensures listener.Some? ==>
        entry.listeners == old(entry.listeners)[channel := old(entry.ListenersOf(channel)) + [listener.value]]
      ensures Valid()
    {
      var (next, previous) := PutIfAbsent(registry, channel, entry);
      PutIfAbsentAfterMiss(registry, channel, entry);
      if previous.Some? {
        // another caller registered the channel first: the source gives the
        // slot back and returns that caller's entry; unreachable here
        assert false;
      }
      forall e | e in registry.Values && e != entry
        ensures Hosts(e, next, 0) && SubscribedHere(e, next)
      {
        HostsAfterPut(e, registry, channel, entry);
      }
      OccupancyPut(registry, channel, entry, entry);
      if entry in registry.Values {
        assert SubscribedHere(entry, registry);
      }
      assert channel !in entry.channels;
      ghost var before := registry;
      registry := next;
      forall e | e in registry.Values
        ensures Hosts(e, registry, 0) && SubscribedHere(e, registry)
      {
        if e != entry {
          var k :| k in registry && registry[k] == e;
          assert before[k] == e;
        }
      }
      Attach(channel, entry, listener);
    }

    /** Subscribes `entry` to `channel`, which is already registered on it:
        the step that completes a registration. */
    method Attach(channel: string, entry: PubSubEntry, listener: Option<Listener>)
      requires balancer.Valid() && PoolValid() && config.subscriptionsPerConnection > 0
      requires channel in registry && registry[channel] == entry && channel !in entry.channels
      requires forall ch :: ch in registry && ch != channel ==> ch in registry[ch].channels
      requires forall e :: e in registry.Values ==> Hosts(e, registry, 0) && SubscribedHere(e, registry)
      modifies entry`channels, entry`listeners
      ensures entry.channels == old(entry.channels) + {channel}
      ensures listener.None? ==> entry.listeners == old(entry.listeners)
      ensures listener.Some? ==>
        entry.listeners == old(entry.listeners)[channel := old(entry.ListenersOf(channel)) + [listener.value]]
      ensures Valid()
    {
      entry.Subscribe(channel, listener);
      forall e | e in registry.Values
        ensures Hosts(e, registry, 0) && SubscribedHere(e, registry)
      {
        if e == entry {
          assert old(SubscribedHere(entry, registry));
        }
      }
    }

    /** Tears `channel` down once no listener is left on it. */
    method Unsubscribe(entry: PubSubEntry, channel: string)
      requires Valid()
      requires !entry.HasListeners(channel) ==> channel in registry && registry[channel] == entry
      modifies this`registry, entry`slots, entry`channels, entry`closed, balancer`live, balancer`returned
      ensures Valid()
      ensures old(entry.HasListeners(channel)) ==>
        registry == old(registry) && unchanged(entry) && unchanged(balancer)
      ensures !old(entry.HasListeners(channel)) ==>
        && registry == old(registry) - {channel}
        && entry.slots == old(entry.slots) - 1
        && entry.channels == old(entry.channels) - {channel}
        && entry.listeners == old(entry.listeners)
        && entry.closed == (old(entry.closed) || entry.slots == 0)
        && (entry.slots == 0 ==>
              && balancer.returned == old(balancer.returned) + multiset{entry.conn}
              && forall c :: c in balancer.live <==> c in old(balancer.live) && c != entry.conn)
        && (entry.slots != 0 ==> unchanged(balancer))
    {
      if entry.HasListeners(channel) {
        return;
      }
      UnsubscribeEntry(entry, channel);
    }

    /** Drops `channel` from the registry, unsubscribes it on the entry, and
        hands the entry's connection back to the balancer exactly when the
        entry closes because its last slot is gone. */
    method UnsubscribeEntry(entry: PubSubEntry, channel: string)
      requires Valid()
      requires channel in registry && registry[channel] == entry
      modifies this`registry, entry`slots, entry`channels, entry`closed, balancer`live, balancer`returned
      ensures registry == old(registry) - {channel}
      ensures entry.slots == old(entry.slots) - 1
      ensures entry.channels == old(entry.channels) - {channel}
      ensures entry.listeners == old(entry.listeners)
      ensures entry.closed == (old(entry.closed) || entry.slots == 0)
      ensures entry.slots == 0 ==>
        && balancer.returned == old(balancer.returned) + multiset{entry.conn}
        && forall c :: c in balancer.live <==> c in old(balancer.live) && c != entry.conn
      ensures entry.slots != 0 ==> unchanged(balancer)
      ensures Valid()
    {
      assert registry[channel] in registry.Values;
      assert Hosts(entry, registry, 0) && SubscribedHere(entry, registry);
      OccupancyHeld(registry, channel);
      OccupancyRemove(registry, channel, entry);
      forall e | e in registry.Values && e != entry
        ensures Hosts(e, registry - {channel}, 0) && SubscribedHere(e, registry - {channel})
      {
        HostsAfterRemove(e, registry, channel);
      }
      ghost var before := registry;
      registry := registry - {channel};
      entry.Unsubscribe(channel);
      var closed := entry.TryClose();
      if closed {
        ReturnSubscribeConnection(entry);
      }
      forall e | e in registry.Values
        ensures Hosts(e, registry, 0) && SubscribedHere(e, registry)
      {
        if e != entry {
          var k :| k in registry && registry[k] == e;
          assert before[k] == e;
        } else {
          assert old(Hosts(entry, before, 0) && SubscribedHere(entry, before));
        }
      }
    }

    method ReturnSubscribeConnection(entry: PubSubEntry)
      requires balancer.Valid()
      modifies balancer`live, balancer`returned
      ensures balancer.Valid()
      ensures balancer.returned == old(balancer.returned) + multiset{entry.conn}
      ensures forall c :: c in balancer.live <==> c in old(balancer.live) && c != entry.conn
    {
      balancer.ReturnSubscribeConnection(entry.conn);
    }

    // ------------------------------------------------------------------
    // Failover

    /** Points the master client at (host, port), takes that node out of the
        load balancer and moves the channels of the subscribe connections it
        hosted (`removed`); only then is the old master client shut down,
        which the call reports as `shutDown`. When a channel cannot be moved
        (the balancer has no connection to give) the call stops there
        (`ok` is false) and the old master client is left running. */
    method ChangeMaster(host: string, port: int)
      returns (ok: bool, shutDown: Option<Address>, ghost removed: seq<PubSubConn>,
               ghost before: map<string, PubSubEntry>, ghost captured: map<string, seq<Listener>>)
      requires Valid()
      modifies this`masterClient, this`registry, registry.Values
      modifies balancer`entries, balancer`live, balancer`nextSerial, balancer`returned
      ensures Valid()
      ensures masterClient == Address(host, port)
      ensures shutDown == (if ok then Some(old(masterClient)) else None)
      ensures forall e :: e in balancer.entries <==> e in old(balancer.entries) && e.addr != Address(host, port)
      ensures forall c :: c in removed <==> c in old(balancer.live) && c.node == Address(host, port)
      ensures forall c :: c in old(balancer.live) && c.node != Address(host, port) ==> c in balancer.live
      ensures forall c :: c in balancer.live ==>
        (c in old(balancer.live) && c.node != Address(host, port)) || old(balancer.nextSerial) <= c.serial
      ensures before == old(registry) && captured == old(Captured(registry))
      ensures registry.Keys <= before.Keys
      ensures forall x :: x in before.Values && x.conn !in removed ==> x.closed == old(x.closed)
      ensures Kept(before, captured, {}, removed)
      ensures ok ==> MovedSoFar(before, captured, {}, removed)
    {
      var oldMaster := masterClient;
      masterClient := Address(host, port);
      ok, removed, before, captured := DropNode(masterClient);
      shutDown := if ok then Some(oldMaster) else None;
    }

    /** Takes `addr` out of the load balancer and moves the channels of the
        subscribe connections open on it (`removed`), see ReattachListeners. */
    method DropNode(addr: Address)
      returns (ok: bool, ghost removed: seq<PubSubConn>, ghost before: map<string, PubSubEntry>,
               ghost captured: map<string, seq<Listener>>)
      requires Valid()
      modifies this`registry, registry.Values
      modifies balancer`entries, balancer`live, balancer`nextSerial, balancer`returned
      ensures Valid()
      ensures forall e :: e in balancer.entries <==> e in old(balancer.entries) && e.addr != addr
      ensures forall c :: c in removed <==> c in old(balancer.live) && c.node == addr
      ensures forall c :: c in old(balancer.live) && c.node != addr ==> c in balancer.live
      ensures forall c :: c in balancer.live ==>
        (c in old(balancer.live) && c.node != addr) || old(balancer.nextSerial) <= c.serial
      ensures before == old(registry) && captured == old(Captured(registry))
      ensures registry.Keys <= before.Keys
      ensures forall x :: x in before.Values && x.conn !in removed ==> x.closed == old(x.closed)
      ensures Kept(before, captured, {}, removed)
      ensures ok ==> MovedSoFar(before, captured, {}, removed)
    {
      before := registry;
      captured := Captured(registry);
      var connections := balancer.Remove(addr);
      removed := connections;
      assert registry == before && Captured(registry) == captured;
      ok := ReattachListeners(connections);
    }

    /** The listeners of each channel of `m` on the entry that carries it. */
    ghost function Captured(m: map<string, PubSubEntry>): map<string, seq<Listener>>
      reads m.Values
    {
      map ch | ch in m :: m[ch].ListenersOf(ch)
    }

    /** For every registered channel whose entry runs on one of `removed`,
        moves the channel (see Rehome). The registry is walked as it stood
        when the call began. */
    method ReattachListeners(removed: seq<PubSubConn>) returns (ok: bool)
      requires Valid()
      requires Distinct(removed)
      modifies this`registry, balancer`live, balancer`nextSerial, balancer`returned, registry.Values
      ensures Valid()
      ensures registry.Keys <= old(registry.Keys)
      ensures Untouched(old(registry.Values), removed)
      ensures Kept(old(registry), old(Captured(registry)), {}, removed)
      ensures ok ==> MovedSoFar(old(registry), old(Captured(registry)), {}, removed)
    {
      var snapshot := registry;
      ghost var captured := Captured(registry);
      ghost var closed0 := map ch | ch in registry :: registry[ch].closed;
      ghost var live0 := balancer.live;
      ghost var serial0 := balancer.nextSerial;
      var todo := registry.Keys;
      ok := true;
      while todo != {}
        invariant todo <= snapshot.Keys
        invariant snapshot == old(registry)
        invariant captured == old(Captured(registry))
        invariant captured.Keys == snapshot.Keys
        invariant closed0.Keys == snapshot.Keys
        invariant forall ch :: ch in closed0 ==> closed0[ch] == old(snapshot[ch].closed)
        invariant live0 == old(balancer.live) && serial0 == old(balancer.nextSerial)
        invariant Valid()
        invariant registry.Keys <= snapshot.Keys
        invariant forall x :: x in registry.Values ==> x in old(registry.Values) || fresh(x)
        invariant UntouchedSince(snapshot, closed0, live0, serial0, removed)
        invariant Kept(snapshot, captured, todo, removed)
        invariant MovedSoFar(snapshot, captured, todo, removed)
        decreases todo
      {
        var channel :| channel in todo;
        ok := ReattachNext(channel, snapshot, captured, todo, removed, closed0, live0, serial0);
        todo := todo - {channel};
        if !ok {
          return;
        }
      }
    }

    /** What re-homing leaves alone: entries of `entries` on connections
        outside `removed` keep their closed flag, subscribe connections live
        before and outside `removed` stay live, and the balancer only gains
        connections opened since. */
    twostate predicate Untouched(entries: set<PubSubEntry>, removed: seq<PubSubConn>)
      reads entries, balancer
    {
      && (forall x :: x in entries && x.conn !in removed ==> x.closed == old(x.closed))
      && (forall c :: c in old(balancer.live) && c !in removed ==> c in balancer.live)
      && balancer.Grown()
    }

    /** Untouched, stated against values recorded when re-homing began: the
        closed flag of each channel's entry in `snapshot` (`closed0`), the live
        subscribe connections (`live0`) and the balancer's serial counter
        (`serial0`). */
    ghost predicate UntouchedSince(snapshot: map<string, PubSubEntry>, closed0: map<string, bool>,
                                   live0: seq<PubSubConn>, serial0: nat, removed: seq<PubSubConn>)
      reads snapshot.Values, balancer
    {
      && (forall ch :: ch in snapshot && snapshot[ch].conn !in removed ==>
            ch in closed0 && snapshot[ch].closed == closed0[ch])
      && (forall c :: c in live0 && c !in removed ==> c in balancer.live)
      && serial0 <= balancer.nextSerial
      && (forall c :: c in balancer.live ==> c in live0 || serial0 <= c.serial)
    }

    /** Every channel of `snapshot` still to be visited (`todo`) or on a
        connection outside `removed` keeps its entry, whose listeners for it
        are still `captured`. */
    ghost predicate Kept(snapshot: map<string, PubSubEntry>, captured: map<string, seq<Listener>>,
                         todo: set<string>, removed: seq<PubSubConn>)
      reads this`registry, registry.Values, snapshot.Values
    {
      forall ch :: ch in snapshot && (ch in todo || snapshot[ch].conn !in removed) ==>
        && ch in registry && registry[ch] == snapshot[ch]
        && ch in captured && snapshot[ch].ListenersOf(ch) == captured[ch]
    }

    /** Every visited channel of `snapshot` on a connection in `removed` had
        its entry closed, and is unregistered when it had no `captured`
        listeners, or else registered with them at the end of its entry's list. */
    ghost predicate MovedSoFar(snapshot: map<string, PubSubEntry>, captured: map<string, seq<Listener>>,
                               todo: set<string>, removed: seq<PubSubConn>)
      reads this`registry, registry.Values, snapshot.Values
    {
      forall ch :: ch in snapshot && ch !in todo && snapshot[ch].conn in removed ==>
        && ch in captured && snapshot[ch].closed
        && (captured[ch] == [] ==> ch !in registry)
        && (captured[ch] != [] ==> ch in registry && EndsWith(registry[ch].ListenersOf(ch), captured[ch]))
    }

    /** One turn of the outer loop of ReattachListeners: visits `channel`. */
    method ReattachNext(channel: string, snapshot: map<string, PubSubEntry>, ghost captured: map<string, seq<Listener>>,
                        ghost todo: set<string>, removed: seq<PubSubConn>, ghost closed0: map<string, bool>,
                        ghost live0: seq<PubSubConn>, ghost serial0: nat) returns (ok: bool)
      requires Valid()
      requires Distinct(removed)
      requires channel in todo && todo <= snapshot.Keys && registry.Keys <= snapshot.Keys
      requires captured.Keys == snapshot.Keys
      requires Kept(snapshot, captured, todo, removed)
      requires MovedSoFar(snapshot, captured, todo, removed)
      requires UntouchedSince(snapshot, closed0, live0, serial0, removed)
      modifies this`registry, balancer`live, balancer`nextSerial, balancer`returned, registry.Values
      ensures Valid()
      ensures registry.Keys <= snapshot.Keys
      ensures forall x :: x in registry.Values ==> x in old(registry.Values) || fresh(x)
      ensures UntouchedSince(snapshot, closed0, live0, serial0, removed)
      ensures Kept(snapshot, captured, todo - {channel}, removed)
      ensures ok ==> MovedSoFar(snapshot, captured, todo - {channel}, removed)
    {
      ghost var before := registry;
      ok := ReattachChannel(channel, snapshot[channel], removed);
      forall ch | ch in snapshot && (ch in todo - {channel} || snapshot[ch].conn !in removed)
        ensures ch in registry && registry[ch] == snapshot[ch] && snapshot[ch].ListenersOf(ch) == captured[ch]
      {
        assert ch in before;
      }
      if ok {
        forall ch | ch in snapshot && ch !in todo - {channel} && snapshot[ch].conn in removed
          ensures snapshot[ch].closed
          ensures captured[ch] == [] ==> ch !in registry
          ensures captured[ch] != [] ==> ch in registry && EndsWith(registry[ch].ListenersOf(ch), captured[ch])
        {
          if ch == channel {
            assert old(snapshot[ch].ListenersOf(ch)) == captured[ch];
          } else {
            assert old(snapshot[ch].closed);
            if captured[ch] != [] {
              assert ch in before;
            }
          }
        }
      }
    }

    /** The inner loop of ReattachListeners for one registered channel: when
        its entry runs on one of `removed`, moves it (see Rehome); otherwise
        changes nothing. */
    method ReattachChannel(channel: string, entry: PubSubEntry, removed: seq<PubSubConn>) returns (ok: bool)
      requires Valid()
      requires Distinct(removed)
      requires channel in registry && registry[channel] == entry
      modifies this`registry, balancer`live, balancer`nextSerial, balancer`returned, registry.Values
      ensures Valid()
      ensures registry.Keys <= old(registry.Keys)
      ensures forall k :: k != channel && k in old(registry) ==>
        && k in registry && registry[k] == old(registry)[k]
        && registry[k].ListenersOf(k) == old(registry[k].ListenersOf(k))
      ensures forall x :: x in old(registry.Values) && x != entry ==> x.closed == old(x.closed)
      ensures forall x :: x in registry.Values ==> x in old(registry.Values) || fresh(x)
      ensures forall c :: c in old(balancer.live) && c !in removed ==> c in balancer.live
      ensures balancer.Grown()
      ensures entry.conn !in removed ==>
        && ok && registry == old(registry) && unchanged(balancer)
        && forall x :: x in old(registry.Values) ==> unchanged(x)
      ensures ok && entry.conn in removed ==>
        && entry.closed
        && (old(entry.ListenersOf(channel)) == [] ==> channel !in registry)
        && (old(entry.ListenersOf(channel)) != [] ==>
              channel in registry && EndsWith(registry[channel].ListenersOf(channel), old(entry.ListenersOf(channel))))
    {
      ok := true;
      for j := 0 to |removed|
        invariant entry.conn !in removed[..j] ==>
          ok && registry == old(registry) && (forall x :: x in old(registry.Values) ==> unchanged(x))
          && unchanged(balancer)
        invariant entry.conn in removed[..j] ==>
          && ok && Valid()
          && (forall k :: k != channel ==> (k in registry <==> k in old(registry)))
          && (forall k :: k != channel && k in registry ==> registry[k] == old(registry)[k])
          && (forall x, k :: x in old(registry.Values) && k != channel ==> x.ListenersOf(k) == old(x.ListenersOf(k)))
          && (forall x :: x in old(registry.Values) && x != entry ==> x.closed == old(x.closed))
          && (forall x :: x in registry.Values ==> x in old(registry.Values) || fresh(x))
          && (forall c :: c in old(balancer.live) && c != entry.conn ==> c in balancer.live)
          && balancer.Grown()
          && entry.closed
          && (old(entry.ListenersOf(channel)) == [] ==> channel !in registry)
          && (old(entry.ListenersOf(channel)) != [] ==>
                channel in registry && EndsWith(registry[channel].ListenersOf(channel), old(entry.ListenersOf(channel))))
      {
        if entry.conn == removed[j] {
          if entry.conn in removed[..j] {
            assert false;
          }
          ok := Rehome(channel, entry);
          if !ok {
            return;
          }
        }
        assert removed[..j + 1] == removed[..j] + [removed[j]];
      }
      assert removed[..|removed|] == removed;
    }

    /** Moves `channel` off `entry`, whose connection is going away: closes
        the entry, drops the channel from the registry and the entry, and, when
        listeners were attached, subscribes the channel again and appends
        those listeners, in their order, on the entry it lands on. */
    method Rehome(channel: string, entry: PubSubEntry) returns (ok: bool)
      requires Valid()
      requires channel in registry && registry[channel] == entry
      modifies this`registry, balancer`live, balancer`nextSerial, balancer`returned, registry.Values
      ensures Valid()
      ensures entry.closed
      ensures forall k :: k != channel ==> (k in registry <==> k in old(registry))
      ensures forall k :: k != channel && k in registry ==> registry[k] == old(registry)[k]
      ensures forall x, k :: x in old(registry.Values) && k != channel ==> x.ListenersOf(k) == old(x.ListenersOf(k))
      ensures forall x :: x in old(registry.Values) && x != entry ==> x.closed == old(x.closed)
      ensures forall x :: x in registry.Values ==> x in old(registry.Values) || fresh(x)
      ensures forall c :: c in old(balancer.live) && c != entry.conn ==> c in balancer.live
      ensures balancer.Grown()
      ensures ok && old(entry.ListenersOf(channel)) == [] ==> channel !in registry
      ensures ok && old(entry.ListenersOf(channel)) != [] ==>
        channel in registry && EndsWith(registry[channel].ListenersOf(channel), old(entry.ListenersOf(channel)))
    {
      Detach(channel, entry);
      var listeners := entry.ListenersOf(channel);
      ok := true;
      if listeners != [] {
        ghost var detached := registry.Values;
        ok := Resubscribe(channel, listeners);
        forall x | x in old(registry.Values) && x !in detached
          ensures x.listeners == old(x.listeners) && (x != entry ==> x.closed == old(x.closed))
        {
        }
      }
    }

    /** Closes `entry` and unsubscribes `channel` from it (see
        UnsubscribeEntry); no entry's listeners change. */
    method Detach(channel: string, entry: PubSubEntry)
      requires Valid()
      requires channel in registry && registry[channel] == entry
      modifies this`registry, balancer`live, balancer`returned, entry`slots, entry`channels, entry`closed
      ensures Valid()
      ensures entry.closed
      ensures registry == old(registry) - {channel}
      ensures registry.Values <= old(registry.Values)
      ensures entry.slots == old(entry.slots) - 1
      ensures entry.channels == old(entry.channels) - {channel}
      ensures entry.listeners == old(entry.listeners)
      ensures entry.slots == 0 ==>
        && balancer.returned == old(balancer.returned) + multiset{entry.conn}
        && forall c :: c in balancer.live <==> c in old(balancer.live) && c != entry.conn
      ensures entry.slots != 0 ==> balancer.live == old(balancer.live) && balancer.returned == old(balancer.returned)
      ensures balancer.Grown()
    {
      entry.Close();
      UnsubscribeEntry(entry, channel);
    }

    /** The overload of Subscribe without a listener: the channel ends
        registered on the entry returned, and no entry's listeners or closed
        flag change. A new entry starts with no listeners. */
    method SubscribeChannel(channel: string) returns (r: Option<PubSubEntry>)
      requires Valid()
      modifies this`registry, balancer`live, balancer`nextSerial, registry.Values
      ensures Valid()
      ensures balancer.Grown() && forall c :: c in old(balancer.live) ==> c in balancer.live
      ensures r.None? ==> registry == old(registry)
      ensures r.Some? ==> registry == old(registry)[channel := r.value]
      ensures channel in old(registry) ==> r == Some(old(registry)[channel])
      ensures forall x :: x in old(registry.Values) ==> x.listeners == old(x.listeners) && x.closed == old(x.closed)
      ensures r.Some? ==> r.value in old(registry.Values) || (fresh(r.value) && r.value.listeners == map[])
      // a known entry is reused exactly when one had a free slot
      ensures channel !in old(registry) ==>
        ((exists e :: e in old(registry.Values) && old(e.slots) < e.capacity)
         <==> (r.Some? && r.value in old(registry.Values)))
    {
      r := Subscribe(channel, None);
    }

    /** Subscribes the unregistered `channel` again, without a listener, and
        appends `listeners` to the entry it lands on. */
    method Resubscribe(channel: string, listeners: seq<Listener>) returns (ok: bool)
      requires Valid()
      requires channel !in registry
      modifies this`registry, balancer`live, balancer`nextSerial, registry.Values
      ensures Valid()
      ensures forall k :: k != channel ==> (k in registry <==> k in old(registry))
      ensures forall k :: k != channel && k in registry ==> registry[k] == old(registry)[k]
      ensures forall x, k :: x in old(registry.Values) && k != channel ==> x.ListenersOf(k) == old(x.ListenersOf(k))
      ensures forall x :: x in old(registry.Values) ==> x.closed == old(x.closed)
      ensures forall x :: x in registry.Values ==> x in old(registry.Values) || fresh(x)
      ensures forall c :: c in old(balancer.live) ==> c in balancer.live
      ensures balancer.Grown()
      ensures !ok ==> registry == old(registry)
      ensures ok ==>
        && channel in registry
        && (fresh(registry[channel]) ==> registry[channel].ListenersOf(channel) == listeners)
        && (registry[channel] in old(registry.Values) ==>
              var target := registry[channel];
              target.ListenersOf(channel) == old(target.ListenersOf(channel)) + listeners)
      ensures ok ==> EndsWith(registry[channel].ListenersOf(channel), listeners)
    {
      var next := SubscribeChannel(channel);
      if next.None? {
        return false;
      }
      AttachListeners(next.value, channel, listeners);
      ok := true;
    }

    /** Appends `listeners`, in order, to those of `channel` on `target`. */
    static method AttachListeners(target: PubSubEntry, channel: string, listeners: seq<Listener>)
      modifies target`listeners
      ensures target.ListenersOf(channel) == old(target.ListenersOf(channel)) + listeners
      ensures forall k :: k != channel ==> target.ListenersOf(k) == old(target.ListenersOf(k))
    {
      for i := 0 to |listeners|
        invariant target.ListenersOf(channel) == old(target.ListenersOf(channel)) + listeners[..i]
        invariant forall k :: k != channel ==> target.ListenersOf(k) == old(target.ListenersOf(k))
      {
        target.AddListener(channel, listeners[i]);
        assert listeners[..i + 1] == listeners[..i] + [listeners[i]];
      }
      assert listeners[..|listeners|] == listeners;
    }
  }
}
