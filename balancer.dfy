/** The load balancer over the slave nodes. Its implementation is not part of
    this model; the contracts below are the behaviour the connection manager
    relies on. The selection policy (round-robin, random, ...) is left open:
    any entry that qualifies may be chosen. */
module Balancer {
  import opened Types
  import opened Seqs

  class LoadBalancer {
    var password: Option<string>
    /** One entry per registered slave. */
    var entries: seq<ConnectionEntry>
    /** Subscribe connections handed out and not yet returned. */
    var live: seq<PubSubConn>
    /** Serial of the next connection opened. */
    var nextSerial: nat
    ghost var returned: multiset<PubSubConn>
    ghost var returnedReads: multiset<Conn>

    ghost predicate Valid()
      reads this
    {
      && Distinct(live)
      && forall c :: c in live ==> c.serial < nextSerial
    }

    /** Between two states the serial counter did not go back, and every
        live subscribe connection was live before or has been opened since. */
    twostate predicate Grown()
      reads this
    {
      && old(nextSerial) <= nextSerial
      && forall c :: c in live ==> c in old(live) || old(nextSerial) <= c.serial
    }

    constructor ()
      ensures Valid()
      ensures password == None && entries == [] && live == [] && nextSerial == 0
      ensures returned == multiset{} && returnedReads == multiset{}
    {
      password := None;
      entries := [];
      live := [];
      nextSerial := 0;
      returned := multiset{};
      returnedReads := multiset{};
    }

    /** The subscribe connections currently open on `addr`. */
    function OpenOn(addr: Address): nat
      reads this
    {
      |Filter(live, (c: PubSubConn) => c.node == addr)|
    }

    /** `e` can open another subscribe connection. */
    predicate HasFreeSubscription(e: ConnectionEntry)
      reads this
    {
      OpenOn(e.addr) < e.subscriptionPoolSize
    }

    method Init(password: Option<string>)
      modifies this`password
      ensures this.password == password
    {
      this.password := password;
    }

    method Add(e: ConnectionEntry)
      modifies this`entries
      ensures entries == old(entries) + [e]
    {
      entries := entries + [e];
    }

    /** Drops every entry for `addr` and hands back, once each, the subscribe
        connections that were open on it. */
    method Remove(addr: Address) returns (conns: seq<PubSubConn>)
      requires Valid()
      modifies this`entries, this`live
      ensures Valid()
      ensures forall e :: e in entries <==> e in old(entries) && e.addr != addr
      ensures forall c :: c in conns <==> c in old(live) && c.node == addr
      ensures forall c :: c in live <==> c in old(live) && c.node != addr
      ensures Distinct(conns)
    {
      entries := Filter(entries, (e: ConnectionEntry) => e.addr != addr);
      conns := Filter(live, (c: PubSubConn) => c.node == addr);
      FilterDistinct(live, (c: PubSubConn) => c.node == addr);
      FilterDistinct(live, (c: PubSubConn) => c.node != addr);
      live := Filter(live, (c: PubSubConn) => c.node != addr);
    }

    /** Opens a subscribe connection on some slave that has a free
        subscription slot; None when no slave has one. */
    method NextPubSubConnection() returns (r: Option<PubSubConn>)
      requires Valid()
      modifies this`live, this`nextSerial
      ensures Valid()
      ensures r.None? <==> forall e :: e in entries ==> !old(HasFreeSubscription(e))
      ensures Grown()
      ensures r.None? ==> live == old(live) && nextSerial == old(nextSerial)
      ensures r.Some? ==> r.value !in old(live) && live == old(live) + [r.value]
      ensures r.Some? ==> exists e :: e in entries && e.addr == r.value.node && old(HasFreeSubscription(e))
    {
      if e :| e in entries && HasFreeSubscription(e) {
        var c := PubSubConn(e.addr, nextSerial);
        AppendDistinct(live, c);
        live := live + [c];
        nextSerial := nextSerial + 1;
        r := Some(c);
      } else {
        r := None;
      }
    }

    /** Gives a subscribe connection back to its slave's pool. */
    method ReturnSubscribeConnection(c: PubSubConn)
      requires Valid()
      modifies this`live, this`returned
      ensures Valid()
      ensures forall x :: x in live <==> x in old(live) && x != c
      ensures Grown()
      ensures returned == old(returned) + multiset{c}
    {
      FilterDistinct(live, (x: PubSubConn) => x != c);
      live := Filter(live, (x: PubSubConn) => x != c);
      returned := returned + multiset{c};
    }

    /** Opens a command connection on some slave; None when there is none. */
    method NextConnection() returns (r: Option<Conn>)
      modifies this`nextSerial
      ensures r.None? <==> entries == []
      ensures nextSerial == old(nextSerial) + (if r.Some? then 1 else 0)
      ensures r.Some? ==> (exists e :: e in entries && e.addr == r.value.node)
      ensures r.Some? ==> r.value.authenticated == password.Some? && r.value.pool == SlavePool
    {
      if entries == [] {
        r := None;
      } else {
        var e := entries[0];
        r := Some(Conn(e.addr, nextSerial, password.Some?, SlavePool));
        nextSerial := nextSerial + 1;
      }
    }

    /** Gives a command connection back to its slave's pool. */
    method ReturnConnection(c: Conn)
      modifies this`returnedReads
      ensures returnedReads == old(returnedReads) + multiset{c}
    {
      returnedReads := returnedReads + multiset{c};
    }
  }
}
