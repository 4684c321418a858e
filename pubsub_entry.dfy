/** The pub/sub connection entry: one physical subscribe connection that
    several channels share. Its implementation is not part of this model; the
    contracts below are the behaviour the connection manager relies on. */
module PubSub {
  import opened Types

  class PubSubEntry {
    /** The physical subscribe connection this entry wraps. */
    const conn: PubSubConn
    /** The most channels the connection may carry at once. */
    const capacity: nat
    /** Channel slots currently reserved. */
    var slots: nat
    /** Channels physically subscribed on `conn`. */
    var channels: set<string>
    /** Listeners per channel, in delivery order. */
    var listeners: map<string, seq<Listener>>
    /** Set once the entry has been closed. */
    var closed: bool

    constructor (conn: PubSubConn, capacity: nat)
      ensures this.conn == conn && this.capacity == capacity
      ensures slots == 0 && channels == {} && listeners == map[] && !closed
    {
      this.conn := conn;
      this.capacity := capacity;
      slots := 0;
      channels := {};
      listeners := map[];
      closed := false;
    }

    /** The listeners attached to `channel`; empty when there are none. */
    function ListenersOf(channel: string): seq<Listener>
      reads this
    {
      if channel in listeners then listeners[channel] else []
    }

    predicate HasListeners(channel: string)
      reads this
    {
      ListenersOf(channel) != []
    }

    /** Reserves a channel slot when one is free. */
    method TryAcquire() returns (ok: bool)
      modifies this`slots
      ensures ok == (old(slots) < capacity)
      ensures slots == if ok then old(slots) + 1 else old(slots)
    {
      ok := slots < capacity;
      if ok {
        slots := slots + 1;
      }
    }

    /** Subscribes `channel` on the connection, attaching `listener` if given. */
    method Subscribe(channel: string, listener: Option<Listener>)
      modifies this`channels, this`listeners
      ensures channels == old(channels) + {channel}
      ensures listener.None? ==> listeners == old(listeners)
      ensures listener.Some? ==>
        listeners == old(listeners)[channel := old(ListenersOf(channel)) + [listener.value]]
    {
      channels := channels + {channel};
      if listener.Some? {
        listeners := listeners[channel := ListenersOf(channel) + [listener.value]];
      }
    }

    /** Appends `listener` to the listeners of `channel`. */
    method AddListener(channel: string, listener: Listener)
      modifies this`listeners
      ensures listeners == old(listeners)[channel := old(ListenersOf(channel)) + [listener]]
    {
      listeners := listeners[channel := ListenersOf(channel) + [listener]];
    }

    /** Unsubscribes `channel` on the connection and frees its slot; the
        listeners stay recorded. */
    method Unsubscribe(channel: string)
      requires slots > 0
      modifies this`slots, this`channels
      ensures slots == old(slots) - 1
      ensures channels == old(channels) - {channel}
    {
      channels := channels - {channel};
      slots := slots - 1;
    }

    /** Closes the entry when no slot is reserved. */
    method TryClose() returns (ok: bool)
      modifies this`closed
      ensures ok == (slots == 0)
      ensures closed == (old(closed) || ok)
    {
      ok := slots == 0;
      if ok {
        closed := true;
      }
    }

    method Close()
      modifies this`closed
      ensures closed
    {
      closed := true;
    }
  }
}
