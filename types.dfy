/** Value types shared by the connection manager and its collaborators. */
module Types {

  datatype Option<+T> = None | Some(value: T)

  /** A node of the cluster: host name and port. */
  datatype Address = Address(host: string, port: int)

  /** The pool a command connection belongs to: the manager's master pool, or
      a slave pool of the load balancer. */
  datatype Pool = MasterPool | SlavePool

  /** A command connection. `serial` tells apart connections opened to the same
      node by the same pool; `authenticated` records whether AUTH was sent
      after connecting. */
  datatype Conn = Conn(node: Address, serial: nat, authenticated: bool, pool: Pool)

  /** A physical subscribe connection handed out by the load balancer. */
  datatype PubSubConn = PubSubConn(node: Address, serial: nat)

  /** A message listener attached to a channel; only its identity matters here. */
  datatype Listener = Listener(id: nat)

  /** The per-slave entry registered with the load balancer: the slave's
      address with its command pool size and its subscription pool size. */
  datatype ConnectionEntry = ConnectionEntry(addr: Address, poolSize: nat, subscriptionPoolSize: nat)

  /** The values of the master/slave server configuration that the manager reads. */
  datatype Config = Config(
    masterAddress: Address,
    slaveAddresses: seq<Address>,
    masterConnectionPoolSize: nat,
    slaveConnectionPoolSize: nat,
    slaveSubscriptionConnectionPoolSize: nat,
    subscriptionsPerConnection: nat,
    password: Option<string>)
}
