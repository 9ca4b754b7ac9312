/**
 * The proxy's server table as the reconciler sees it: named addresses that can be looked up,
 * registered and unregistered, and the "try" list that sets the order in which players are
 * connected. It is an external, mutable collaborator; only the behaviour the reconciler
 * depends on is modelled.
 */
module Proxy {
  import opened JavaStrings

  /** An InetSocketAddress reduced to the host string it was built from and its port. */
  datatype Address = Address(host: string, port: int)

  /** The range InetSocketAddress accepts; any other port makes its constructor throw. */
  predicate ValidPort(port: int) {
    0 <= port <= 0xFFFF
  }

  /** DockerService.addressesMatch: equal ports and hosts equal up to case. */
  predicate AddressesMatch(existing: Address, desired: Address) {
    existing.port == desired.port && EqualsIgnoreCase(existing.host, desired.host)
  }

  /** Matching is an equivalence, so an address always matches itself and the order of the two
      addresses does not matter. */
  lemma AddressesMatchEquivalence(a: Address, b: Address, c: Address)
    ensures AddressesMatch(a, a)
    ensures AddressesMatch(a, b) ==> AddressesMatch(b, a)
    ensures AddressesMatch(a, b) && AddressesMatch(b, c) ==> AddressesMatch(a, c)
  {
  }

  class ProxyServer {
    /** The registered servers by name. */
    var servers: map<string, Address>
    /** The attempt-connection order ("try" list). */
    var order: seq<string>
    /** Whether the configuration's try list accepts additions at run time. */
    const orderMutable: bool
    /** The server infos whose registration throws. */
    const refused: set<(string, Address)>

    constructor (servers: map<string, Address>, order: seq<string>, orderMutable: bool, refused: set<(string, Address)>)
      ensures this.servers == servers && this.order == order
      ensures this.orderMutable == orderMutable && this.refused == refused
    {
      this.servers := servers;
      this.order := order;
      this.orderMutable := orderMutable;
      this.refused := refused;
    }

    /** registerServer: adds the server, or throws (ok == false) when the name is taken or the
        info is refused, leaving the table as it was. */
    method RegisterServer(name: string, address: Address) returns (ok: bool)
      modifies this`servers
      ensures ok == (name !in old(servers) && (name, address) !in refused)
      ensures servers == if ok then old(servers)[name := address] else old(servers)
    {
      ok := name !in servers && (name, address) !in refused;
      if ok {
        servers := servers[name := address];
      }
    }

    /** unregisterServer of the info currently registered under the name. */
    method UnregisterServer(name: string)
      requires name in servers
      modifies this`servers
      ensures servers == old(servers) - {name}
    {
      servers := servers - {name};
    }

    /** order.add(name), which throws UnsupportedOperationException (ok == false) on an
        immutable list. */
    method AppendToOrder(name: string) returns (ok: bool)
      modifies this`order
      ensures ok == orderMutable
      ensures order == if ok then old(order) + [name] else old(order)
    {
      ok := orderMutable;
      if ok {
        order := order + [name];
      }
    }
  }
}
