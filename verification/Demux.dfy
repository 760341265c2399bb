/** `demux.rs`: the router from destination address to the client's own priority queue. */
module Demux {
  import opened Bytes
  import opened Datagram
  import opened Priority

  class ClientRouter {
    var routes: map<Ipv4, PriorityQueue>

    /** No queue serves two addresses. */
    ghost predicate Valid()
      reads this
    {
      forall a, b :: a in routes && b in routes && a != b ==> routes[a] != routes[b]
    }

    constructor ()
      ensures Valid() && routes == map[]
    {
      routes := map[];
    }

    /** The caller gets a fresh, empty queue; a route that was there is replaced. */
    method Register(clientIp: Ipv4, buffer: nat) returns (queue: PriorityQueue)
      requires Valid()
      modifies this
      ensures Valid() && fresh(queue) && queue.State() == Queue([], [], buffer)
      ensures routes == old(routes)[clientIp := queue]
    {
      queue := new PriorityQueue(buffer);
      routes := routes[clientIp := queue];
    }

    /** The packet goes to the queue of its destination and to no other. */
    method Route(dstIp: Ipv4, packet: Packet, now: nat) returns (sent: bool)
      requires Valid()
      modifies routes.Values
      ensures dstIp !in routes ==> !sent
      ensures dstIp in routes ==>
        (routes[dstIp].State(), sent) == Push(old(routes[dstIp].State()), packet, Classify(packet), now)
      ensures forall ip :: ip in routes && ip != dstIp ==> routes[ip].State() == old(routes[ip].State())
    {
      if dstIp !in routes {
        return false;
      }
      var queue := routes[dstIp];
      assert queue in routes.Values;
      sent := queue.Enqueue(packet, Classify(packet), now);
    }

    /** Run when a `ClientHandle` is dropped; it removes whatever route the address has by then. */
    method Unregister(ip: Ipv4)
      requires Valid()
      modifies this
      ensures Valid() && routes == old(routes) - {ip}
    {
      routes := routes - {ip};
    }
  }
}
