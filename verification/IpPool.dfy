/** `ip_pool.rs`: the /24 address pool, hosts 2 to 254. */
module IpPool {
  import opened Bytes
  import opened Datagram

  const FIRST_HOST: nat := 2
  const LAST_HOST: nat := 254

  predicate IsHost(h: nat) { FIRST_HOST <= h <= LAST_HOST }

  /** The least free host at or above `from`. */
  function FirstFree(taken: set<nat>, from: nat): (r: Option<nat>)
    ensures r.Some? ==> from <= r.value <= LAST_HOST && r.value !in taken
    ensures r.Some? ==> forall h :: from <= h < r.value ==> h in taken
    ensures r.None? ==> forall h :: from <= h <= LAST_HOST ==> h in taken
    decreases LAST_HOST + 1 - from
  {
    if from > LAST_HOST then None
    else if from !in taken then Some(from)
    else FirstFree(taken, from + 1)
  }

  function Allocate(taken: set<nat>): Option<nat> { FirstFree(taken, FIRST_HOST) }

  function HostsUpTo(n: nat): (hosts: set<nat>)
    ensures forall h :: h in hosts <==> FIRST_HOST <= h <= n
  {
    if n < FIRST_HOST then {} else HostsUpTo(n - 1) + {n}
  }

  lemma {:induction false} CountHosts(n: nat)
    requires n + 1 >= FIRST_HOST
    ensures |HostsUpTo(n)| == n + 1 - FIRST_HOST
  {
    if n < FIRST_HOST {
    } else {
      CountHosts(n - 1);
    }
  }

  lemma SubsetIsSmaller<T>(a: set<T>, b: set<T>)
    requires a <= b
    ensures |a| <= |b|
  {
    assert b == a + (b - a);
  }

  /** At most 253 addresses are ever out, and the pool refuses exactly when all of them are. */
  lemma PoolCapacity(taken: set<nat>)
    requires forall h :: h in taken ==> IsHost(h)
    ensures |taken| <= 253
    ensures Allocate(taken).None? <==> |taken| == 253
    ensures Allocate(taken).Some? ==> 2 <= Allocate(taken).value <= 254 && Allocate(taken).value !in taken
  {
    CountHosts(LAST_HOST);
    var hosts := HostsUpTo(LAST_HOST);
    assert |hosts| == 253;
    SubsetIsSmaller(taken, hosts);
    if Allocate(taken).None? {
      assert hosts == taken;
    } else {
      var h := Allocate(taken).value;
      SubsetIsSmaller(taken + {h}, hosts);
    }
  }

  class IpPool {
    const base: (byte, byte, byte)
    var taken: set<nat>

    ghost predicate Valid()
      reads this
    {
      forall h :: h in taken ==> IsHost(h)
    }

    constructor (network: Ipv4)
      ensures Valid() && taken == {} && base == (network.a, network.b, network.c)
    {
      base := (network.a, network.b, network.c);
      taken := {};
    }

    /** The lowest free address, or none when all 253 are out. */
    method AllocateIp() returns (ip: Option<Ipv4>)
      requires Valid()
      modifies this
      ensures Valid()
      ensures match Allocate(old(taken))
        case None => ip == None && taken == old(taken)
        case Some(h) => ip == Some(Ipv4(base.0, base.1, base.2, h)) && taken == old(taken) + {h}
    {
      var host := FIRST_HOST;
      while host <= LAST_HOST
        invariant FIRST_HOST <= host <= LAST_HOST + 1
        invariant taken == old(taken)
        invariant FirstFree(taken, FIRST_HOST) == FirstFree(taken, host)
      {
        if host !in taken {
          taken := taken + {host};
          return Some(Ipv4(base.0, base.1, base.2, host));
        }
        host := host + 1;
      }
      return None;
    }

    /** An address of another network is ignored. */
    method Release(ip: Ipv4)
      requires Valid()
      modifies this
      ensures Valid()
      ensures taken == if (ip.a, ip.b, ip.c) == base then old(taken) - {ip.d} else old(taken)
    {
      if ip.a == base.0 && ip.b == base.1 && ip.c == base.2 {
        taken := taken - {ip.d as nat};
      }
    }

    method IsAllocated(ip: Ipv4) returns (r: bool)
      ensures r <==> (ip.a, ip.b, ip.c) == base && ip.d in taken
    {
      if ip.a == base.0 && ip.b == base.1 && ip.c == base.2 {
        return ip.d in taken;
      } else {
        return false;
      }
    }
  }
}
