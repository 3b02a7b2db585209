/** simulator/src/lib.rs: WebSocket connections counted in total and per address, released by guards. */
module WsConnections {
  import opened Prelude
  import opened Counting

  type IpAddr(==, !new)

  datatype Rejection = GlobalLimit | PerIpLimit

  class Tracker {
    var total: nat
    var perIp: map<IpAddr, nat>
    ghost var live: multiset<IpAddr>

    /** The total and the per-address counts are those of the guards alive. */
    ghost predicate Valid()
      reads this
    {
      total == |live| && CountsOf(perIp, live)
    }

    ghost predicate Within(maxTotal: Option<nat>, maxPerIp: Option<nat>)
      reads this
    {
      && (maxTotal.Some? ==> total <= maxTotal.value)
      && (maxPerIp.Some? ==> forall ip :: ip in perIp ==> perIp[ip] <= maxPerIp.value)
    }

    constructor ()
      ensures Valid() && live == multiset{}
    {
      total, perIp, live := 0, map[], multiset{};
    }

    /** A guard is handed out exactly when neither limit is reached, and limits once met stay met. */
    method TryAcquire(ip: IpAddr, maxTotal: Option<nat>, maxPerIp: Option<nat>) returns (r: Result<(), Rejection>)
      requires Valid() && |live| < U64_MAX
      modifies this
      ensures Valid()
      ensures r == if maxTotal.Some? && old(|live|) >= maxTotal.value then Err(GlobalLimit)
                   else if maxPerIp.Some? && old(live)[ip] >= maxPerIp.value then Err(PerIpLimit)
                   else Ok(())
      ensures live == if r.Ok? then old(live) + multiset{ip} else old(live)
      ensures old(Within(maxTotal, maxPerIp)) ==> Within(maxTotal, maxPerIp)
    {
      if maxTotal.Some? && total >= maxTotal.value {
        return Err(GlobalLimit);
      }
      var current := if ip in perIp then perIp[ip] else 0;
      if maxPerIp.Some? && current >= maxPerIp.value {
        return Err(PerIpLimit);
      }
      BumpCounts(perIp, live, ip);
      live := live + multiset{ip};
      assert current < U64_MAX by {
        CountAtMostSize(old(live), ip);
      }
      total := Min(total + 1, U64_MAX);
      perIp := perIp[ip := Min(current + 1, U64_MAX)];
      r := Ok(());
    }

    /** Dropping a guard: no count grows, so limits that were met stay met. */
    method Release(ip: IpAddr)
      requires Valid() && ip in live
      modifies this
      ensures Valid() && live == old(live) - multiset{ip}
      ensures total == old(total) - 1 && forall k :: k in perIp ==> k in old(perIp) && perIp[k] <= old(perIp)[k]
    {
      DropCounts(perIp, live, ip);
      live := live - multiset{ip};
      total := Max(total - 1, 0);
      if ip in perIp {
        if perIp[ip] > 1 {
          perIp := perIp[ip := perIp[ip] - 1];
        } else {
          perIp := perIp - {ip};
        }
      }
    }
  }

  lemma CountAtMostSize<K>(all: multiset<K>, k: K)
    ensures all[k] <= |all|
  {
    assert all == all[k := 0] + multiset{}[k := all[k]];
  }
}
