/** node/src/supervisor.rs: subscribers that are notified in place and dropped when their receiver is
    gone. The three notification loops are the same; `Subscribers` models them once. */
module Supervisor {
  import opened Prelude

  type Subscriber(==, !new)

  class Subscribers<M(!new)> {
    var senders: seq<Subscriber>
    ghost var log: seq<(Subscriber, M)>

    constructor ()
      ensures senders == [] && log == []
    {
      senders, log := [], [];
    }

    method Add(s: Subscriber)
      modifies this`senders
      ensures senders == old(senders) + [s]
    {
      senders := senders + [s];
    }

    /** Offer the message to the subscriber at each position; one whose send fails is replaced by the
        last one, which is then offered the message at the same position. Every subscriber is offered
        it exactly once, and exactly those whose send succeeded stay. */
    method Notify(message: M, connected: Subscriber -> bool)
      modifies this
      ensures old(log) <= log && |log| == |old(log)| + |old(senders)|
      ensures forall i :: |old(log)| <= i < |log| ==> log[i].1 == message
      ensures multiset(Receivers(log[|old(log)|..])) == multiset(old(senders))
      ensures forall s :: multiset(senders)[s] == if connected(s) then multiset(old(senders))[s] else 0
    {
      ghost var offered, dropped := OfferAll(connected);
      log := log + Offers(offered, message);
      OffersReceivers(offered, message);
      assert log[|old(log)|..] == Offers(offered, message);
      assert |offered| == |multiset(offered)| == |multiset(old(senders))| == |old(senders)|;
      KeptExactly(senders, dropped, old(senders), connected);
    }

    /** The loop: `offered` lists the subscribers in the order they are offered the message. */
    method OfferAll(connected: Subscriber -> bool) returns (ghost offered: seq<Subscriber>, ghost dropped: seq<Subscriber>)
      modifies this`senders
      ensures multiset(offered) == multiset(old(senders)) == multiset(senders) + multiset(dropped)
      ensures forall j :: 0 <= j < |senders| ==> connected(senders[j])
      ensures forall j :: 0 <= j < |dropped| ==> !connected(dropped[j])
    {
      offered, dropped := [], [];
      var i := 0;
      assert senders[0..] == senders;
      while i < |senders|
        invariant 0 <= i <= |senders| && Offering(offered, dropped, senders, i, old(senders), connected)
        decreases |senders| - i
      {
        ghost var failed;
        offered := offered + [senders[i]];
        i, failed := OfferTo(i, offered, dropped, old(senders), connected);
        dropped := dropped + failed;
      }
      assert senders[..i] == senders && senders[i..] == [];
    }

    /** One turn of the loop, `offered` already counting the subscriber at `i`. */
    method OfferTo(i: nat, ghost offered: seq<Subscriber>, ghost dropped: seq<Subscriber>, ghost all: seq<Subscriber>,
                   connected: Subscriber -> bool)
      returns (next: nat, ghost failed: seq<Subscriber>)
      requires i < |senders| && offered != [] && offered[|offered| - 1] == senders[i]
      requires Offering(offered[..|offered| - 1], dropped, senders, i, all, connected)
      modifies this`senders
      ensures next <= |senders| && Offering(offered, dropped + failed, senders, next, all, connected)
      ensures |senders| - next == old(|senders|) - i - 1
    {
      ghost var before := offered[..|offered| - 1];
      assert offered == before + [senders[i]];
      if connected(senders[i]) {
        OfferSucceeds(before, dropped, senders, i, all, connected);
        next, failed := i + 1, [];
        assert dropped + failed == dropped;
      } else {
        OfferFails(before, dropped, senders, i, all, connected);
        next, failed := i, [senders[i]];
        SwapRemove(i);
      }
    }

    method SwapRemove(i: nat)
      requires i < |senders|
      modifies this`senders
      ensures senders == SwappedOut(old(senders), i)
    {
      var last := senders[|senders| - 1];
      if i < |senders| - 1 {
        senders := senders[i := last];
      }
      senders := senders[..|senders| - 1];
    }
  }

  /** The last element takes the removed one's place. */
  function SwappedOut<T>(s: seq<T>, i: nat): seq<T>
    requires i < |s|
  {
    s[i := s[|s| - 1]][..|s| - 1]
  }

  /** What stands from `i` on is still to be offered; what was offered either stays before `i`, its send
      having succeeded, or was dropped. */
  ghost predicate Offering(offered: seq<Subscriber>, dropped: seq<Subscriber>, senders: seq<Subscriber>, i: nat,
                           all: seq<Subscriber>, connected: Subscriber -> bool)
    requires i <= |senders|
  {
    && multiset(offered) + multiset(senders[i..]) == multiset(all)
    && multiset(offered) == multiset(senders[..i]) + multiset(dropped)
    && (forall j :: 0 <= j < i ==> connected(senders[j]))
    && (forall j :: 0 <= j < |dropped| ==> !connected(dropped[j]))
  }

  lemma OfferSucceeds(offered: seq<Subscriber>, dropped: seq<Subscriber>, senders: seq<Subscriber>, i: nat,
                      all: seq<Subscriber>, connected: Subscriber -> bool)
    requires i < |senders| && Offering(offered, dropped, senders, i, all, connected) && connected(senders[i])
    ensures Offering(offered + [senders[i]], dropped, senders, i + 1, all, connected)
  {
    var s := senders[i];
    assert senders[i..] == [s] + senders[i + 1..] && senders[..i + 1] == senders[..i] + [s];
    assert multiset(offered + [s]) == multiset(offered) + multiset{s};
  }

  lemma OfferFails(offered: seq<Subscriber>, dropped: seq<Subscriber>, senders: seq<Subscriber>, i: nat,
                   all: seq<Subscriber>, connected: Subscriber -> bool)
    requires i < |senders| && Offering(offered, dropped, senders, i, all, connected) && !connected(senders[i])
    ensures Offering(offered + [senders[i]], dropped + [senders[i]], SwappedOut(senders, i), i, all, connected)
  {
    var s, rest := senders[i], SwappedOut(senders, i);
    SwapRemoveRest(senders, i);
    FirstOf(senders, i);
    OneMore(offered, s);
    OneMore(dropped, s);
    forall j | 0 <= j < i
      ensures connected(rest[j])
    {
      assert rest[..i][j] == senders[..i][j];
    }
  }

  lemma OneMore(to: seq<Subscriber>, s: Subscriber)
    ensures multiset(to + [s]) == multiset(to) + multiset{s}
  {
  }

  lemma FirstOf(senders: seq<Subscriber>, i: nat)
    requires i < |senders|
    ensures multiset(senders[i..]) == multiset{senders[i]} + multiset(senders[i + 1..])
  {
    assert senders[i..] == [senders[i]] + senders[i + 1..];
  }

  lemma SwapRemoveRest<T>(s: seq<T>, i: nat)
    requires i < |s|
    ensures SwappedOut(s, i)[..i] == s[..i]
    ensures multiset(SwappedOut(s, i)[i..]) == multiset(s[i + 1..])
  {
    var r := SwappedOut(s, i);
    if i < |s| - 1 {
      assert r[i..] == [s[|s| - 1]] + s[i + 1..|s| - 1];
      assert s[i + 1..] == s[i + 1..|s| - 1] + [s[|s| - 1]];
    } else {
      assert r[i..] == [] == s[i + 1..];
    }
  }

  function Offers<M>(to: seq<Subscriber>, message: M): seq<(Subscriber, M)> {
    seq(|to|, i requires 0 <= i < |to| => (to[i], message))
  }

  function Receivers<M>(log: seq<(Subscriber, M)>): seq<Subscriber> {
    seq(|log|, i requires 0 <= i < |log| => log[i].0)
  }

  lemma OffersReceivers<M>(to: seq<Subscriber>, message: M)
    ensures Receivers(Offers(to, message)) == to
  {
  }

  lemma KeptExactly(kept: seq<Subscriber>, dropped: seq<Subscriber>, all: seq<Subscriber>, connected: Subscriber -> bool)
    requires multiset(kept) + multiset(dropped) == multiset(all)
    requires forall j :: 0 <= j < |kept| ==> connected(kept[j])
    requires forall j :: 0 <= j < |dropped| ==> !connected(dropped[j])
    ensures forall s :: multiset(kept)[s] == if connected(s) then multiset(all)[s] else 0
  {
    forall s
      ensures multiset(kept)[s] == if connected(s) then multiset(all)[s] else 0
    {
      if connected(s) {
        assert s !in dropped;
      } else {
        assert s !in kept;
      }
    }
  }

  class EpochManager {
    var epoch: u64
    const subscribers: Subscribers<u64>

    constructor ()
      ensures epoch == 0 && fresh(subscribers) && subscribers.senders == [] && subscribers.log == []
    {
      epoch := 0;
      subscribers := new Subscribers();
    }

    /** Set the epoch and tell everyone still listening. */
    method Update(next: u64, connected: Subscriber -> bool)
      modifies this, subscribers
      ensures epoch == next
      ensures old(subscribers.log) <= subscribers.log
      ensures forall i :: |old(subscribers.log)| <= i < |subscribers.log| ==> subscribers.log[i].1 == next
      ensures |subscribers.log| == |old(subscribers.log)| + |old(subscribers.senders)|
      ensures multiset(Receivers(subscribers.log[|old(subscribers.log)|..])) == multiset(old(subscribers.senders))
      ensures forall s :: multiset(subscribers.senders)[s]
                          == if connected(s) then multiset(old(subscribers.senders))[s] else 0
    {
      epoch := next;
      subscribers.Notify(next, connected);
    }

    /** A subscriber learns the current epoch now and every later one by message. */
    method Subscribe(s: Subscriber) returns (current: u64)
      modifies subscribers
      ensures current == epoch && subscribers.senders == old(subscribers.senders) + [s]
      ensures subscribers.log == old(subscribers.log)
    {
      subscribers.Add(s);
      current := epoch;
    }
  }
}
