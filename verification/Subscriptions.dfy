/** simulator/src/state.rs: the live update filters, and the snapshot of them that decides which
    updates are built. */
module Subscriptions {
  import opened Prelude
  import opened Counting
  import opened EventIndex

  datatype Filter = AllUpdates | AccountUpdatesOf(account: PublicKey) | SessionUpdatesOf(session: u64)

  method ReleaseOne<K(==, !new)>(counts: map<K, nat>, k: K, ghost live: multiset<K>) returns (r: map<K, nat>)
    requires CountsOf(counts, live) && k in live
    ensures CountsOf(r, live - multiset{k})
  {
    DropCounts(counts, live, k);
    r := counts;
    if k in r {
      if r[k] > 1 {
        r := r[k := r[k] - 1];
      } else {
        r := r - {k};
      }
    }
  }

  class Tracker {
    var allCount: nat
    var accounts: map<PublicKey, nat>
    var sessions: map<u64, nat>
    ghost var liveAll: nat
    ghost var liveAccounts: multiset<PublicKey>
    ghost var liveSessions: multiset<u64>

    /** The counts are the multiplicities of the filters whose guards are alive. */
    ghost predicate Valid()
      reads this
    {
      allCount == liveAll && CountsOf(accounts, liveAccounts) && CountsOf(sessions, liveSessions)
    }

    ghost function Live(): nat
      reads this
    {
      liveAll + |liveAccounts| + |liveSessions|
    }

    ghost predicate Holds(f: Filter)
      reads this
    {
      match f
      case AllUpdates => liveAll > 0
      case AccountUpdatesOf(account) => account in liveAccounts
      case SessionUpdatesOf(session) => session in liveSessions
    }

    constructor ()
      ensures Valid() && Live() == 0
    {
      allCount, accounts, sessions := 0, map[], map[];
      liveAll, liveAccounts, liveSessions := 0, multiset{}, multiset{};
    }

    method Register(f: Filter)
      requires Valid() && Live() < U64_MAX
      modifies this
      ensures Valid() && Live() == old(Live()) + 1 && Holds(f)
      ensures liveAll == if f.AllUpdates? then old(liveAll) + 1 else old(liveAll)
      ensures liveAccounts == if f.AccountUpdatesOf? then old(liveAccounts) + multiset{f.account} else old(liveAccounts)
      ensures liveSessions == if f.SessionUpdatesOf? then old(liveSessions) + multiset{f.session} else old(liveSessions)
    {
      match f {
        case AllUpdates =>
          allCount := Min(allCount + 1, U64_MAX);
          liveAll := liveAll + 1;
        case AccountUpdatesOf(account) => RegisterAccount(account);
        case SessionUpdatesOf(session) => RegisterSession(session);
      }
    }

    method RegisterAccount(account: PublicKey)
      requires Valid()
      modifies this`accounts, this`liveAccounts
      ensures Valid() && liveAccounts == old(liveAccounts) + multiset{account}
    {
      BumpCounts(accounts, liveAccounts, account);
      accounts := accounts[account := (if account in accounts then accounts[account] else 0) + 1];
      liveAccounts := liveAccounts + multiset{account};
    }

    method RegisterSession(session: u64)
      requires Valid()
      modifies this`sessions, this`liveSessions
      ensures Valid() && liveSessions == old(liveSessions) + multiset{session}
    {
      BumpCounts(sessions, liveSessions, session);
      sessions := sessions[session := (if session in sessions then sessions[session] else 0) + 1];
      liveSessions := liveSessions + multiset{session};
    }

    /** Dropping a guard undoes exactly its registration. */
    method Unregister(f: Filter)
      requires Valid() && Holds(f)
      modifies this
      ensures Valid() && Live() == old(Live()) - 1
      ensures liveAll == if f.AllUpdates? then old(liveAll) - 1 else old(liveAll)
      ensures liveAccounts == if f.AccountUpdatesOf? then old(liveAccounts) - multiset{f.account} else old(liveAccounts)
      ensures liveSessions == if f.SessionUpdatesOf? then old(liveSessions) - multiset{f.session} else old(liveSessions)
    {
      match f {
        case AllUpdates =>
          allCount := Max(allCount - 1, 0);
          liveAll := liveAll - 1;
        case AccountUpdatesOf(account) => UnregisterAccount(account);
        case SessionUpdatesOf(session) => UnregisterSession(session);
      }
    }

    method UnregisterAccount(account: PublicKey)
      requires CountsOf(accounts, liveAccounts) && account in liveAccounts
      modifies this`accounts, this`liveAccounts
      ensures CountsOf(accounts, liveAccounts) && liveAccounts == old(liveAccounts) - multiset{account}
      ensures |liveAccounts| == old(|liveAccounts|) - 1
    {
      accounts := ReleaseOne(accounts, account, liveAccounts);
      liveAccounts := liveAccounts - multiset{account};
    }

    method UnregisterSession(session: u64)
      requires CountsOf(sessions, liveSessions) && session in liveSessions
      modifies this`sessions, this`liveSessions
      ensures CountsOf(sessions, liveSessions) && liveSessions == old(liveSessions) - multiset{session}
      ensures |liveSessions| == old(|liveSessions|) - 1
    {
      sessions := ReleaseOne(sessions, session, liveSessions);
      liveSessions := liveSessions - multiset{session};
    }

    method TotalCount() returns (n: nat)
      requires Valid()
      ensures n == Live()
    {
      var accountTotal := SumValues(accounts, liveAccounts);
      var sessionTotal := SumValues(sessions, liveSessions);
      n := allCount + accountTotal + sessionTotal;
    }

    /** What the indexer is told: exactly the live filters when every receiver is tracked, and every
        account and session as soon as one is not. */
    method Snapshot(receiverCount: nat) returns (s: EventIndex.Snapshot)
      requires Valid()
      ensures s.all <==> Holds(AllUpdates)
      ensures forall a :: WantsAccount(Some(s), a) <==> receiverCount > Live() || Holds(AccountUpdatesOf(a))
      ensures forall id :: WantsSession(Some(s), id) <==> receiverCount > Live() || Holds(SessionUpdatesOf(id))
    {
      var tracked := TotalCount();
      var untracked := receiverCount > tracked;
      s := EventIndex.Snapshot(allCount > 0,
                               if untracked then None else Some(accounts.Keys),
                               if untracked then None else Some(sessions.Keys));
    }

    /** Registering, indexing and looking up: every live account filter gets the one-pass filter of the
        summary, and every live session filter its session's operations, unless the proof cannot be built;
        then the account is left with the public update and the session with none. */
    method IndexFor(proves: Prover, receiverCount: nat, ops: seq<EventOp>, start: nat) returns (r: IndexedEvents)
      requires Valid()
      ensures forall a :: Holds(AccountUpdatesOf(a)) ==> r.UpdateForAccount(a) == Served(proves, ops, start, a)
      ensures forall a :: Holds(AccountUpdatesOf(a)) && proves(ForAccount(ops, start, a)) ==>
                r.UpdateForAccount(a) == Filtered(ForAccount(ops, start, a))
      ensures forall id :: Holds(SessionUpdatesOf(id)) ==> r.UpdateForSession(id) == Proved(proves, ForSession(ops, start, id))
      ensures Holds(AllUpdates) ==> r.full == Some(ops)
    {
      var s := Snapshot(receiverCount);
      r := IndexEvents(proves, ops, start, Some(s));
      forall a | Holds(AccountUpdatesOf(a)) && proves(ForAccount(ops, start, a))
        ensures r.UpdateForAccount(a) == Filtered(ForAccount(ops, start, a))
      {
        ServedInFullIff(proves, ops, start, a);
      }
    }
  }
}
