/** simulator/src/state.rs: routing the operations of an events summary to subscribers. One pass
    collects public, per-account and per-session operations; each account's are then merged with the
    public ones by location, and accounts never mentioned fall back to the public update. */
module EventIndex {
  import opened Prelude

  type PublicKey(==, !new)

  /** Events with the fields that decide who receives them. */
  datatype Event =
    | CasinoPlayerRegistered(player: PublicKey) | CasinoDeposited(player: PublicKey)
    | CasinoGameStarted(session: u64, player: PublicKey) | CasinoGameMoved(session: u64)
    | CasinoGameCompleted(session: u64, player: PublicKey) | CasinoLeaderboardUpdated
    | CasinoError(player: PublicKey) | PlayerModifierToggled(player: PublicKey)
    | TournamentStarted | PlayerJoined(player: PublicKey) | TournamentPhaseChanged
    | TournamentEnded(rankings: seq<PublicKey>)
    | VaultCreated(player: PublicKey) | CollateralDeposited(player: PublicKey)
    | VusdtBorrowed(player: PublicKey) | VusdtRepaid(player: PublicKey)
    | AmmSwapped(player: PublicKey) | LiquidityAdded(player: PublicKey) | LiquidityRemoved(player: PublicKey)
    | AmmBootstrapped | AmmBootstrapFinalized | PolicyUpdated | OracleUpdated
    | TreasuryUpdated | TreasuryVestingUpdated | TreasuryAllocationReleased
    | BridgeWithdrawalRequested(player: PublicKey) | BridgeWithdrawalFinalized
    | BridgeDepositCredited(recipient: PublicKey)
    | VaultLiquidated(liquidator: PublicKey, target: PublicKey)
    | RecoveryPoolFunded | RecoveryPoolRetired(target: PublicKey)
    | SavingsDeposited(player: PublicKey) | SavingsWithdrawn(player: PublicKey) | SavingsRewardsClaimed(player: PublicKey)
    | Staked(player: PublicKey) | Unstaked(player: PublicKey) | EpochProcessed | RewardsClaimed(player: PublicKey)
    | GlobalTableRoundOpened | GlobalTableBetAccepted(player: PublicKey) | GlobalTableBetRejected(player: PublicKey)
    | GlobalTableLocked | GlobalTableOutcome | GlobalTablePlayerSettled(player: PublicKey) | GlobalTableFinalized

  datatype Output = EventOutput(event: Event) | TransactionOutput(public: PublicKey, nonce: u64) | CommitOutput

  datatype EventOp = Append(output: Output) | Commit

  type Located = (nat, EventOp)

  /** Who an operation is for. Accounts are listed in the order, and as often, as they are named. */
  datatype Audience = Everyone | Accounts(accounts: seq<PublicKey>) | Session(session: u64) | Nobody

  function EventAudience(event: Event): Audience {
    match event
    case CasinoGameMoved(session) => Session(session)
    case CasinoLeaderboardUpdated | TournamentStarted | TournamentPhaseChanged => Everyone
    case AmmBootstrapped | AmmBootstrapFinalized | PolicyUpdated | OracleUpdated => Everyone
    case TreasuryUpdated | TreasuryVestingUpdated | TreasuryAllocationReleased => Everyone
    case RecoveryPoolFunded | BridgeWithdrawalFinalized | EpochProcessed => Everyone
    case GlobalTableRoundOpened | GlobalTableLocked | GlobalTableOutcome | GlobalTableFinalized => Everyone
    case TournamentEnded(rankings) => Accounts(rankings)
    case VaultLiquidated(liquidator, target) => Accounts([liquidator, target])
    case BridgeDepositCredited(recipient) => Accounts([recipient])
    case RecoveryPoolRetired(target) => Accounts([target])
    case _ => Accounts([event.player])
  }

  function AudienceOf(op: EventOp): Audience {
    match op
    case Append(EventOutput(event)) => EventAudience(event)
    case Append(TransactionOutput(public, _)) => Accounts([public])
    case Append(CommitOutput) => Nobody
    case Commit => Nobody
  }

  /******* What each subscriber should see *******/

  function Times(accounts: seq<PublicKey>, a: PublicKey): nat {
    if accounts == [] then 0
    else Times(accounts[..|accounts| - 1], a) + if accounts[|accounts| - 1] == a then 1 else 0
  }

  /** How many copies of an operation go to an account. */
  function Copies(op: EventOp, a: PublicKey): nat {
    match AudienceOf(op)
    case Everyone => 1
    case Accounts(accounts) => Times(accounts, a)
    case _ => 0
  }

  function Repeat<T>(x: T, n: nat): seq<T> {
    seq(n, _ => x)
  }

  function CopiesOf(x: Located, a: PublicKey): seq<Located> {
    Repeat(x, Copies(x.1, a))
  }

  function PublicCopy(x: Located): seq<Located> {
    if AudienceOf(x.1).Everyone? then [x] else []
  }

  function MentionsIn(x: Located, a: PublicKey): seq<Located> {
    if AudienceOf(x.1).Accounts? then Repeat(x, Times(AudienceOf(x.1).accounts, a)) else []
  }

  /** One pass over the operations in location order. */
  function ForAccount(ops: seq<EventOp>, start: nat, a: PublicKey): seq<Located> {
    if ops == [] then []
    else
      var n := |ops| - 1;
      ForAccount(ops[..n], start, a) + CopiesOf((start + n, ops[n]), a)
  }

  function PublicOps(ops: seq<EventOp>, start: nat): seq<Located> {
    if ops == [] then []
    else
      var n := |ops| - 1;
      PublicOps(ops[..n], start) + PublicCopy((start + n, ops[n]))
  }

  function Mentions(ops: seq<EventOp>, start: nat, a: PublicKey): seq<Located> {
    if ops == [] then []
    else
      var n := |ops| - 1;
      Mentions(ops[..n], start, a) + MentionsIn((start + n, ops[n]), a)
  }

  function ForSession(ops: seq<EventOp>, start: nat, s: u64): seq<Located> {
    if ops == [] then []
    else
      var n := |ops| - 1;
      ForSession(ops[..n], start, s) + if AudienceOf(ops[n]) == Session(s) then [(start + n, ops[n])] else []
  }

  /** The operations that are public or mention the account, each once. */
  function Relevant(ops: seq<EventOp>, start: nat, a: PublicKey): seq<Located> {
    if ops == [] then []
    else
      var n := |ops| - 1;
      Relevant(ops[..n], start, a) + if Copies(ops[n], a) > 0 then [(start + n, ops[n])] else []
  }

  /** The update is the plain filter exactly when no operation names the account twice. */
  lemma {:induction false} ForAccountIsFilter(ops: seq<EventOp>, start: nat, a: PublicKey)
    ensures |Relevant(ops, start, a)| <= |ForAccount(ops, start, a)|
    ensures ForAccount(ops, start, a) == Relevant(ops, start, a)
            <==> forall i :: 0 <= i < |ops| ==> Copies(ops[i], a) <= 1
  {
    if ops != [] {
      var n := |ops| - 1;
      ForAccountIsFilter(ops[..n], start, a);
      var before, filtered := ForAccount(ops[..n], start, a), Relevant(ops[..n], start, a);
      var copies := Copies(ops[n], a);
      if copies <= 1 {
        assert Repeat((start + n, ops[n]), copies) == if copies > 0 then [(start + n, ops[n])] else [];
        SameTail(before, filtered, Repeat((start + n, ops[n]), copies));
        assert forall i :: 0 <= i < n ==> ops[..n][i] == ops[i];
      } else {
        assert |ForAccount(ops, start, a)| > |Relevant(ops, start, a)|;
      }
    }
  }

  lemma SameTail<T>(a: seq<T>, b: seq<T>, tail: seq<T>)
    ensures a + tail == b + tail <==> a == b
  {
    if a + tail == b + tail {
      assert |a| == |b|;
      assert a == (a + tail)[..|a|] == (b + tail)[..|b|] == b;
    }
  }

  /******* Merging by location *******/

  function Merged(public: seq<Located>, account: seq<Located>): seq<Located>
    decreases |public| + |account|
  {
    if public == [] then account
    else if account == [] then public
    else if public[0].0 <= account[0].0 then [public[0]] + Merged(public[1..], account)
    else [account[0]] + Merged(public, account[1..])
  }

  method MergeOps(public: seq<Located>, account: seq<Located>) returns (merged: seq<Located>)
    ensures merged == Merged(public, account)
  {
    var i, j;
    merged, i, j := MergeWhileBoth(public, account);
    while i < |public|
      invariant i <= |public| && j <= |account| && (i < |public| ==> j == |account|)
      invariant merged + Merged(public[i..], account[j..]) == Merged(public, account)
    {
      TakePublic(public, account, i, j, merged);
      merged := merged + [public[i]];
      i := i + 1;
    }
    merged := MergeRest(account, j, merged);
  }

  /** The first loop, which ends when one side is used up. */
  method MergeWhileBoth(public: seq<Located>, account: seq<Located>) returns (merged: seq<Located>, i: nat, j: nat)
    ensures i <= |public| && j <= |account| && (i == |public| || j == |account|)
    ensures merged + Merged(public[i..], account[j..]) == Merged(public, account)
  {
    merged, i, j := [], 0, 0;
    while i < |public| && j < |account|
      invariant i <= |public| && j <= |account|
      invariant merged + Merged(public[i..], account[j..]) == Merged(public, account)
      decreases |public| - i + |account| - j
    {
      if public[i].0 <= account[j].0 {
        TakePublic(public, account, i, j, merged);
        merged := merged + [public[i]];
        i := i + 1;
      } else {
        TakeAccount(public, account, i, j, merged);
        merged := merged + [account[j]];
        j := j + 1;
      }
    }
  }

  /** The last loop. */
  method MergeRest(account: seq<Located>, from: nat, before: seq<Located>) returns (merged: seq<Located>)
    requires from <= |account|
    ensures merged == before + account[from..]
  {
    merged := before;
    var j := from;
    while j < |account|
      invariant j <= |account| && merged + account[j..] == before + account[from..]
    {
      MovesOver(merged, account, j);
      merged := merged + [account[j]];
      j := j + 1;
    }
  }

  lemma MovesOver<T>(merged: seq<T>, rest: seq<T>, j: nat)
    requires j < |rest|
    ensures merged + rest[j..] == (merged + [rest[j]]) + rest[j + 1..]
  {
  }

  lemma TakePublic(public: seq<Located>, account: seq<Located>, i: nat, j: nat, merged: seq<Located>)
    requires i < |public| && j <= |account| && (j == |account| || public[i].0 <= account[j].0)
    ensures merged + Merged(public[i..], account[j..]) == (merged + [public[i]]) + Merged(public[i + 1..], account[j..])
  {
    MergedTakesPublic(public[i..], account[j..], merged);
  }

  lemma TakeAccount(public: seq<Located>, account: seq<Located>, i: nat, j: nat, merged: seq<Located>)
    requires i <= |public| && j < |account| && (i == |public| || public[i].0 > account[j].0)
    ensures merged + Merged(public[i..], account[j..]) == (merged + [account[j]]) + Merged(public[i..], account[j + 1..])
  {
    MergedTakesAccount(public[i..], account[j..], merged);
  }

  /** Taking the next element from the side whose turn it is continues the merge. */
  lemma MergedTakesPublic(public: seq<Located>, account: seq<Located>, merged: seq<Located>)
    requires public != [] && (account == [] || public[0].0 <= account[0].0)
    ensures merged + Merged(public, account) == (merged + [public[0]]) + Merged(public[1..], account)
  {
    if account == [] {
      assert public == [public[0]] + public[1..];
      assert Merged(public[1..], account) == public[1..];
    }
  }

  lemma MergedTakesAccount(public: seq<Located>, account: seq<Located>, merged: seq<Located>)
    requires account != [] && (public == [] || public[0].0 > account[0].0)
    ensures merged + Merged(public, account) == (merged + [account[0]]) + Merged(public, account[1..])
  {
    if public == [] {
      assert account == [account[0]] + account[1..];
      assert Merged(public, account[1..]) == account[1..];
    }
  }

  ghost predicate Below(ops: seq<Located>, loc: nat) {
    forall i :: 0 <= i < |ops| ==> ops[i].0 < loc
  }

  lemma {:induction false} MergedPublicLast(public: seq<Located>, account: seq<Located>, x: Located)
    requires Below(public, x.0) && Below(account, x.0)
    ensures Merged(public + [x], account) == Merged(public, account) + [x]
    decreases |public| + |account|
  {
    if public == [] {
      if account != [] {
        MergedPublicLast(public, account[1..], x);
        assert Merged([x], account) == [account[0]] + Merged([x], account[1..]);
      }
      assert public + [x] == [x];
    } else if account != [] {
      assert (public + [x])[1..] == public[1..] + [x];
      if public[0].0 <= account[0].0 {
        MergedPublicLast(public[1..], account, x);
      } else {
        MergedPublicLast(public, account[1..], x);
      }
    }
  }

  lemma {:induction false} MergedAccountLast(public: seq<Located>, account: seq<Located>, x: Located, n: nat)
    requires Below(public, x.0)
    ensures Merged(public, account + Repeat(x, n)) == Merged(public, account) + Repeat(x, n)
    decreases |public| + |account|
  {
    var tail := Repeat(x, n);
    if n == 0 {
      assert account + tail == account;
    } else if public != [] {
      if account == [] {
        assert account + tail == tail && tail[0] == x;
        MergedAccountLast(public[1..], account, x, n);
        assert Merged(public[1..], account) == public[1..];
        Prepends(public[0], public[1..], tail);
      } else {
        TailMoves(account, tail);
        if public[0].0 <= account[0].0 {
          MergedAccountLast(public[1..], account, x, n);
          Prepends(public[0], Merged(public[1..], account), tail);
        } else {
          MergedAccountLast(public, account[1..], x, n);
          Prepends(account[0], Merged(public, account[1..]), tail);
        }
      }
    }
  }

  lemma Prepends<T>(x: T, s: seq<T>, tail: seq<T>)
    ensures [x] + (s + tail) == ([x] + s) + tail
  {
  }

  lemma TailMoves<T>(s: seq<T>, tail: seq<T>)
    requires s != []
    ensures (s + tail)[0] == s[0] && (s + tail)[1..] == s[1..] + tail
  {
  }

  lemma {:induction false} LocationsBelow(ops: seq<EventOp>, start: nat, a: PublicKey)
    ensures Below(PublicOps(ops, start), start + |ops|) && Below(Mentions(ops, start, a), start + |ops|)
  {
    if ops != [] {
      LocationsBelow(ops[..|ops| - 1], start, a);
    }
  }

  /** Merging an account's operations with the public ones is the one-pass filter in location order. */
  lemma {:induction false} MergeIsOnePass(ops: seq<EventOp>, start: nat, a: PublicKey)
    ensures Merged(PublicOps(ops, start), Mentions(ops, start, a)) == ForAccount(ops, start, a)
  {
    if ops != [] {
      var n := |ops| - 1;
      MergeIsOnePass(ops[..n], start, a);
      LocationsBelow(ops[..n], start, a);
      MergeOneMore(PublicOps(ops[..n], start), Mentions(ops[..n], start, a), (start + n, ops[n]), a);
    }
  }

  /** One more operation, located after all the others, comes last in the merge. */
  lemma MergeOneMore(public: seq<Located>, account: seq<Located>, x: Located, a: PublicKey)
    requires Below(public, x.0) && Below(account, x.0)
    ensures Merged(public + PublicCopy(x), account + MentionsIn(x, a)) == Merged(public, account) + CopiesOf(x, a)
  {
    assert public + [] == public && account + [] == account && Repeat(x, 0) == [] && Repeat(x, 1) == [x];
    assert Merged(public, account) + [] == Merged(public, account);
    match AudienceOf(x.1) {
      case Everyone => MergedPublicLast(public, account, x);
      case Accounts(accounts) => MergedAccountLast(public, account, x, Times(accounts, a));
      case _ =>
    }
  }

  lemma {:induction false} NeverMentioned(ops: seq<EventOp>, start: nat, a: PublicKey)
    requires Mentions(ops, start, a) == []
    ensures ForAccount(ops, start, a) == PublicOps(ops, start)
  {
    MergeIsOnePass(ops, start, a);
    assert PublicOps(ops, start) == [] ==> Merged(PublicOps(ops, start), []) == [];
  }

  /******* Indexing a summary *******/

  /** `None` stands for "every account" or "every session". */
  datatype Snapshot = Snapshot(all: bool, accounts: Option<set<PublicKey>>, sessions: Option<set<u64>>)

  predicate WantsAccount(subs: Option<Snapshot>, a: PublicKey) {
    subs.None? || subs.value.accounts.None? || a in subs.value.accounts.value
  }

  predicate WantsSession(subs: Option<Snapshot>, s: u64) {
    subs.None? || subs.value.sessions.None? || s in subs.value.sessions.value
  }

  predicate HasAccountSubs(subs: Option<Snapshot>) {
    subs.None? || subs.value.accounts.None? || subs.value.accounts.value != {}
  }

  predicate HasSessionSubs(subs: Option<Snapshot>) {
    subs.None? || subs.value.sessions.None? || subs.value.sessions.value != {}
  }

  /** Whether a proof over the given operations can be built; a failure is logged and drops the update. */
  type Prover = seq<Located> -> bool

  function Proved(proves: Prover, ops: seq<Located>): Option<seq<Located>> {
    if ops != [] && proves(ops) then Some(ops) else None
  }

  /** An update with nothing in it is not sent. */
  function Filtered(ops: seq<Located>): Option<seq<Located>> {
    if ops == [] then None else Some(ops)
  }

  datatype IndexedEvents = IndexedEvents(
    full: Option<seq<EventOp>>, public: Option<seq<Located>>,
    accounts: map<PublicKey, seq<Located>>, sessions: map<u64, seq<Located>>)
  {
    function UpdateForAccount(a: PublicKey): Option<seq<Located>> {
      if a in accounts then Some(accounts[a]) else public
    }

    function UpdateForSession(s: u64): Option<seq<Located>> {
      if s in sessions then Some(sessions[s]) else None
    }
  }

  function Pushed<K(==)>(m: map<K, seq<Located>>, k: K, x: Located): map<K, seq<Located>> {
    m[k := (if k in m then m[k] else []) + [x]]
  }

  /** What a subscribed account is served: its own update if it is mentioned and the proof can be built,
      and otherwise the public one. */
  function Served(proves: Prover, ops: seq<EventOp>, start: nat, a: PublicKey): Option<seq<Located>> {
    if Mentions(ops, start, a) != [] && proves(ForAccount(ops, start, a)) then Some(ForAccount(ops, start, a))
    else Proved(proves, PublicOps(ops, start))
  }

  lemma {:induction false} MergedSize(public: seq<Located>, account: seq<Located>)
    ensures |Merged(public, account)| == |public| + |account|
    decreases |public| + |account|
  {
    if public != [] && account != [] {
      if public[0].0 <= account[0].0 {
        MergedSize(public[1..], account);
      } else {
        MergedSize(public, account[1..]);
      }
    }
  }

  /** That is the account's one-pass filter exactly when there is nothing to send or its proof can be
      built; a failed proof leaves it without the operations that only mention it. */
  lemma ServedInFullIff(proves: Prover, ops: seq<EventOp>, start: nat, a: PublicKey)
    ensures Served(proves, ops, start, a) == Filtered(ForAccount(ops, start, a))
            <==> ForAccount(ops, start, a) == [] || proves(ForAccount(ops, start, a))
  {
    MergeIsOnePass(ops, start, a);
    MergedSize(PublicOps(ops, start), Mentions(ops, start, a));
    if Mentions(ops, start, a) == [] {
      NeverMentioned(ops, start, a);
    }
  }

  /** The pass over the operations. */
  method Collect(ops: seq<EventOp>, start: nat, subs: Option<Snapshot>)
    returns (public: seq<Located>, accounts: map<PublicKey, seq<Located>>, sessions: map<u64, seq<Located>>)
    ensures public == if HasAccountSubs(subs) then PublicOps(ops, start) else []
    ensures AccountsCollected(accounts, ops, start, subs) && SessionsCollected(sessions, ops, start, subs)
  {
    public, accounts, sessions := [], map[], map[];
    for i := 0 to |ops|
      invariant public == if HasAccountSubs(subs) then PublicOps(ops[..i], start) else []
      invariant AccountsCollected(accounts, ops[..i], start, subs)
      invariant SessionsCollected(sessions, ops[..i], start, subs)
    {
      assert ops[..i + 1] == ops[..i] + [ops[i]] && ops[..i + 1][..i] == ops[..i];
      var located := (start + i, ops[i]);
      ghost var before := accounts;
      SessionsStep(sessions, ops[..i], ops[i], start, subs);
      match AudienceOf(ops[i]) {
        case Everyone =>
          if HasAccountSubs(subs) {
            public := public + [located];
          }
        case Accounts(named) =>
          accounts := CollectAccounts(accounts, named, located, subs);
        case Session(s) =>
          if HasSessionSubs(subs) && WantsSession(subs, s) {
            sessions := Pushed(sessions, s, located);
          }
        case Nobody =>
      }
      AccountsStep(before, accounts, ops[..i], ops[i], start, subs);
    }
    assert ops[..|ops|] == ops;
  }

  method IndexEvents(proves: Prover, ops: seq<EventOp>, start: nat, subs: Option<Snapshot>) returns (r: IndexedEvents)
    ensures forall a :: WantsAccount(subs, a) ==> r.UpdateForAccount(a) == Served(proves, ops, start, a)
    ensures forall a :: !WantsAccount(subs, a) ==> r.UpdateForAccount(a) == r.public
    ensures r.public == if HasAccountSubs(subs) then Proved(proves, PublicOps(ops, start)) else None
    ensures forall s :: r.UpdateForSession(s) ==
              if WantsSession(subs, s) then Proved(proves, ForSession(ops, start, s)) else None
    ensures r.full == if subs.None? || subs.value.all then Some(ops) else None
  {
    var public, accounts, sessions := Collect(ops, start, subs);
    var updates := AccountUpdates(proves, public, accounts);
    var sessionUpdates := map s | s in sessions && proves(sessions[s]) :: sessions[s];
    r := IndexedEvents(if subs.None? || subs.value.all then Some(ops) else None,
                       if HasAccountSubs(subs) then Proved(proves, public) else None, updates, sessionUpdates);
    forall a
      ensures if WantsAccount(subs, a) then r.UpdateForAccount(a) == Served(proves, ops, start, a)
              else r.UpdateForAccount(a) == r.public
    {
      AccountIsServed(proves, public, accounts, updates, ops, start, subs, a);
    }
    forall s
      ensures r.UpdateForSession(s) == if WantsSession(subs, s) then Proved(proves, ForSession(ops, start, s)) else None
    {
      assert SessionCollected(sessions, ops, start, subs, s);
    }
  }

  lemma AccountIsServed(
    proves: Prover, public: seq<Located>, accounts: map<PublicKey, seq<Located>>, updates: map<PublicKey, seq<Located>>,
    ops: seq<EventOp>, start: nat, subs: Option<Snapshot>, a: PublicKey)
    requires public == if HasAccountSubs(subs) then PublicOps(ops, start) else []
    requires AccountsCollected(accounts, ops, start, subs)
    requires a in updates <==> a in accounts && proves(Merged(public, accounts[a]))
    requires a in updates ==> updates[a] == Merged(public, accounts[a])
    ensures
      var served := if a in updates then Some(updates[a]) else if HasAccountSubs(subs) then Proved(proves, public) else None;
      if WantsAccount(subs, a) then served == Served(proves, ops, start, a) else a !in updates
  {
    assert AccountCollected(accounts, ops, start, subs, a);
    MergeIsOnePass(ops, start, a);
  }

  /** Exactly the wanted accounts that are mentioned, each with its mentions. */
  ghost predicate AccountsCollected(
    accounts: map<PublicKey, seq<Located>>, ops: seq<EventOp>, start: nat, subs: Option<Snapshot>)
  {
    forall a {:trigger AccountCollected(accounts, ops, start, subs, a)} :: AccountCollected(accounts, ops, start, subs, a)
  }

  ghost predicate AccountCollected(
    accounts: map<PublicKey, seq<Located>>, ops: seq<EventOp>, start: nat, subs: Option<Snapshot>, a: PublicKey)
  {
    && (a in accounts <==> WantsAccount(subs, a) && Mentions(ops, start, a) != [])
    && (a in accounts ==> accounts[a] == Mentions(ops, start, a))
  }

  ghost predicate SessionsCollected(
    sessions: map<u64, seq<Located>>, ops: seq<EventOp>, start: nat, subs: Option<Snapshot>)
  {
    forall s {:trigger SessionCollected(sessions, ops, start, subs, s)} :: SessionCollected(sessions, ops, start, subs, s)
  }

  ghost predicate SessionCollected(
    sessions: map<u64, seq<Located>>, ops: seq<EventOp>, start: nat, subs: Option<Snapshot>, s: u64)
  {
    && (s in sessions <==> WantsSession(subs, s) && ForSession(ops, start, s) != [])
    && (s in sessions ==> sessions[s] == ForSession(ops, start, s))
  }

  /** One copy for every wanted mention. */
  ghost predicate CopiesAdded(
    before: map<PublicKey, seq<Located>>, after: map<PublicKey, seq<Located>>,
    named: seq<PublicKey>, x: Located, subs: Option<Snapshot>)
  {
    forall a {:trigger CopyAdded(before, after, named, x, subs, a)} :: CopyAdded(before, after, named, x, subs, a)
  }

  ghost predicate CopyAdded(
    before: map<PublicKey, seq<Located>>, after: map<PublicKey, seq<Located>>,
    named: seq<PublicKey>, x: Located, subs: Option<Snapshot>, a: PublicKey)
  {
    var n := if WantsAccount(subs, a) then Times(named, a) else 0;
    && (a in after <==> a in before || n > 0)
    && (a in after ==> after[a] == (if a in before then before[a] else []) + Repeat(x, n))
  }

  lemma CopyStep(
    accounts: map<PublicKey, seq<Located>>, before: map<PublicKey, seq<Located>>,
    named: seq<PublicKey>, next: PublicKey, x: Located, subs: Option<Snapshot>)
    requires CopiesAdded(accounts, before, named, x, subs)
    ensures CopiesAdded(accounts, if WantsAccount(subs, next) then Pushed(before, next, x) else before,
                        named + [next], x, subs)
  {
    var after := if WantsAccount(subs, next) then Pushed(before, next, x) else before;
    assert (named + [next])[..|named|] == named;
    forall a
      ensures CopyAdded(accounts, after, named + [next], x, subs, a)
    {
      assert CopyAdded(accounts, before, named, x, subs, a);
      var n := Times(named, a);
      assert Repeat(x, n) + [x] == Repeat(x, n + 1);
      assert (if a in accounts then accounts[a] else []) + Repeat(x, n) + [x]
          == (if a in accounts then accounts[a] else []) + (Repeat(x, n) + [x]);
      assert [] + Repeat(x, 0) == [];
    }
  }

  lemma AccountsStep(
    before: map<PublicKey, seq<Located>>, after: map<PublicKey, seq<Located>>,
    ops: seq<EventOp>, op: EventOp, start: nat, subs: Option<Snapshot>)
    requires AccountsCollected(before, ops, start, subs)
    requires if AudienceOf(op).Accounts?
             then CopiesAdded(before, after, AudienceOf(op).accounts, (start + |ops|, op), subs)
             else after == before
    ensures AccountsCollected(after, ops + [op], start, subs)
  {
    assert (ops + [op])[..|ops|] == ops;
    forall a
      ensures AccountCollected(after, ops + [op], start, subs, a)
    {
      assert AccountCollected(before, ops, start, subs, a);
      if AudienceOf(op).Accounts? {
        assert CopyAdded(before, after, AudienceOf(op).accounts, (start + |ops|, op), subs, a);
      }
    }
  }

  lemma SessionsStep(
    before: map<u64, seq<Located>>, ops: seq<EventOp>, op: EventOp, start: nat, subs: Option<Snapshot>)
    requires SessionsCollected(before, ops, start, subs)
    ensures
      var s := AudienceOf(op);
      SessionsCollected(
        if s.Session? && WantsSession(subs, s.session) then Pushed(before, s.session, (start + |ops|, op)) else before,
        ops + [op], start, subs)
  {
    assert (ops + [op])[..|ops|] == ops;
    var audience := AudienceOf(op);
    var after := if audience.Session? && WantsSession(subs, audience.session)
                 then Pushed(before, audience.session, (start + |ops|, op)) else before;
    forall s
      ensures SessionCollected(after, ops + [op], start, subs, s)
    {
      assert SessionCollected(before, ops, start, subs, s);
    }
  }

  method CollectAccounts(
    accounts: map<PublicKey, seq<Located>>, named: seq<PublicKey>, x: Located, subs: Option<Snapshot>)
    returns (r: map<PublicKey, seq<Located>>)
    ensures CopiesAdded(accounts, r, named, x, subs)
  {
    r := accounts;
    for i := 0 to |named|
      invariant CopiesAdded(accounts, r, named[..i], x, subs)
    {
      CopyStep(accounts, r, named[..i], named[i], x, subs);
      assert named[..i + 1] == named[..i] + [named[i]];
      if HasAccountSubs(subs) && WantsAccount(subs, named[i]) {
        r := Pushed(r, named[i], x);
      }
    }
    assert named[..|named|] == named;
  }

  /** Merge each account's operations with the public ones, in whatever order that work finishes, and keep
      the updates whose proof can be built. */
  method AccountUpdates(proves: Prover, public: seq<Located>, accounts: map<PublicKey, seq<Located>>)
    returns (r: map<PublicKey, seq<Located>>)
    ensures forall a :: a in r <==> a in accounts && proves(Merged(public, accounts[a]))
    ensures forall a :: a in r ==> r[a] == Merged(public, accounts[a])
  {
    r := map[];
    var left := accounts.Keys;
    while left != {}
      invariant left <= accounts.Keys
      invariant forall a :: a in r <==> a in accounts.Keys - left && proves(Merged(public, accounts[a]))
      invariant forall a :: a in r ==> r[a] == Merged(public, accounts[a])
      decreases left
    {
      var a :| a in left;
      var merged := accounts[a];
      if public != [] {
        merged := MergeOps(public, accounts[a]);
      }
      if proves(merged) {
        r := r[a := merged];
      }
      left := left - {a};
    }
  }
}
