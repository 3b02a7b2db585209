/** Whom each event of a summary reaches, by the event's own fields and by position
    (simulator/src/state.rs:428-860). */
module EventRouting {
  import opened Prelude
  import opened EventIndex

  /** Events that every subscribed account receives. */
  predicate Public(event: Event) {
    || event.CasinoLeaderboardUpdated? || event.TournamentStarted? || event.TournamentPhaseChanged?
    || event.AmmBootstrapped? || event.AmmBootstrapFinalized? || event.PolicyUpdated? || event.OracleUpdated?
    || event.TreasuryUpdated? || event.TreasuryVestingUpdated? || event.TreasuryAllocationReleased?
    || event.RecoveryPoolFunded? || event.BridgeWithdrawalFinalized? || event.EpochProcessed?
    || event.GlobalTableRoundOpened? || event.GlobalTableLocked? || event.GlobalTableOutcome? || event.GlobalTableFinalized?
  }

  /** The accounts an event names. */
  function Named(event: Event): seq<PublicKey> {
    if event.TournamentEnded? then event.rankings
    else if event.VaultLiquidated? then [event.liquidator, event.target]
    else if event.RecoveryPoolRetired? then [event.target]
    else if event.BridgeDepositCredited? then [event.recipient]
    else if Public(event) || event.CasinoGameMoved? then []
    else [event.player]
  }

  predicate PublicOp(op: EventOp) {
    op.Append? && op.output.EventOutput? && Public(op.output.event)
  }

  predicate MoveIn(op: EventOp, session: u64) {
    op.Append? && op.output.EventOutput? && op.output.event.CasinoGameMoved? && op.output.event.session == session
  }

  function NamedIn(op: EventOp): seq<PublicKey> {
    if op.Append? && op.output.EventOutput? then Named(op.output.event)
    else if op.Append? && op.output.TransactionOutput? then [op.output.public]
    else []
  }

  /** How many copies an account is due: one of a public event, one for each time it is named. */
  function Due(op: EventOp, a: PublicKey): nat {
    if PublicOp(op) then 1 else multiset(NamedIn(op))[a]
  }

  lemma AudienceIs(op: EventOp)
    ensures AudienceOf(op).Everyone? <==> PublicOp(op)
    ensures forall s :: AudienceOf(op) == Session(s) <==> MoveIn(op, s)
    ensures AudienceOf(op).Accounts? ==> AudienceOf(op).accounts == NamedIn(op)
    ensures !AudienceOf(op).Accounts? ==> NamedIn(op) == []
  {
    if op.Append? && op.output.EventOutput? {
      EventIs(op.output.event);
    }
  }

  lemma EventIs(event: Event)
    ensures EventAudience(event) ==
              if event.CasinoGameMoved? then Session(event.session)
              else if Public(event) then Everyone
              else Accounts(Named(event))
  {
  }

  lemma {:induction false} TimesIs(accounts: seq<PublicKey>, a: PublicKey)
    ensures Times(accounts, a) == multiset(accounts)[a]
  {
    if accounts != [] {
      var n := |accounts| - 1;
      TimesIs(accounts[..n], a);
      assert accounts == accounts[..n] + [accounts[n]];
    }
  }

  lemma CopiesAreDue(op: EventOp, a: PublicKey)
    ensures Copies(op, a) == Due(op, a)
  {
    AudienceIs(op);
    TimesIs(NamedIn(op), a);
  }

  /** How often an operation is due. */
  type Share = EventOp -> nat

  function DueTo(a: PublicKey): Share {
    op => Due(op, a)
  }

  const PUBLIC: Share := op => if PublicOp(op) then 1 else 0

  function MovesOf(s: u64): Share {
    op => if MoveIn(op, s) then 1 else 0
  }

  /** Each operation as often as it is due, at its own location, in the order of locations, and nothing else. */
  ghost predicate Routed(r: seq<Located>, ops: seq<EventOp>, start: nat, share: Share) {
    InOrder(r) && forall x: Located :: multiset(r)[x] == DueAt(x, ops, start, share)
  }

  ghost predicate InOrder(r: seq<Located>) {
    forall i, j :: 0 <= i < j < |r| ==> r[i].0 <= r[j].0
  }

  function DueAt(x: Located, ops: seq<EventOp>, start: nat, share: Share): nat {
    if start <= x.0 < start + |ops| && x.1 == ops[x.0 - start] then share(x.1) else 0
  }

  lemma {:induction false} RepeatCounts(x: Located, copies: nat, y: Located)
    ensures multiset(Repeat(x, copies))[y] == if y == x then copies else 0
  {
    if copies == 0 {
      assert Repeat(x, copies) == [];
    } else {
      RepeatCounts(x, copies - 1, y);
      assert Repeat(x, copies) == Repeat(x, copies - 1) + [x];
    }
  }

  lemma RoutedWithin(r: seq<Located>, ops: seq<EventOp>, start: nat, share: Share)
    requires forall x: Located :: multiset(r)[x] == DueAt(x, ops, start, share)
    ensures forall j :: 0 <= j < |r| ==> r[j].0 < start + |ops|
  {
    forall j | 0 <= j < |r|
      ensures r[j].0 < start + |ops|
    {
      assert r[j] in multiset(r);
    }
  }

  lemma DueMore(ops: seq<EventOp>, n: nat, start: nat, share: Share, last: Located, x: Located)
    requires |ops| == n + 1 && last == (start + n, ops[n])
    ensures DueAt(x, ops, start, share) == DueAt(x, ops[..n], start, share) + if x == last then share(ops[n]) else 0
  {
  }

  lemma OrderedMore(r: seq<Located>, tail: seq<Located>, loc: nat)
    requires InOrder(r) && (forall j :: 0 <= j < |r| ==> r[j].0 < loc) && (forall j :: 0 <= j < |tail| ==> tail[j].0 == loc)
    ensures InOrder(r + tail)
  {
  }

  lemma RoutedMore(r: seq<Located>, ops: seq<EventOp>, n: nat, start: nat, share: Share, last: Located)
    requires |ops| == n + 1 && last == (start + n, ops[n]) && Routed(r, ops[..n], start, share)
    ensures Routed(r + Repeat(last, share(ops[n])), ops, start, share)
  {
    var tail := Repeat(last, share(ops[n]));
    RoutedWithin(r, ops[..n], start, share);
    OrderedMore(r, tail, start + n);
    forall x: Located
      ensures multiset(r + tail)[x] == DueAt(x, ops, start, share)
    {
      DueMore(ops, n, start, share, last, x);
      RepeatCounts(last, share(ops[n]), x);
      assert multiset(r + tail) == multiset(r) + multiset(tail);
    }
  }

  lemma OneOrNone(x: Located, due: bool)
    ensures Repeat(x, if due then 1 else 0) == if due then [x] else []
  {
  }

  lemma NothingRouted(ops: seq<EventOp>, start: nat, share: Share)
    requires ops == []
    ensures Routed([], ops, start, share)
  {
  }

  lemma AccountStep(ops: seq<EventOp>, n: nat, start: nat, a: PublicKey, last: Located)
    requires |ops| == n + 1 && last == (start + n, ops[n])
    ensures ForAccount(ops, start, a) == ForAccount(ops[..n], start, a) + Repeat(last, DueTo(a)(ops[n]))
  {
    CopiesAreDue(ops[n], a);
  }

  lemma PublicStep(ops: seq<EventOp>, n: nat, start: nat, last: Located)
    requires |ops| == n + 1 && last == (start + n, ops[n])
    ensures PublicOps(ops, start) == PublicOps(ops[..n], start) + Repeat(last, PUBLIC(ops[n]))
  {
    AudienceIs(ops[n]);
    OneOrNone(last, PublicOp(ops[n]));
  }

  lemma SessionStep(ops: seq<EventOp>, n: nat, start: nat, s: u64, last: Located)
    requires |ops| == n + 1 && last == (start + n, ops[n])
    ensures ForSession(ops, start, s) == ForSession(ops[..n], start, s) + Repeat(last, MovesOf(s)(ops[n]))
  {
    AudienceIs(ops[n]);
    OneOrNone(last, MoveIn(ops[n], s));
  }

  /** An account's one-pass result holds each operation as often as the account is due it. */
  lemma {:induction false} AccountIsRouted(ops: seq<EventOp>, start: nat, a: PublicKey)
    ensures Routed(ForAccount(ops, start, a), ops, start, DueTo(a))
  {
    if ops == [] {
      NothingRouted(ops, start, DueTo(a));
    } else {
      var n := |ops| - 1;
      var last: Located := (start + n, ops[n]);
      AccountIsRouted(ops[..n], start, a);
      AccountStep(ops, n, start, a, last);
      RoutedMore(ForAccount(ops[..n], start, a), ops, n, start, DueTo(a), last);
    }
  }

  /** The public operations are those of public events, each once. */
  lemma {:induction false} PublicIsRouted(ops: seq<EventOp>, start: nat)
    ensures Routed(PublicOps(ops, start), ops, start, PUBLIC)
  {
    if ops == [] {
      NothingRouted(ops, start, PUBLIC);
    } else {
      var n := |ops| - 1;
      var last: Located := (start + n, ops[n]);
      PublicIsRouted(ops[..n], start);
      PublicStep(ops, n, start, last);
      RoutedMore(PublicOps(ops[..n], start), ops, n, start, PUBLIC, last);
    }
  }

  /** A session receives its own moves, each once. */
  lemma {:induction false} SessionIsRouted(ops: seq<EventOp>, start: nat, s: u64)
    ensures Routed(ForSession(ops, start, s), ops, start, MovesOf(s))
  {
    if ops == [] {
      NothingRouted(ops, start, MovesOf(s));
    } else {
      var n := |ops| - 1;
      var last: Located := (start + n, ops[n]);
      SessionIsRouted(ops[..n], start, s);
      SessionStep(ops, n, start, s, last);
      RoutedMore(ForSession(ops[..n], start, s), ops, n, start, MovesOf(s), last);
    }
  }

  predicate NamedAt(ops: seq<EventOp>, a: PublicKey, i: int) {
    0 <= i < |ops| && a in NamedIn(ops[i])
  }

  /** An account has an update of its own to receive exactly when some operation names it. */
  lemma {:induction false} MentionedIff(ops: seq<EventOp>, start: nat, a: PublicKey)
    ensures Mentions(ops, start, a) != [] <==> exists i :: NamedAt(ops, a, i)
  {
    if ops != [] {
      var n := |ops| - 1;
      var last: Located := (start + n, ops[n]);
      MentionedIff(ops[..n], start, a);
      MentionIs(last, a);
      NamedBefore(ops, n, a);
      MentionsStep(ops, n, start, a, last);
    }
  }

  lemma MentionsStep(ops: seq<EventOp>, n: nat, start: nat, a: PublicKey, last: Located)
    requires |ops| == n + 1 && last == (start + n, ops[n])
    ensures Mentions(ops, start, a) == Mentions(ops[..n], start, a) + MentionsIn(last, a)
  {
  }

  lemma MentionIs(x: Located, a: PublicKey)
    ensures MentionsIn(x, a) != [] <==> a in NamedIn(x.1)
  {
    AudienceIs(x.1);
    TimesIs(NamedIn(x.1), a);
  }

  lemma NamedBefore(ops: seq<EventOp>, n: nat, a: PublicKey)
    requires |ops| == n + 1
    ensures (exists i :: NamedAt(ops, a, i)) <==> a in NamedIn(ops[n]) || exists i :: NamedAt(ops[..n], a, i)
  {
    if i :| NamedAt(ops, a, i) {
      assert i < n ==> NamedAt(ops[..n], a, i);
    }
    if i :| NamedAt(ops[..n], a, i) {
      assert NamedAt(ops, a, i);
    }
    assert a in NamedIn(ops[n]) ==> NamedAt(ops, a, n);
  }
}
