/** What the transactions of a block do one after the other (execution/src/layer/mod.rs:623-676), told by
    what each of them reads, writes and logs. */
module Turns {
  import opened Prelude
  import opened Overlay

  /** One transaction's turn: the overlay it found, what the game rules did for it if it was accepted, and
      which outputs are its own. */
  datatype Turn = Turn(seen: Pending, effects: Option<Effects>, start: nat, end: nat)

  /** The turn's transaction was accepted and its rules wrote the key. */
  predicate Writes(turn: Turn, game: GameKey) {
    turn.effects.Some? && game in turn.effects.value.changes
  }

  /** The turn's transaction was accepted and was sent by `who`. */
  predicate Sends(txs: seq<Transaction>, turns: seq<Turn>, i: int, who: PublicKey)
    requires 0 <= i < |turns| <= |txs|
  {
    turns[i].effects.Some? && txs[i].public == who
  }

  ghost predicate LastWriter(turns: seq<Turn>, game: GameKey, i: int) {
    0 <= i < |turns| && Writes(turns[i], game) && forall j :: i < j < |turns| ==> !Writes(turns[j], game)
  }

  ghost predicate NoWriter(turns: seq<Turn>, game: GameKey) {
    forall j :: 0 <= j < |turns| ==> !Writes(turns[j], game)
  }

  ghost predicate LastSender(txs: seq<Transaction>, turns: seq<Turn>, who: PublicKey, i: int)
    requires |turns| <= |txs|
  {
    0 <= i < |turns| && Sends(txs, turns, i, who) && forall j :: i < j < |turns| ==> !Sends(txs, turns, j, who)
  }

  ghost predicate NoSender(txs: seq<Transaction>, turns: seq<Turn>, who: PublicKey)
    requires |turns| <= |txs|
  {
    forall j :: 0 <= j < |turns| ==> !Sends(txs, turns, j, who)
  }

  function Wrote(status: Status): Option<Value> {
    if status.Update? then Some(status.value) else None
  }

  /** Reads after the turns: a game key reads what its last writer wrote, an account one more than the nonce
      its last accepted transaction carried, everything else as before. */
  ghost predicate Leaves(txs: seq<Transaction>, turns: seq<Turn>, before: Key -> Option<Value>, after: Key -> Option<Value>)
    requires |turns| <= |txs|
  {
    && (forall game, i {:trigger LastWriter(turns, game, i)} ::
          LastWriter(turns, game, i) ==> after(StateKey(game)) == Wrote(turns[i].effects.value.changes[game]))
    && (forall game {:trigger NoWriter(turns, game)} :: NoWriter(turns, game) ==> after(StateKey(game)) == before(StateKey(game)))
    && (forall who, i {:trigger LastSender(txs, turns, who, i)} ::
          LastSender(txs, turns, who, i) ==>
            txs[i].nonce < U64_MAX && after(AccountKey(who)) == Some(AccountValue(txs[i].nonce + 1)))
    && (forall who {:trigger NoSender(txs, turns, who)} :: NoSender(txs, turns, who) ==> after(AccountKey(who)) == before(AccountKey(who)))
  }

  function Reads(base: StateMap, pending: Pending): Key -> Option<Value> {
    key => Read(base, pending, key)
  }

  /** The account carries this nonce; no account record stands for nonce zero. */
  predicate Carries(stored: Option<Value>, nonce: u64) {
    stored == Some(AccountValue(nonce)) || (nonce == 0 && !(stored.Some? && stored.value.AccountValue?))
  }

  /** The transaction found what the earlier ones left; it was accepted exactly when it carries the stored
      nonce, and then the rules ran on that overlay with the nonce raised. */
  ghost predicate Ran(rules: Rules, seed: Seed, base: StateMap, pending: Pending, txs: seq<Transaction>, turns: seq<Turn>, i: nat)
    requires i < |turns| <= |txs|
  {
    var tx, turn := txs[i], turns[i];
    && Leaves(txs, turns[..i], Reads(base, pending), Reads(base, turn.seen))
    && (turn.effects.Some? <==> Carries(Read(base, turn.seen, AccountKey(tx.public)), tx.nonce))
    && (turn.effects.Some? ==>
          && tx.nonce < U64_MAX
          && rules.apply(base, turn.seen[AccountKey(tx.public) := Update(AccountValue(tx.nonce + 1))], seed, tx) == Ok(turn.effects.value))
  }

  /** A dropped transaction logs nothing, an accepted one its events in order and then itself. */
  ghost predicate Logged(tx: Transaction, turn: Turn, outputs: seq<Output>) {
    if turn.effects.None? then turn.end == turn.start
    else
      var events := turn.effects.value.events;
      && turn.end == turn.start + |events| + 1 <= |outputs|
      && (forall j :: 0 <= j < |events| ==> outputs[turn.start + j] == EventOutput(events[j]))
      && outputs[turn.end - 1] == TransactionOutput(tx)
  }

  /** The outputs are what the turns logged, in their order and nothing else. */
  ghost predicate AllLogged(txs: seq<Transaction>, turns: seq<Turn>, outputs: seq<Output>)
    requires |turns| <= |txs|
  {
    EachLogged(txs, turns, outputs) && Chained(turns, |outputs|)
  }

  ghost predicate EachLogged(txs: seq<Transaction>, turns: seq<Turn>, outputs: seq<Output>)
    requires |turns| <= |txs|
  {
    forall i :: 0 <= i < |turns| ==> Logged(txs[i], turns[i], outputs)
  }

  /** Each turn starts where the one before ended. */
  ghost predicate Chained(turns: seq<Turn>, size: nat) {
    && (turns != [] ==> turns[0].start == 0)
    && (forall i {:trigger turns[i]} :: 0 < i < |turns| ==> turns[i].start == turns[i - 1].end)
    && size == if turns == [] then 0 else turns[|turns| - 1].end
  }

  /** One turn for each transaction. */
  ghost predicate Happened(
    rules: Rules, seed: Seed, base: StateMap, pending: Pending, txs: seq<Transaction>, turns: seq<Turn>, outputs: seq<Output>)
  {
    && |turns| == |txs|
    && (forall i :: 0 <= i < |turns| ==> Ran(rules, seed, base, pending, txs, turns, i))
    && AllLogged(txs, turns, outputs)
  }

  /** A block that executes does so turn by turn, and leaves what its turns leave. */
  lemma {:induction false} BlockHappens(rules: Rules, seed: Seed, base: StateMap, pending: Pending, txs: seq<Transaction>)
    returns (turns: seq<Turn>)
    requires Executed(rules, seed, base, pending, txs).Ok?
    ensures
      var run := Executed(rules, seed, base, pending, txs).value;
      && Happened(rules, seed, base, pending, txs, turns, run.outputs)
      && Leaves(txs, turns, Reads(base, pending), Reads(base, run.pending))
  {
    if txs == [] {
      turns := [];
      NothingLeaves(txs, Reads(base, pending));
    } else {
      var n := |txs| - 1;
      var earlier := BlockHappens(rules, seed, base, pending, txs[..n]);
      var before := Executed(rules, seed, base, pending, txs[..n]).value;
      var after := Executed(rules, seed, base, pending, txs).value;
      var turn := OneTurn(rules, seed, base, before, txs[n], after);
      turns := earlier + [turn];
      PrefixLeaves(txs, n, earlier, Reads(base, pending), Reads(base, before.pending));
      TurnLeaves(txs, earlier, turn, rules, seed, base, Reads(base, pending), after.pending);
      TurnsRan(rules, seed, base, pending, txs, earlier, turn, after.pending);
      TurnLogs(txs, earlier, turn, before.outputs, after.outputs);
    }
  }

  lemma NothingLeaves(txs: seq<Transaction>, see: Key -> Option<Value>)
    ensures Leaves(txs, [], see, see)
  {
    forall game, i
      ensures !LastWriter([], game, i)
    {
    }
  }

  /** One transaction against the overlay the earlier ones left. */
  ghost predicate Takes(rules: Rules, seed: Seed, base: StateMap, tx: Transaction, turn: Turn, after: Pending) {
    && (turn.effects.Some? <==> Carries(Read(base, turn.seen, AccountKey(tx.public)), tx.nonce))
    && (turn.effects.None? ==> after == turn.seen)
    && (turn.effects.Some? ==>
          && tx.nonce < U64_MAX
          && var admitted := turn.seen[AccountKey(tx.public) := Update(AccountValue(tx.nonce + 1))];
          && rules.apply(base, admitted, seed, tx) == Ok(turn.effects.value)
          && after == WithEffects(admitted, turn.effects.value.changes))
  }

  lemma OneTurn(rules: Rules, seed: Seed, base: StateMap, run: Run, tx: Transaction, after: Run) returns (turn: Turn)
    requires ExecutedOne(rules, seed, base, run, tx) == Ok(after)
    ensures turn.seen == run.pending && turn.start == |run.outputs| && turn.end == |after.outputs|
    ensures Takes(rules, seed, base, tx, turn, after.pending)
    ensures after.outputs == run.outputs + if turn.effects.None? then []
                                           else EventOutputs(turn.effects.value.events) + [TransactionOutput(tx)]
  {
    if Nonce(base, run.pending, tx.public) == tx.nonce {
      var admitted, effects := AcceptedShape(rules, seed, base, run, tx, after);
      turn := Turn(run.pending, Some(effects), |run.outputs|, |after.outputs|);
    } else {
      turn := Turn(run.pending, None, |run.outputs|, |run.outputs|);
    }
  }

  /** After an accepted transaction its game keys read what its effects list, its sender's account the
      raised nonce, and every other key as before. */
  lemma AcceptedReads(rules: Rules, seed: Seed, base: StateMap, tx: Transaction, turn: Turn, after: Pending, key: Key)
    requires Takes(rules, seed, base, tx, turn, after)
    ensures
      Read(base, after, key) ==
      if turn.effects.None? then Read(base, turn.seen, key)
      else match key
           case AccountKey(who) => if who == tx.public then Some(AccountValue(tx.nonce + 1)) else Read(base, turn.seen, key)
           case StateKey(game) =>
             if game in turn.effects.value.changes then Wrote(turn.effects.value.changes[game]) else Read(base, turn.seen, key)
  {
  }

  lemma SameSends(txs: seq<Transaction>, n: nat, turns: seq<Turn>, who: PublicKey)
    requires |turns| <= n <= |txs|
    ensures forall i :: 0 <= i < |turns| ==> Sends(txs[..n], turns, i, who) == Sends(txs, turns, i, who)
  {
  }

  lemma PrefixLeaves(txs: seq<Transaction>, n: nat, turns: seq<Turn>, before: Key -> Option<Value>, after: Key -> Option<Value>)
    requires |turns| <= n <= |txs| && Leaves(txs[..n], turns, before, after)
    ensures Leaves(txs, turns, before, after)
  {
    forall who, i | LastSender(txs, turns, who, i)
      ensures txs[i].nonce < U64_MAX && after(AccountKey(who)) == Some(AccountValue(txs[i].nonce + 1))
    {
      SameSends(txs, n, turns, who);
      assert LastSender(txs[..n], turns, who, i);
    }
    forall who | NoSender(txs, turns, who)
      ensures after(AccountKey(who)) == before(AccountKey(who))
    {
      SameSends(txs, n, turns, who);
      assert NoSender(txs[..n], turns, who);
    }
  }

  lemma TurnLeaves(
    txs: seq<Transaction>, earlier: seq<Turn>, turn: Turn, rules: Rules, seed: Seed, base: StateMap,
    before: Key -> Option<Value>, after: Pending)
    requires |earlier| < |txs| && Leaves(txs, earlier, before, Reads(base, turn.seen))
    requires Takes(rules, seed, base, txs[|earlier|], turn, after)
    ensures Leaves(txs, earlier + [turn], before, Reads(base, after))
  {
    var turns, n := earlier + [turn], |earlier|;
    forall game, i | LastWriter(turns, game, i)
      ensures Read(base, after, StateKey(game)) == Wrote(turns[i].effects.value.changes[game])
    {
      AcceptedReads(rules, seed, base, txs[n], turn, after, StateKey(game));
      if i < n {
        assert !Writes(turns[n], game);
        EarlierWriter(earlier, turn, game, i);
      }
    }
    forall game | NoWriter(turns, game)
      ensures Read(base, after, StateKey(game)) == before(StateKey(game))
    {
      AcceptedReads(rules, seed, base, txs[n], turn, after, StateKey(game));
      assert !Writes(turns[n], game);
      EarlierNoWriter(earlier, turn, game);
    }
    forall who, i | LastSender(txs, turns, who, i)
      ensures txs[i].nonce < U64_MAX && Read(base, after, AccountKey(who)) == Some(AccountValue(txs[i].nonce + 1))
    {
      AcceptedReads(rules, seed, base, txs[n], turn, after, AccountKey(who));
      if i < n {
        assert !Sends(txs, turns, n, who);
        EarlierSender(txs, earlier, turn, who, i);
      }
    }
    forall who | NoSender(txs, turns, who)
      ensures Read(base, after, AccountKey(who)) == before(AccountKey(who))
    {
      AcceptedReads(rules, seed, base, txs[n], turn, after, AccountKey(who));
      assert !Sends(txs, turns, n, who);
      EarlierNoSender(txs, earlier, turn, who);
    }
  }

  lemma EarlierWriter(earlier: seq<Turn>, turn: Turn, game: GameKey, i: int)
    requires LastWriter(earlier + [turn], game, i) && i < |earlier|
    ensures LastWriter(earlier, game, i)
  {
    assert forall j :: 0 <= j < |earlier| ==> (earlier + [turn])[j] == earlier[j];
  }

  lemma EarlierNoWriter(earlier: seq<Turn>, turn: Turn, game: GameKey)
    requires NoWriter(earlier + [turn], game)
    ensures NoWriter(earlier, game)
  {
    assert forall j :: 0 <= j < |earlier| ==> (earlier + [turn])[j] == earlier[j];
  }

  lemma EarlierSender(txs: seq<Transaction>, earlier: seq<Turn>, turn: Turn, who: PublicKey, i: int)
    requires |earlier| < |txs| && LastSender(txs, earlier + [turn], who, i) && i < |earlier|
    ensures LastSender(txs, earlier, who, i)
  {
    forall j | i < j < |earlier|
      ensures !Sends(txs, earlier, j, who)
    {
      assert !Sends(txs, earlier + [turn], j, who);
    }
  }

  lemma EarlierNoSender(txs: seq<Transaction>, earlier: seq<Turn>, turn: Turn, who: PublicKey)
    requires |earlier| < |txs| && NoSender(txs, earlier + [turn], who)
    ensures NoSender(txs, earlier, who)
  {
    forall j | 0 <= j < |earlier|
      ensures !Sends(txs, earlier, j, who)
    {
      assert !Sends(txs, earlier + [turn], j, who);
    }
  }

  /** The earlier turns ran, and the last one ran on what they left. */
  lemma TurnsRan(
    rules: Rules, seed: Seed, base: StateMap, pending: Pending, txs: seq<Transaction>, earlier: seq<Turn>, turn: Turn, after: Pending)
    requires |txs| == |earlier| + 1
    requires forall i :: 0 <= i < |earlier| ==> Ran(rules, seed, base, pending, txs[..|earlier|], earlier, i)
    requires Leaves(txs, earlier, Reads(base, pending), Reads(base, turn.seen))
    requires Takes(rules, seed, base, txs[|earlier|], turn, after)
    ensures forall i :: 0 <= i < |txs| ==> Ran(rules, seed, base, pending, txs, earlier + [turn], i)
  {
    var n := |earlier|;
    forall i | 0 <= i < |txs|
      ensures Ran(rules, seed, base, pending, txs, earlier + [turn], i)
    {
      if i < n {
        RanStays(rules, seed, base, pending, txs, n, earlier, turn, i);
      } else {
        RanLast(rules, seed, base, pending, txs, earlier, turn, after);
      }
    }
  }

  lemma RanLast(
    rules: Rules, seed: Seed, base: StateMap, pending: Pending, txs: seq<Transaction>, earlier: seq<Turn>, turn: Turn, after: Pending)
    requires |txs| == |earlier| + 1
    requires Leaves(txs, earlier, Reads(base, pending), Reads(base, turn.seen))
    requires Takes(rules, seed, base, txs[|earlier|], turn, after)
    ensures Ran(rules, seed, base, pending, txs, earlier + [turn], |earlier|)
  {
    assert (earlier + [turn])[..|earlier|] == earlier;
  }

  lemma RanStays(
    rules: Rules, seed: Seed, base: StateMap, pending: Pending, txs: seq<Transaction>, n: nat, earlier: seq<Turn>, turn: Turn, i: nat)
    requires i < |earlier| == n < |txs| && Ran(rules, seed, base, pending, txs[..n], earlier, i)
    ensures Ran(rules, seed, base, pending, txs, earlier + [turn], i)
  {
    assert (earlier + [turn])[..i] == earlier[..i];
    PrefixLeaves(txs, n, earlier[..i], Reads(base, pending), Reads(base, earlier[i].seen));
  }

  lemma TurnLogs(txs: seq<Transaction>, earlier: seq<Turn>, turn: Turn, before: seq<Output>, after: seq<Output>)
    requires |txs| == |earlier| + 1 && AllLogged(txs[..|earlier|], earlier, before)
    requires turn.start == |before| && turn.end == |after|
    requires after == before + if turn.effects.None? then []
                               else EventOutputs(turn.effects.value.events) + [TransactionOutput(txs[|earlier|])]
    ensures AllLogged(txs, earlier + [turn], after)
  {
    LastLogs(txs[|earlier|], turn, before, after);
    LoggedMore(txs, earlier, turn, before, after);
    ChainGrows(earlier, turn, |before|, |after|);
  }

  lemma LoggedMore(txs: seq<Transaction>, earlier: seq<Turn>, turn: Turn, before: seq<Output>, after: seq<Output>)
    requires |txs| == |earlier| + 1 && EachLogged(txs[..|earlier|], earlier, before) && before <= after
    requires Logged(txs[|earlier|], turn, after)
    ensures EachLogged(txs, earlier + [turn], after)
  {
    var n, turns := |earlier|, earlier + [turn];
    forall i | 0 <= i < |turns|
      ensures Logged(txs[i], turns[i], after)
    {
      if i < n {
        assert Logged(txs[..n][i], earlier[i], before);
        StillLogged(txs[i], earlier[i], before, after);
      }
    }
  }

  lemma ChainGrows(earlier: seq<Turn>, turn: Turn, before: nat, after: nat)
    requires Chained(earlier, before) && turn.start == before && turn.end == after
    ensures Chained(earlier + [turn], after)
  {
  }

  lemma StillLogged(tx: Transaction, turn: Turn, before: seq<Output>, after: seq<Output>)
    requires Logged(tx, turn, before) && before <= after
    ensures Logged(tx, turn, after)
  {
  }

  lemma LastLogs(tx: Transaction, turn: Turn, before: seq<Output>, after: seq<Output>)
    requires turn.start == |before| && turn.end == |after|
    requires after == before + if turn.effects.None? then []
                               else EventOutputs(turn.effects.value.events) + [TransactionOutput(tx)]
    ensures Logged(tx, turn, after)
  {
  }

  /******* Blocks that fail *******/

  /** Some transaction, after the earlier ones had their turns, carries the stored nonce and then either that
      nonce is the largest one or the rules fail. */
  ghost predicate FailsAt(
    rules: Rules, seed: Seed, base: StateMap, pending: Pending, txs: seq<Transaction>, turns: seq<Turn>, outputs: seq<Output>,
    seen: Pending, error: ExecuteError)
  {
    && |turns| < |txs|
    && var tx := txs[|turns|];
    && Happened(rules, seed, base, pending, txs[..|turns|], turns, outputs)
    && Leaves(txs, turns, Reads(base, pending), Reads(base, seen))
    && Carries(Read(base, seen, AccountKey(tx.public)), tx.nonce)
    && if tx.nonce == U64_MAX then error == Aborted
       else
         var ruled := rules.apply(base, seen[AccountKey(tx.public) := Update(AccountValue(tx.nonce + 1))], seed, tx);
         ruled.Err? && error == Failed(ruled.error)
  }

  /** A block that does not execute fails at its first failing transaction, with that transaction's error. */
  lemma {:induction false} BlockFails(rules: Rules, seed: Seed, base: StateMap, pending: Pending, txs: seq<Transaction>)
    returns (turns: seq<Turn>, outputs: seq<Output>, seen: Pending)
    requires Executed(rules, seed, base, pending, txs).Err?
    ensures FailsAt(rules, seed, base, pending, txs, turns, outputs, seen, Executed(rules, seed, base, pending, txs).error)
  {
    var n := |txs| - 1;
    var before := Executed(rules, seed, base, pending, txs[..n]);
    if before.Err? {
      turns, outputs, seen := BlockFails(rules, seed, base, pending, txs[..n]);
      FailureStays(rules, seed, base, pending, txs, n, turns, outputs, seen, before.error);
    } else {
      turns := BlockHappens(rules, seed, base, pending, txs[..n]);
      outputs, seen := before.value.outputs, before.value.pending;
      FailsNow(rules, seed, base, pending, txs, n, turns, before.value);
    }
  }

  lemma FailsNow(
    rules: Rules, seed: Seed, base: StateMap, pending: Pending, txs: seq<Transaction>, n: nat, turns: seq<Turn>, before: Run)
    requires |txs| == n + 1 && Happened(rules, seed, base, pending, txs[..n], turns, before.outputs)
    requires Leaves(txs[..n], turns, Reads(base, pending), Reads(base, before.pending))
    requires ExecutedOne(rules, seed, base, before, txs[n]).Err?
    ensures FailsAt(rules, seed, base, pending, txs, turns, before.outputs, before.pending,
                    ExecutedOne(rules, seed, base, before, txs[n]).error)
  {
    PrefixLeaves(txs, n, turns, Reads(base, pending), Reads(base, before.pending));
    LastFails(rules, seed, base, before, txs[n]);
  }

  lemma FailureStays(
    rules: Rules, seed: Seed, base: StateMap, pending: Pending, txs: seq<Transaction>, n: nat, turns: seq<Turn>, outputs: seq<Output>,
    seen: Pending, error: ExecuteError)
    requires n <= |txs| && FailsAt(rules, seed, base, pending, txs[..n], turns, outputs, seen, error)
    ensures FailsAt(rules, seed, base, pending, txs, turns, outputs, seen, error)
  {
    assert txs[..n][..|turns|] == txs[..|turns|];
    PrefixLeaves(txs, n, turns, Reads(base, pending), Reads(base, seen));
  }

  lemma LastFails(rules: Rules, seed: Seed, base: StateMap, run: Run, tx: Transaction)
    requires ExecutedOne(rules, seed, base, run, tx).Err?
    ensures Carries(Read(base, run.pending, AccountKey(tx.public)), tx.nonce)
    ensures
      var error := ExecutedOne(rules, seed, base, run, tx).error;
      if tx.nonce == U64_MAX then error == Aborted
      else
        var ruled := rules.apply(base, run.pending[AccountKey(tx.public) := Update(AccountValue(tx.nonce + 1))], seed, tx);
        ruled.Err? && error == Failed(ruled.error)
  {
  }
}
