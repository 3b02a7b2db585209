/** What a block adds to both stores and what is reported for it, over whole runs of calls and crashes
    (execution/src/state_transition.rs:139-292). */
module ChainReports {
  import opened Prelude
  import opened Overlay
  import opened Turns
  import opened StateTransition
  import opened CrashRecovery

  /******* The log *******/

  /** The log grew by exactly these outputs and one commit, which says the height and where they start. */
  ghost predicate Added(before: seq<EventOp>, after: seq<EventOp>, height: u64, outputs: seq<Output>) {
    && |after| == |before| + |outputs| + 1
    && (forall i :: 0 <= i < |before| ==> after[i] == before[i])
    && (forall i :: 0 <= i < |outputs| ==> after[|before| + i] == Append(outputs[i]))
    && after[|after| - 1] == CommitOp(Some(CommitOutput(height, |before|)))
  }

  predicate IsTransaction(op: EventOp) {
    op.Append? && op.output.TransactionOutput?
  }

  /** The positions between `start` and `end` at which the log holds a transaction. */
  function TransactionsIn(events: seq<EventOp>, start: nat, end: nat): set<nat>
    requires end <= |events|
  {
    set p: nat | start <= p < end && IsTransaction(events[p])
  }

  lemma {:induction false} CountIsPositions(before: seq<EventOp>, after: seq<EventOp>, height: u64, outputs: seq<Output>, n: nat)
    requires Added(before, after, height, outputs) && n <= |outputs|
    ensures CountTransactions(outputs[..n]) == |TransactionsIn(after, |before|, |before| + n)|
  {
    if n > 0 {
      CountIsPositions(before, after, height, outputs, n - 1);
      assert outputs[..n][..n - 1] == outputs[..n - 1];
      OnePositionMore(after, |before|, |before| + n - 1);
    }
  }

  lemma OnePositionMore(events: seq<EventOp>, start: nat, p: nat)
    requires start <= p < |events|
    ensures |TransactionsIn(events, start, p + 1)| == |TransactionsIn(events, start, p)| + if IsTransaction(events[p]) then 1 else 0
  {
    assert TransactionsIn(events, start, p + 1)
        == TransactionsIn(events, start, p) + if IsTransaction(events[p]) then {p} else {};
  }

  lemma TransactionsOf(before: seq<EventOp>, after: seq<EventOp>, height: u64, outputs: seq<Output>)
    requires Added(before, after, height, outputs)
    ensures CountTransactions(outputs) == |TransactionsIn(after, |before|, |after|)|
  {
    CountIsPositions(before, after, height, outputs, |outputs|);
    assert outputs[..|outputs|] == outputs;
    assert TransactionsIn(after, |before|, |after|) == TransactionsIn(after, |before|, |after| - 1);
  }

  /** Some transaction between `start` and `end` was sent by `who`. */
  ghost predicate SentIn(events: seq<EventOp>, start: nat, end: nat, who: PublicKey)
    requires end <= |events|
  {
    exists p :: start <= p < end && IsTransaction(events[p]) && events[p].output.tx.public == who
  }

  lemma {:induction false} SomeNonce(outputs: seq<Output>, who: PublicKey)
    ensures NoncesOf(outputs, who) != [] <==>
            exists i :: 0 <= i < |outputs| && outputs[i].TransactionOutput? && outputs[i].tx.public == who
  {
    if outputs != [] {
      var n := |outputs| - 1;
      SomeNonce(outputs[..n], who);
      if i :| 0 <= i < |outputs| && outputs[i].TransactionOutput? && outputs[i].tx.public == who {
        assert i < n ==> outputs[..n][i] == outputs[i];
      }
      if i :| 0 <= i < n && outputs[..n][i].TransactionOutput? && outputs[..n][i].tx.public == who {
        assert outputs[i] == outputs[..n][i];
      }
    }
  }

  lemma SentMeansNonce(before: seq<EventOp>, after: seq<EventOp>, height: u64, outputs: seq<Output>, who: PublicKey)
    requires Added(before, after, height, outputs)
    ensures SentIn(after, |before|, |after|, who) <==> NoncesOf(outputs, who) != []
  {
    SomeNonce(outputs, who);
    if SentIn(after, |before|, |after|, who) {
      var p :| |before| <= p < |after| && IsTransaction(after[p]) && after[p].output.tx.public == who;
      assert outputs[p - |before|] == after[p].output;
    }
    if i :| 0 <= i < |outputs| && outputs[i].TransactionOutput? && outputs[i].tx.public == who {
      assert IsTransaction(after[|before| + i]) && after[|before| + i].output.tx.public == who;
    }
  }

  /******* One block *******/

  /** What the block's transactions did, turn by turn, is what it added to the log and left in the state. */
  ghost predicate BlockDone(
    rules: Rules, before: Durable, after: Durable, height: u64, block: Block, turns: seq<Turn>, outputs: seq<Output>)
  {
    && Happened(rules, block.seed, before.state.content, map[], block.transactions, turns, outputs)
    && Leaves(block.transactions, turns, Reads(before.state.content, map[]), Reads(after.state.content, map[]))
    && Added(before.events, after.events, height, outputs)
    && after.state.metadata == Some(CommitValue(height, before.state.opCount))
  }

  /** Every height of the chain holds what its block's transactions did on the height before. */
  lemma BlockOnChain(m: Machine, rules: Rules, listing: Pending -> Changes, blocks: Schedule, chain: seq<Durable>, h: nat)
    returns (turns: seq<Turn>, outputs: seq<Output>)
    requires Runs(m, rules, listing) && CrashFree(m, blocks, chain) && 0 < h < |chain|
    ensures BlockDone(rules, chain[h - 1], chain[h], h, blocks(h), turns, outputs)
    ensures Link(m, blocks, chain, h) && outputs == m.layer(chain[h - 1].state.content, blocks(h)).value.outputs
  {
    assert Link(m, blocks, chain, h);
    var before, block := chain[h - 1], blocks(h);
    var content := before.state.content;
    var run := Executed(rules, block.seed, content, map[], block.transactions).value;
    var layer := m.layer(content, block).value;
    assert layer == LayerResult(run.outputs, run.nonces, listing(run.pending));
    turns := BlockHappens(rules, block.seed, content, map[], block.transactions);
    outputs := run.outputs;
    PutChangesContent(m, before.state, layer.changes);
    LeavesCommitted(block.transactions, turns, Reads(content, map[]), content, run.pending, layer.changes);
  }

  /** What the overlay reads is what the state reads once its changes are applied. */
  lemma LeavesCommitted(
    txs: seq<Transaction>, turns: seq<Turn>, before: Key -> Option<Value>, base: StateMap, pending: Pending, changes: Changes)
    requires |turns| <= |txs| && Leaves(txs, turns, before, Reads(base, pending)) && Lists(changes, pending)
    ensures Leaves(txs, turns, before, Reads(ApplyAll(base, changes), map[]))
  {
    forall key
      ensures Read(ApplyAll(base, changes), map[], key) == Read(base, pending, key)
    {
      OverlayMatchesApply(base, pending, changes, key);
    }
  }

  /** One change is applied to the contents and logged as the operations it takes. */
  ghost predicate Changed(m: Machine, before: Adb, after: Adb, key: Key, status: Status) {
    && after.content == ApplyOne(before.content, key, status)
    && after.opCount == before.opCount + m.changeOps(before, key, status)
    && after.metadata == before.metadata
  }

  /** The state log grew by what each change logs where it is applied, by what raising the floor logs at the
      commit, and by the commit itself; `trail` holds the state before each change and before the commit. */
  ghost predicate OpsCounted(m: Machine, before: Adb, after: Adb, changes: Changes, trail: seq<Adb>) {
    && Trailed(m, before, changes, trail)
    && after.content == trail[|changes|].content
    && after.opCount == trail[|changes|].opCount + m.floorOps(trail[|changes|]) + 1
  }

  ghost predicate Trailed(m: Machine, before: Adb, changes: Changes, trail: seq<Adb>) {
    && |trail| == |changes| + 1 && trail[0] == before
    && forall i :: 0 <= i < |changes| ==> Changed(m, trail[i], trail[i + 1], changes[i].0, changes[i].1)
  }

  lemma {:induction false} ChangesTrail(m: Machine, state: Adb, changes: Changes) returns (trail: seq<Adb>)
    ensures Trailed(m, state, changes, trail) && trail[|changes|] == PutChanges(m, state, changes)
  {
    if changes == [] {
      trail := [state];
    } else {
      var n := |changes| - 1;
      var front := ChangesTrail(m, state, changes[..n]);
      trail := front + [PutChange(m, front[n], changes[n].0, changes[n].1)];
      TrailMore(m, state, changes, n, front, trail[n + 1]);
    }
  }

  lemma TrailMore(m: Machine, before: Adb, changes: Changes, n: nat, trail: seq<Adb>, last: Adb)
    requires |changes| == n + 1 && Trailed(m, before, changes[..n], trail)
    requires Changed(m, trail[n], last, changes[n].0, changes[n].1)
    ensures Trailed(m, before, changes, trail + [last])
  {
    forall i | 0 <= i < |changes|
      ensures Changed(m, (trail + [last])[i], (trail + [last])[i + 1], changes[i].0, changes[i].1)
    {
      if i < n {
        assert Changed(m, trail[i], trail[i + 1], changes[..n][i].0, changes[..n][i].1);
      }
    }
  }

  lemma BlockOps(m: Machine, state: Adb, height: u64, changes: Changes) returns (trail: seq<Adb>)
    ensures OpsCounted(m, state, StateAfter(m, state, height, changes), changes, trail)
  {
    trail := ChangesTrail(m, state, changes);
  }

  /******* The report *******/

  /** The report of height h: the roots and ends of both logs after it, the starts before it, how many
      transactions it logged, and for exactly the accounts that sent one, the nonce now stored. */
  ghost predicate Tells(report: TransitionResult, before: Durable, after: Durable) {
    && report.stateRoot == after.state && report.eventsRoot == after.events
    && report.stateStart == before.state.opCount && report.stateEnd == after.state.opCount
    && report.eventsStart == |before.events| && report.eventsEnd == |after.events|
    && |before.events| <= |after.events|
    && report.executedTransactions == |TransactionsIn(after.events, |before.events|, |after.events|)|
    && (forall who :: who in report.processedNonces <==> SentIn(after.events, |before.events|, |after.events|, who))
    && (forall who :: who in report.processedNonces ==>
          && AccountKey(who) in after.state.content
          && after.state.content[AccountKey(who)] == AccountValue(report.processedNonces[who]))
  }

  lemma ReportTells(
    m: Machine, rules: Rules, listing: Pending -> Changes, blocks: Schedule, chain: seq<Durable>, report: TransitionResult, h: nat)
    requires Runs(m, rules, listing) && CrashFree(m, blocks, chain) && Faithful(m, blocks, chain, report, h)
    ensures Tells(report, chain[h - 1], chain[h])
  {
    var before, after, block := chain[h - 1], chain[h], blocks(h);
    var turns, outputs := BlockOnChain(m, rules, listing, blocks, chain, h);
    TransactionsOf(before.events, after.events, h, outputs);
    forall who
      ensures who in report.processedNonces <==> SentIn(after.events, |before.events|, |after.events|, who)
      ensures who in report.processedNonces ==>
                && AccountKey(who) in after.state.content
                && after.state.content[AccountKey(who)] == AccountValue(report.processedNonces[who])
    {
      SentMeansNonce(before.events, after.events, h, outputs, who);
      ReportedNonce(m, rules, listing, before, h, block, who);
    }
  }

  /** The nonce reported for an account is the one its record carries after the block. */
  lemma ReportedNonce(m: Machine, rules: Rules, listing: Pending -> Changes, before: Durable, height: u64, block: Block, who: PublicKey)
    requires Runs(m, rules, listing) && m.layer(before.state.content, block).Ok?
    ensures
      var layer := m.layer(before.state.content, block).value;
      var content := Extend(m, before, height, layer).state.content;
      && (who in layer.nonces <==> NoncesOf(layer.outputs, who) != [])
      && (who in layer.nonces ==> AccountKey(who) in content && content[AccountKey(who)] == AccountValue(layer.nonces[who]))
  {
    var layer, base := m.layer(before.state.content, block).value, before.state.content;
    var run := Executed(rules, block.seed, base, map[], block.transactions).value;
    assert layer == LayerResult(run.outputs, run.nonces, listing(run.pending));
    AcceptedNoncesAreConsecutive(rules, block.seed, base, map[], block.transactions, who);
    OverlayMatchesApply(base, run.pending, layer.changes, AccountKey(who));
    PutChangesContent(m, before.state, layer.changes);
  }

  /** Over any run of calls and crashes, each report tells what its block did to the stores. */
  lemma ReportsTell(
    m: Machine, rules: Rules, listing: Pending -> Changes, blocks: Schedule, chain: seq<Durable>, run: seq<Outcome>, h: nat)
    requires Runs(m, rules, listing) && CrashFree(m, blocks, chain) && IsRun(m, blocks, chain[0], run)
    requires 0 < h <= |Reports(chain[0], run, |run|)|
    ensures h < |chain| && Tells(Reports(chain[0], run, |run|)[h - 1], chain[h - 1], chain[h])
  {
    CrashingRunsFollowTheChain(m, blocks, chain, run, |run|);
    var reports := Reports(chain[0], run, |run|);
    assert Faithful(m, blocks, chain, reports[h - 1], h - 1 + 1);
    ReportTells(m, rules, listing, blocks, chain, reports[h - 1], h);
  }
}
