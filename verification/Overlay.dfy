/** execution/src/state.rs and the transaction loop of execution/src/layer/mod.rs:
    a key-value state, the copy-on-write overlay that transactions run in, and nonces.

    `Noncer` and `Layer` implement the overlay with the same code; class `View` models both. */
module Overlay {
  import opened Prelude

  type PublicKey(==, !new)
  type GameKey(==, !new)
  type GameData(==, !new)
  type Instruction(==, !new)
  type Event(==, !new)
  type Seed(==, !new)

  // Game handlers own every key except the accounts, which only `prepare` writes.
  datatype Key = AccountKey(public: PublicKey) | StateKey(game: GameKey)

  datatype Value = AccountValue(nonce: u64) | CommitValue(height: u64, start: nat) | GameValue(data: GameData)

  datatype Status = Update(value: Value) | Delete

  datatype Transaction = Transaction(public: PublicKey, nonce: u64, instruction: Instruction)

  datatype Output = EventOutput(event: Event) | TransactionOutput(tx: Transaction) | CommitOutput(height: u64, start: nat)

  type StateMap = map<Key, Value>
  type Pending = map<Key, Status>
  type Changes = seq<(Key, Status)>

  /******* Applying changes *******/

  function ApplyOne(m: StateMap, key: Key, status: Status): StateMap {
    match status
    case Update(value) => m[key := value]
    case Delete => m - {key}
  }

  function ApplyAll(m: StateMap, changes: Changes): StateMap {
    if changes == [] then m
    else
      var last := |changes| - 1;
      ApplyOne(ApplyAll(m, changes[..last]), changes[last].0, changes[last].1)
  }

  /** The in-memory state used by tests and the simulator. */
  class Memory {
    var state: StateMap

    constructor ()
      ensures state == map[]
    {
      state := map[];
    }

    method Get(key: Key) returns (r: Option<Value>)
      ensures r == if key in state then Some(state[key]) else None
    {
      r := if key in state then Some(state[key]) else None;
    }

    method Insert(key: Key, value: Value)
      modifies this
      ensures state == old(state)[key := value]
    {
      state := state[key := value];
    }

    method Remove(key: Key)
      modifies this
      ensures state == old(state) - {key}
    {
      state := state - {key};
    }

    method Apply(changes: Changes)
      modifies this
      ensures state == ApplyAll(old(state), changes)
    {
      for i := 0 to |changes|
        invariant state == ApplyAll(old(state), changes[..i])
      {
        match changes[i].1 {
          case Update(value) => Insert(changes[i].0, value);
          case Delete => Remove(changes[i].0);
        }
        assert changes[..i + 1][..i] == changes[..i];
      }
      assert changes[..|changes|] == changes;
    }
  }

  /******* The overlay *******/

  /** What a reader of the overlay sees: pending entries first, the base state below. */
  function Read(base: StateMap, pending: Pending, key: Key): Option<Value> {
    if key in pending then
      match pending[key]
      case Update(value) => Some(value)
      case Delete => None
    else if key in base then Some(base[key])
    else None
  }

  /** `changes` lists every pending entry exactly once, in some order. */
  ghost predicate Lists(changes: Changes, pending: Pending) {
    && |changes| == |pending|
    && (forall i :: 0 <= i < |changes| ==> changes[i].0 in pending && changes[i].1 == pending[changes[i].0])
    && (forall i, j :: 0 <= i < j < |changes| ==> changes[i].0 != changes[j].0)
  }

  /** A key ends up with the status listed for it last. */
  lemma {:induction false} AppliedAt(base: StateMap, changes: Changes, k: nat)
    requires k < |changes| && forall j :: k < j < |changes| ==> changes[j].0 != changes[k].0
    ensures
      var (key, status) := changes[k];
      var m := ApplyAll(base, changes);
      if status.Delete? then key !in m else key in m && m[key] == status.value
  {
    var last := |changes| - 1;
    if k < last {
      AppliedAt(base, changes[..last], k);
      assert changes[..last][k] == changes[k];
    }
  }

  lemma {:induction false} UntouchedAt(base: StateMap, changes: Changes, key: Key)
    requires forall i :: 0 <= i < |changes| ==> changes[i].0 != key
    ensures
      var m := ApplyAll(base, changes);
      (key in m <==> key in base) && (key in base ==> m[key] == base[key])
  {
    if changes != [] {
      UntouchedAt(base, changes[..|changes| - 1], key);
    }
  }

  lemma ListsCovers(changes: Changes, pending: Pending, key: Key) returns (k: nat)
    requires Lists(changes, pending) && key in pending
    ensures k < |changes| && changes[k].0 == key
  {
    if forall i :: 0 <= i < |changes| ==> changes[i].0 != key {
      var listed := set i | 0 <= i < |changes| :: changes[i].0;
      DistinctCount(changes, |changes|);
      assert listed == set i: nat | i < |changes| :: changes[i].0;
      assert listed <= pending.Keys - {key};
      SubsetSize(listed, pending.Keys - {key});
      assert false;
    }
    k :| 0 <= k < |changes| && changes[k].0 == key;
  }

  lemma {:induction false} DistinctCount(changes: Changes, n: nat)
    requires n <= |changes|
    requires forall i, j :: 0 <= i < j < |changes| ==> changes[i].0 != changes[j].0
    ensures |set i: nat | i < n :: changes[i].0| == n
  {
    if n > 0 {
      DistinctCount(changes, n - 1);
      OneMoreKey(changes, n - 1);
    }
  }

  lemma OneMoreKey(changes: Changes, n: nat)
    requires n < |changes|
    ensures (set i: nat | i < n + 1 :: changes[i].0) == (set i: nat | i < n :: changes[i].0) + {changes[n].0}
  {
  }

  lemma SubsetSize<T>(a: set<T>, b: set<T>)
    requires a <= b
    ensures |a| <= |b|
  {
    assert b == a + (b - a);
  }

  /** Reading through the overlay equals reading the base after its pending entries are applied. */
  lemma OverlayMatchesApply(base: StateMap, pending: Pending, changes: Changes, key: Key)
    requires Lists(changes, pending)
    ensures Read(base, pending, key) == Read(ApplyAll(base, changes), map[], key)
  {
    if key in pending {
      var k := ListsCovers(changes, pending, key);
      AppliedAt(base, changes, k);
    } else {
      UntouchedAt(base, changes, key);
    }
  }

  /******* Nonces *******/

  datatype PrepareError = NonceMismatch(expected: u64, got: u64) | NonceOverflow

  /** A missing record, or one of another kind, stands for the default account. */
  function Nonce(base: StateMap, pending: Pending, who: PublicKey): u64 {
    match Read(base, pending, AccountKey(who))
    case Some(AccountValue(nonce)) => nonce
    case _ => 0
  }

  /** The overlay after a transaction is admitted. Integer overflow checks are on in every build
      profile, so the increment of the largest nonce aborts instead of wrapping. */
  function Prepared(base: StateMap, pending: Pending, tx: Transaction): Result<Pending, PrepareError> {
    var nonce := Nonce(base, pending, tx.public);
    if nonce != tx.nonce then Err(NonceMismatch(nonce, tx.nonce))
    else if nonce == U64_MAX then Err(NonceOverflow)
    else Ok(pending[AccountKey(tx.public) := Update(AccountValue(nonce + 1))])
  }

  class View {
    const base: StateMap
    var pending: Pending

    constructor (base: StateMap)
      ensures this.base == base && pending == map[]
    {
      this.base := base;
      pending := map[];
    }

    method Get(key: Key) returns (r: Option<Value>)
      ensures r == Read(base, pending, key)
    {
      if key in pending {
        match pending[key] {
          case Update(value) => r := Some(value);
          case Delete => r := None;
        }
      } else {
        r := if key in base then Some(base[key]) else None;
      }
    }

    method Insert(key: Key, value: Value)
      modifies this
      ensures pending == old(pending)[key := Update(value)]
      ensures Read(base, pending, key) == Some(value)
      ensures forall k :: k != key ==> Read(base, pending, k) == old(Read(base, pending, k))
    {
      pending := pending[key := Update(value)];
    }

    method Remove(key: Key)
      modifies this
      ensures pending == old(pending)[key := Delete]
      ensures Read(base, pending, key) == None
      ensures forall k :: k != key ==> Read(base, pending, k) == old(Read(base, pending, k))
    {
      pending := pending[key := Delete];
    }

    method Prepare(tx: Transaction) returns (r: Result<(), PrepareError>)
      modifies this
      ensures match Prepared(base, old(pending), tx)
              case Ok(after) => r == Ok(()) && pending == after
              case Err(e) => r == Err(e) && pending == old(pending)
      ensures r.Ok? ==> Nonce(base, pending, tx.public) == tx.nonce + 1
    {
      var stored := Get(AccountKey(tx.public));
      var nonce: u64 := 0;
      match stored {
        case Some(AccountValue(n)) => nonce := n;
        case _ =>
      }
      if nonce != tx.nonce {
        return Err(NonceMismatch(nonce, tx.nonce));
      }
      if nonce == U64_MAX {
        return Err(NonceOverflow);
      }
      Insert(AccountKey(tx.public), AccountValue(nonce + 1));
      r := Ok(());
    }

    /** The transaction loop. A nonce mismatch drops the transaction; any other error ends the block. */
    method Execute(rules: Rules, seed: Seed, txs: seq<Transaction>)
      returns (r: Result<(seq<Output>, map<PublicKey, u64>), ExecuteError>)
      modifies this
      ensures match Executed(rules, seed, base, old(pending), txs)
              case Ok(run) => r == Ok((run.outputs, run.nonces)) && pending == run.pending
              case Err(e) => r == Err(e)
    {
      var outputs: seq<Output>, nonces: map<PublicKey, u64> := [], map[];
      for i := 0 to |txs|
        invariant Executed(rules, seed, base, old(pending), txs[..i]) == Ok(Run(pending, outputs, nonces))
      {
        var tx := txs[i];
        assert txs[..i + 1][..i] == txs[..i] && txs[..i + 1][i] == tx;
        var admitted := Prepare(tx);
        match admitted {
          case Err(NonceMismatch(_, _)) => continue;
          case Err(NonceOverflow) =>
            FailedPrefix(rules, seed, base, old(pending), txs, i + 1);
            return Err(Aborted);
          case Ok(_) =>
        }
        nonces := nonces[tx.public := Min(tx.nonce + 1, U64_MAX)];
        var effects := rules.apply(base, pending, seed, tx);
        if effects.Err? {
          FailedPrefix(rules, seed, base, old(pending), txs, i + 1);
          return Err(Failed(effects.error));
        }
        pending := WithEffects(pending, effects.value.changes);
        outputs := outputs + EventOutputs(effects.value.events) + [TransactionOutput(tx)];
      }
      assert txs[..|txs|] == txs;
      r := Ok((outputs, nonces));
    }
  }

  /******* Executing a block *******/

  datatype Effects = Effects(events: seq<Event>, changes: map<GameKey, Status>)

  /** The game rules: a pure function of what they can read, the seed and the transaction.
      They may read the whole overlay but write game keys only. */
  datatype Rules = Rules(apply: (StateMap, Pending, Seed, Transaction) -> Result<Effects, nat>)

  datatype Run = Run(pending: Pending, outputs: seq<Output>, nonces: map<PublicKey, u64>)

  datatype ExecuteError = Failed(code: nat) | Aborted

  function WithEffects(pending: Pending, changes: map<GameKey, Status>): Pending {
    pending + map game | game in changes :: StateKey(game) := changes[game]
  }

  function EventOutputs(events: seq<Event>): seq<Output> {
    seq(|events|, i requires 0 <= i < |events| => EventOutput(events[i]))
  }

  function ExecutedOne(rules: Rules, seed: Seed, base: StateMap, run: Run, tx: Transaction): Result<Run, ExecuteError> {
    match Prepared(base, run.pending, tx)
    case Err(NonceMismatch(_, _)) => Ok(run)
    case Err(NonceOverflow) => Err(Aborted)
    case Ok(admitted) =>
      match rules.apply(base, admitted, seed, tx)
      case Err(code) => Err(Failed(code))
      case Ok(effects) =>
        Ok(Run(WithEffects(admitted, effects.changes),
               run.outputs + EventOutputs(effects.events) + [TransactionOutput(tx)],
               run.nonces[tx.public := Min(tx.nonce + 1, U64_MAX)]))
  }

  function Executed(rules: Rules, seed: Seed, base: StateMap, pending: Pending, txs: seq<Transaction>): Result<Run, ExecuteError> {
    if txs == [] then Ok(Run(pending, [], map[]))
    else
      match Executed(rules, seed, base, pending, txs[..|txs| - 1])
      case Err(e) => Err(e)
      case Ok(run) => ExecutedOne(rules, seed, base, run, txs[|txs| - 1])
  }

  lemma {:induction false} FailedPrefix(rules: Rules, seed: Seed, base: StateMap, pending: Pending, txs: seq<Transaction>, n: nat)
    requires n <= |txs|
    requires Executed(rules, seed, base, pending, txs[..n]).Err?
    ensures Executed(rules, seed, base, pending, txs) == Executed(rules, seed, base, pending, txs[..n])
    decreases |txs| - n
  {
    if n < |txs| {
      assert txs[..n + 1][..n] == txs[..n];
      FailedPrefix(rules, seed, base, pending, txs, n + 1);
    } else {
      assert txs[..n] == txs;
    }
  }

  /** The nonces under which `who` appears among executed transactions, in order. */
  function NoncesOf(outputs: seq<Output>, who: PublicKey): seq<u64> {
    if outputs == [] then []
    else
      var last := outputs[|outputs| - 1];
      NoncesOf(outputs[..|outputs| - 1], who)
      + if last.TransactionOutput? && last.tx.public == who then [last.tx.nonce] else []
  }

  ghost predicate Consecutive(nonces: seq<u64>, first: nat) {
    forall i :: 0 <= i < |nonces| ==> nonces[i] == first + i
  }

  lemma {:induction false} NoncesOfAppend(a: seq<Output>, b: seq<Output>, who: PublicKey)
    ensures NoncesOf(a + b, who) == NoncesOf(a, who) + NoncesOf(b, who)
  {
    if b == [] {
      assert a + b == a;
    } else {
      var n := |b| - 1;
      NoncesOfAppend(a, b[..n], who);
      assert (a + b)[..|a + b| - 1] == a + b[..n];
    }
  }

  lemma {:induction false} NoncesOfEvents(events: seq<Event>, who: PublicKey)
    ensures NoncesOf(EventOutputs(events), who) == []
  {
    if events != [] {
      var n := |events| - 1;
      NoncesOfEvents(events[..n], who);
      assert EventOutputs(events)[..n] == EventOutputs(events[..n]);
    }
  }

  /** One transaction extends the accepted nonces of its sender by the stored nonce, or changes nothing. */
  lemma OneMoreNonce(rules: Rules, seed: Seed, base: StateMap, run: Run, tx: Transaction, who: PublicKey, after: Run)
    requires ExecutedOne(rules, seed, base, run, tx) == Ok(after)
    ensures
      var nonce := Nonce(base, run.pending, who);
      var accepted := who == tx.public && nonce == tx.nonce;
      && NoncesOf(after.outputs, who) == NoncesOf(run.outputs, who) + (if accepted then [nonce] else [])
      && Nonce(base, after.pending, who) == (if accepted then nonce + 1 else nonce)
      && (accepted ==> who in after.nonces && after.nonces[who] == nonce + 1)
      && (!accepted ==> (who in after.nonces <==> who in run.nonces)
                        && (who in after.nonces ==> after.nonces[who] == run.nonces[who]))
  {
    var stored := Nonce(base, run.pending, tx.public);
    if stored == tx.nonce {
      var admitted, effects := AcceptedShape(rules, seed, base, run, tx, after);
      AdmittedNonce(base, run.pending, tx.public, tx.nonce + 1, who);
      EffectsKeepNonces(base, admitted, effects.changes, who);
      NoncesOfStep(run.outputs, effects.events, tx, who);
    }
  }

  lemma AcceptedShape(rules: Rules, seed: Seed, base: StateMap, run: Run, tx: Transaction, after: Run)
    returns (admitted: Pending, effects: Effects)
    requires ExecutedOne(rules, seed, base, run, tx) == Ok(after)
    requires Nonce(base, run.pending, tx.public) == tx.nonce
    ensures tx.nonce < U64_MAX
    ensures admitted == run.pending[AccountKey(tx.public) := Update(AccountValue(tx.nonce + 1))]
    ensures rules.apply(base, admitted, seed, tx) == Ok(effects)
    ensures after.pending == WithEffects(admitted, effects.changes)
    ensures after.outputs == run.outputs + EventOutputs(effects.events) + [TransactionOutput(tx)]
    ensures after.nonces == run.nonces[tx.public := tx.nonce + 1]
  {
    PreparedIs(base, run.pending, tx);
    admitted := Prepared(base, run.pending, tx).value;
    effects := rules.apply(base, admitted, seed, tx).value;
  }

  lemma PreparedIs(base: StateMap, pending: Pending, tx: Transaction)
    requires Nonce(base, pending, tx.public) == tx.nonce
    ensures Prepared(base, pending, tx) ==
              if tx.nonce == U64_MAX then Err(NonceOverflow)
              else Ok(pending[AccountKey(tx.public) := Update(AccountValue(tx.nonce + 1))])
  {
  }

  lemma AdmittedNonce(base: StateMap, pending: Pending, public: PublicKey, nonce: u64, who: PublicKey)
    ensures Nonce(base, pending[AccountKey(public) := Update(AccountValue(nonce))], who)
         == if who == public then nonce else Nonce(base, pending, who)
  {
  }

  lemma EffectsKeepNonces(base: StateMap, pending: Pending, changes: map<GameKey, Status>, who: PublicKey)
    ensures Nonce(base, WithEffects(pending, changes), who) == Nonce(base, pending, who)
  {
    assert AccountKey(who) !in map game | game in changes :: StateKey(game) := changes[game];
  }

  lemma NoncesOfStep(outputs: seq<Output>, events: seq<Event>, tx: Transaction, who: PublicKey)
    ensures NoncesOf(outputs + EventOutputs(events) + [TransactionOutput(tx)], who)
         == NoncesOf(outputs, who) + if tx.public == who then [tx.nonce] else []
  {
    var before := outputs + EventOutputs(events);
    NoncesOfEvents(events, who);
    NoncesOfAppend(outputs, EventOutputs(events), who);
    assert (before + [TransactionOutput(tx)])[..|before|] == before;
  }

  /** Over any transaction list the accepted nonces of an account are base, base+1, ... and the
      stored nonce ends just past the last of them. */
  lemma {:induction false} AcceptedNoncesAreConsecutive(
    rules: Rules, seed: Seed, base: StateMap, pending: Pending, txs: seq<Transaction>, who: PublicKey)
    requires Executed(rules, seed, base, pending, txs).Ok?
    ensures
      var run := Executed(rules, seed, base, pending, txs).value;
      var first := Nonce(base, pending, who);
      && Consecutive(NoncesOf(run.outputs, who), first)
      && Nonce(base, run.pending, who) == first + |NoncesOf(run.outputs, who)|
      && (who in run.nonces <==> NoncesOf(run.outputs, who) != [])
      && (who in run.nonces ==> run.nonces[who] == Nonce(base, run.pending, who))
  {
    if txs != [] {
      var n := |txs| - 1;
      AcceptedNoncesAreConsecutive(rules, seed, base, pending, txs[..n], who);
      OneMoreNonce(rules, seed, base, Executed(rules, seed, base, pending, txs[..n]).value, txs[n], who,
                   Executed(rules, seed, base, pending, txs).value);
    }
  }

  /** No (account, nonce) pair is accepted twice. */
  lemma NoNonceAcceptedTwice(
    rules: Rules, seed: Seed, base: StateMap, pending: Pending, txs: seq<Transaction>, i: nat, j: nat)
    requires Executed(rules, seed, base, pending, txs).Ok?
    requires
      var outputs := Executed(rules, seed, base, pending, txs).value.outputs;
      i < j < |outputs| && outputs[i].TransactionOutput? && outputs[j].TransactionOutput?
    ensures
      var outputs := Executed(rules, seed, base, pending, txs).value.outputs;
      outputs[i].tx.public == outputs[j].tx.public ==> outputs[i].tx.nonce < outputs[j].tx.nonce
  {
    var outputs := Executed(rules, seed, base, pending, txs).value.outputs;
    var who := outputs[j].tx.public;
    if outputs[i].tx.public == who {
      AcceptedNoncesAreConsecutive(rules, seed, base, pending, txs, who);
      PositionOf(outputs, who, i);
      PositionOf(outputs, who, j);
      PrefixCount(outputs, who, i, j);
    }
  }

  /** A transaction output sits in `NoncesOf` after the ones before it. */
  lemma {:induction false} PositionOf(outputs: seq<Output>, who: PublicKey, i: nat)
    requires i < |outputs| && outputs[i].TransactionOutput? && outputs[i].tx.public == who
    ensures
      var k := |NoncesOf(outputs[..i], who)|;
      k < |NoncesOf(outputs, who)| && NoncesOf(outputs, who)[k] == outputs[i].tx.nonce
  {
    var head, tail := outputs[..i + 1], outputs[i + 1..];
    assert outputs == head + tail;
    NoncesOfAppend(head, tail, who);
    assert head[..i] == outputs[..i];
  }

  lemma PrefixCount(outputs: seq<Output>, who: PublicKey, i: nat, j: nat)
    requires i < j <= |outputs| && outputs[i].TransactionOutput? && outputs[i].tx.public == who
    ensures |NoncesOf(outputs[..i], who)| < |NoncesOf(outputs[..j], who)|
  {
    PositionOf(outputs[..j], who, i);
    assert outputs[..j][..i] == outputs[..i];
  }
}
