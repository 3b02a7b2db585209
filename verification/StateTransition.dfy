/** execution/src/state_transition.rs: applying a block to two logs that commit one after the other.

    The events log is committed first and the state database second, so a crash may leave the
    events one block ahead. `Attempt` says in closed form what one call leaves durable, and class
    `Stores` performs the writes one at a time and is proved against it. Module `CrashRecovery` compares
    every crashing run with the crash-free chain. */
module StateTransition {
  import opened Prelude
  import opened Overlay

  /******* The two stores *******/

  /** An operation of the append-only events log. */
  datatype EventOp = Append(output: Output) | CommitOp(metadata: Option<Output>)

  /** The state database: contents, number of logged operations, metadata of the last commit. */
  datatype Adb = Adb(content: StateMap, opCount: nat, metadata: Option<Value>)

  datatype Durable = Durable(state: Adb, events: seq<EventOp>)

  datatype Block = Block(seed: Seed, transactions: seq<Transaction>)

  /** What a call depends on besides its arguments: block execution, a pure function of the committed
      contents and the block, and how many operations the database logs for a change and for raising
      its floor at a commit. */
  datatype Machine = Machine(
    layer: (StateMap, Block) -> Result<LayerResult, ExecuteError>,
    changeOps: (Adb, Key, Status) -> nat,
    floorOps: Adb -> nat)

  /** The machine runs blocks by the given game rules and lists pending changes in a fixed key order. */
  ghost predicate Runs(m: Machine, rules: Rules, listing: Pending -> Changes) {
    && (forall p {:trigger listing(p)} :: Lists(listing(p), p))
    && (forall content, block {:trigger m.layer(content, block)} ::
          m.layer(content, block) == RunLayer(rules, listing, content, block))
  }

  function StateHeight(state: Adb): u64 {
    match state.metadata
    case Some(CommitValue(height, _)) => height
    case _ => 0
  }

  /** The location of the last commit operation. */
  function LastCommit(events: seq<EventOp>): (loc: Option<nat>)
    ensures loc.Some? ==> loc.value < |events| && events[loc.value].CommitOp?
    ensures forall i :: (if loc.Some? then loc.value + 1 else 0) <= i < |events| ==> events[i].Append?
  {
    if events == [] then None
    else if events[|events| - 1].CommitOp? then Some(|events| - 1)
    else LastCommit(events[..|events| - 1])
  }

  function EventsMetadata(events: seq<EventOp>): Option<Output> {
    match LastCommit(events)
    case None => None
    case Some(loc) => events[loc].metadata
  }

  /** What reading one location of the events log returns. */
  function ValueAt(op: EventOp): Option<Output> {
    match op
    case Append(output) => Some(output)
    case CommitOp(metadata) => metadata
  }

  function PutChange(m: Machine, state: Adb, key: Key, status: Status): Adb {
    Adb(ApplyOne(state.content, key, status), state.opCount + m.changeOps(state, key, status), state.metadata)
  }

  function PutChanges(m: Machine, state: Adb, changes: Changes): Adb {
    if changes == [] then state
    else
      var n := |changes| - 1;
      PutChange(m, PutChanges(m, state, changes[..n]), changes[n].0, changes[n].1)
  }

  function Committed(m: Machine, state: Adb, metadata: Value): Adb {
    Adb(state.content, state.opCount + m.floorOps(state) + 1, Some(metadata))
  }

  function Appends(outputs: seq<Output>): seq<EventOp> {
    seq(|outputs|, i requires 0 <= i < |outputs| => Append(outputs[i]))
  }

  function CountTransactions(outputs: seq<Output>): nat {
    if outputs == [] then 0
    else CountTransactions(outputs[..|outputs| - 1]) + if outputs[|outputs| - 1].TransactionOutput? then 1 else 0
  }

  /******* Executing a block against the committed state *******/

  datatype LayerResult = LayerResult(outputs: seq<Output>, nonces: map<PublicKey, u64>, changes: Changes)

  function RunLayer(rules: Rules, listing: Pending -> Changes, content: StateMap, block: Block):
    Result<LayerResult, ExecuteError>
  {
    match Executed(rules, block.seed, content, map[], block.transactions)
    case Err(e) => Err(e)
    case Ok(run) => Ok(LayerResult(run.outputs, run.nonces, listing(run.pending)))
  }

  /** Roots commit to the whole committed contents, so the contents themselves stand for them. */
  datatype TransitionResult = TransitionResult(
    stateRoot: Adb, stateStart: nat, stateEnd: nat,
    eventsRoot: seq<EventOp>, eventsStart: nat, eventsEnd: nat,
    executedTransactions: nat, processedNonces: map<PublicKey, u64>)

  datatype Failure =
    | UnexpectedMetadata | NonSequential | Layer(error: ExecuteError) | OpCountMismatch | StartBeyondCommit
    | OutputCountMismatch | OutputMismatch | HeightMismatch | Interrupted

  function EventsAfter(events: seq<EventOp>, height: u64, outputs: seq<Output>): seq<EventOp> {
    events + Appends(outputs) + [CommitOp(Some(CommitOutput(height, |events|)))]
  }

  function StateAfter(m: Machine, state: Adb, height: u64, changes: Changes): Adb {
    Committed(m, PutChanges(m, state, changes), CommitValue(height, state.opCount))
  }

  function Report(before: Adb, after: Adb, eventsStart: nat, events: seq<EventOp>, layer: LayerResult): TransitionResult {
    TransitionResult(after, before.opCount, after.opCount, events, eventsStart, |events|,
                     CountTransactions(layer.outputs), layer.nonces)
  }

  /******* One call, with an optional crash *******/

  /** `Some(n)`: the process stops (or a write fails) after n storage writes. */
  type Fuse = Option<nat>

  predicate Survives(fuse: Fuse, writes: nat) {
    fuse.None? || writes <= fuse.value
  }

  function Spent(fuse: Fuse, writes: nat): Fuse
    requires Survives(fuse, writes)
  {
    if fuse.None? then None else Some(fuse.value - writes)
  }

  datatype Step = Step(after: Durable, result: Result<TransitionResult, Failure>)

  predicate SameOutputs(slice: seq<EventOp>, outputs: seq<Output>) {
    |slice| == |outputs| && forall i :: 0 <= i < |slice| ==> ValueAt(slice[i]) == Some(outputs[i])
  }

  function Attempt(m: Machine, d: Durable, height: u64, block: Block, fuse: Fuse): Step {
    var metadata := EventsMetadata(d.events);
    if metadata.Some? && !metadata.value.CommitOutput? then Step(d, Err(UnexpectedMetadata))
    else if height <= StateHeight(d.state) then
      Step(d, Ok(TransitionResult(d.state, d.state.opCount, d.state.opCount,
                                  d.events, |d.events|, |d.events|, 0, map[])))
    else if height != StateHeight(d.state) + 1 then Step(d, Err(NonSequential))
    else
      var eventsHeight := if metadata.Some? then metadata.value.height else 0;
      if eventsHeight == StateHeight(d.state) then FreshAttempt(m, d, height, block, fuse)
      else if eventsHeight == height then RecoveryAttempt(m, d, height, block, fuse, metadata.value.start)
      else Step(d, Err(HeightMismatch))
  }

  function FreshAttempt(m: Machine, d: Durable, height: u64, block: Block, fuse: Fuse): Step {
    match m.layer(d.state.content, block)
    case Err(e) => Step(d, Err(Layer(e)))
    case Ok(layer) =>
      var events := EventsAfter(d.events, height, layer.outputs);
      var state := StateAfter(m, d.state, height, layer.changes);
      if !Survives(fuse, |layer.outputs| + 1) then Step(d, Err(Interrupted))
      else if !Survives(fuse, |layer.outputs| + 1 + |layer.changes| + 1) then
        Step(Durable(d.state, events), Err(Interrupted))
      else Step(Durable(state, events), Ok(Report(d.state, state, |d.events|, events, layer)))
  }

  /** The comparison of a block executed anew with the events committed from `start` on. */
  function Checked(m: Machine, d: Durable, block: Block, start: nat): Result<LayerResult, Failure> {
    var loc := LastCommit(d.events);
    if loc.None? || |d.events| != loc.value + 1 then Err(OpCountMismatch)
    else if start > loc.value then Err(StartBeyondCommit)
    else
      match m.layer(d.state.content, block)
      case Err(e) => Err(Layer(e))
      case Ok(layer) =>
        if |layer.outputs| != loc.value - start then Err(OutputCountMismatch)
        else if !SameOutputs(d.events[start..loc.value], layer.outputs) then Err(OutputMismatch)
        else Ok(layer)
  }

  function RecoveryAttempt(m: Machine, d: Durable, height: u64, block: Block, fuse: Fuse, start: nat): Step {
    match Checked(m, d, block, start)
    case Err(e) => Step(d, Err(e))
    case Ok(layer) =>
      var state := StateAfter(m, d.state, height, layer.changes);
      if !Survives(fuse, |layer.changes| + 1) then Step(d, Err(Interrupted))
      else Step(Durable(state, d.events), Ok(Report(d.state, state, start, d.events, layer)))
  }

  /******* The stores, write by write *******/

  class Stores {
    const machine: Machine
    const rules: Rules
    const listing: Pending -> Changes
    var state: Adb
    var savedState: Adb
    var events: seq<EventOp>
    var savedEvents: nat
    var fuse: Fuse

    ghost predicate Valid()
      reads this
    {
      savedEvents <= |events| && Runs(machine, rules, listing)
    }

    /** What a reopened process would find. */
    ghost function Saved(): Durable
      requires Valid()
      reads this
    {
      Durable(savedState, events[..savedEvents])
    }

    ghost predicate Clean()
      reads this
    {
      state == savedState && savedEvents == |events|
    }

    constructor (machine: Machine, rules: Rules, listing: Pending -> Changes, d: Durable)
      requires Runs(machine, rules, listing)
      ensures Valid() && Clean() && Saved() == d && this.machine == machine
    {
      this.machine, this.rules, this.listing := machine, rules, listing;
      state, savedState := d.state, d.state;
      events, savedEvents := d.events, |d.events|;
      fuse := None;
    }

    /** Every storage write asks first; a refused write has no effect. */
    method Burn() returns (ok: bool)
      modifies this`fuse
      ensures ok == Survives(old(fuse), 1)
      ensures ok ==> fuse == if old(fuse).None? then None else Some(old(fuse).value - 1)
    {
      ok := fuse.None? || 0 < fuse.value;
      if ok && fuse.Some? {
        fuse := Some(fuse.value - 1);
      }
    }

    /** Reopening the stores drops what was not committed. */
    method Reopen()
      requires Valid()
      modifies this
      ensures Valid() && Clean() && Saved() == old(Saved())
    {
      state := savedState;
      events := events[..savedEvents];
    }

    method AppendEvents(outputs: seq<Output>) returns (ok: bool)
      requires Valid()
      modifies this`events, this`fuse
      ensures Valid() && Saved() == old(Saved())
      ensures ok == Survives(old(fuse), |outputs|)
      ensures ok ==> events == old(events) + Appends(outputs)
      ensures ok ==> fuse == if old(fuse).None? then None else Some(old(fuse).value - |outputs|)
    {
      for i := 0 to |outputs|
        invariant Survives(old(fuse), i)
        invariant fuse == if old(fuse).None? then None else Some(old(fuse).value - i)
        invariant events == old(events) + Appends(outputs[..i])
      {
        var go := Burn();
        if !go {
          return false;
        }
        events := events + [Append(outputs[i])];
        assert Appends(outputs[..i + 1]) == Appends(outputs[..i]) + [Append(outputs[i])];
      }
      assert outputs[..|outputs|] == outputs;
      ok := true;
    }

    method CommitEvents(metadata: Output) returns (ok: bool)
      requires Valid()
      modifies this`events, this`savedEvents, this`fuse
      ensures Valid()
      ensures ok == Survives(old(fuse), 1)
      ensures ok ==> events == old(events) + [CommitOp(Some(metadata))] && savedEvents == |events|
      ensures ok ==> fuse == if old(fuse).None? then None else Some(old(fuse).value - 1)
      ensures !ok ==> Saved() == old(Saved())
    {
      ok := Burn();
      if ok {
        events := events + [CommitOp(Some(metadata))];
        savedEvents := |events|;
      }
    }

    method ApplyState(changes: Changes) returns (ok: bool)
      modifies this`state, this`fuse
      ensures ok == Survives(old(fuse), |changes|)
      ensures ok ==> state == PutChanges(machine, old(state), changes)
      ensures ok ==> fuse == if old(fuse).None? then None else Some(old(fuse).value - |changes|)
    {
      for i := 0 to |changes|
        invariant Survives(old(fuse), i)
        invariant fuse == if old(fuse).None? then None else Some(old(fuse).value - i)
        invariant state == PutChanges(machine, old(state), changes[..i])
      {
        var go := Burn();
        if !go {
          return false;
        }
        state := PutChange(machine, state, changes[i].0, changes[i].1);
        assert changes[..i + 1][..i] == changes[..i];
      }
      assert changes[..|changes|] == changes;
      ok := true;
    }

    method CommitState(metadata: Value) returns (ok: bool)
      modifies this`state, this`savedState, this`fuse
      ensures ok == Survives(old(fuse), 1)
      ensures ok ==> state == Committed(machine, old(state), metadata) && savedState == state
      ensures !ok ==> savedState == old(savedState)
    {
      ok := Burn();
      if ok {
        state := Committed(machine, state, metadata);
        savedState := state;
      }
    }

    method RunBlock(block: Block) returns (r: Result<LayerResult, ExecuteError>)
      requires Valid()
      ensures r == machine.layer(state.content, block)
    {
      var view := new View(state.content);
      var run := view.Execute(rules, block.seed, block.transactions);
      r := match run
           case Err(e) => Err(e)
           case Ok((outputs, nonces)) => Ok(LayerResult(outputs, nonces, listing(view.pending)));
    }

    /** Whether the events already committed from `start` on are exactly `outputs`. */
    method Matches(start: nat, outputs: seq<Output>) returns (same: bool)
      requires start + |outputs| <= |events|
      ensures same == SameOutputs(events[start..start + |outputs|], outputs)
    {
      for i := 0 to |outputs|
        invariant forall j :: 0 <= j < i ==> ValueAt(events[start + j]) == Some(outputs[j])
      {
        if ValueAt(events[start + i]) != Some(outputs[i]) {
          assert events[start..start + |outputs|][i] == events[start + i];
          return false;
        }
      }
      same := true;
    }

    /** The next block in normal order: execute it, append its outputs and commit them. */
    method LogBlock(height: u64, block: Block) returns (r: Result<LayerResult, Failure>)
      requires Valid() && Clean()
      modifies this
      ensures Valid() && Clean() && state == old(state)
      ensures match machine.layer(old(state).content, block)
              case Err(e) => r == Err(Layer(e)) && events == old(events)
              case Ok(layer) =>
                if Survives(old(fuse), |layer.outputs| + 1) then
                  r == Ok(layer) && events == EventsAfter(old(events), height, layer.outputs)
                  && fuse == Spent(old(fuse), |layer.outputs| + 1)
                else r == Err(Interrupted) && events == old(events)
    {
      var start := |events|;
      assert Saved() == Durable(state, events);
      var run := RunBlock(block);
      if run.Err? {
        return Err(Layer(run.error));
      }
      var layer := run.value;
      var appended := AppendEvents(layer.outputs);
      if !appended {
        Reopen();
        return Err(Interrupted);
      }
      var committed := CommitEvents(CommitOutput(height, start));
      if !committed {
        Reopen();
        return Err(Interrupted);
      }
      assert events[..savedEvents] == events;
      r := Ok(layer);
    }

    /** A block whose events are already committed from `start` on: execute it and compare. */
    method CheckBlock(start: nat, block: Block) returns (r: Result<LayerResult, Failure>)
      requires Valid()
      ensures r == Checked(machine, Durable(state, events), block, start)
    {
      var commitLoc := LastCommit(events);
      if commitLoc.None? || |events| != commitLoc.value + 1 {
        return Err(OpCountMismatch);
      }
      if start > commitLoc.value {
        return Err(StartBeyondCommit);
      }
      var run := RunBlock(block);
      if run.Err? {
        return Err(Layer(run.error));
      }
      if |run.value.outputs| != commitLoc.value - start {
        return Err(OutputCountMismatch);
      }
      var same := Matches(start, run.value.outputs);
      r := if same then Ok(run.value) else Err(OutputMismatch);
    }

    /** Apply a block's changes to the state and commit them. */
    method FinishBlock(height: u64, changes: Changes) returns (ok: bool)
      requires Valid() && Clean()
      modifies this
      ensures Valid() && Clean() && events == old(events)
      ensures ok == Survives(old(fuse), |changes| + 1)
      ensures state == if ok then StateAfter(machine, old(state), height, changes) else old(state)
    {
      var start := state.opCount;
      assert events[..savedEvents] == events;
      ok := ApplyState(changes);
      if ok {
        ok := CommitState(CommitValue(height, start));
      }
      if !ok {
        Reopen();
      }
    }

    /** `execute_state_transition`; a process that stops is reopened before the next call. */
    method Transition(height: u64, block: Block, fuse: Fuse) returns (r: Result<TransitionResult, Failure>)
      requires Valid() && Clean()
      modifies this
      ensures Valid() && Clean()
      ensures Step(Saved(), r) == Attempt(machine, old(Saved()), height, block, fuse)
    {
      this.fuse := fuse;
      assert old(Saved()) == Durable(state, events);
      assert Saved() == Durable(state, events);
      var stateHeight := StateHeight(state);
      var metadata := EventsMetadata(events);
      if metadata.Some? && !metadata.value.CommitOutput? {
        return Err(UnexpectedMetadata);
      }
      var eventsHeight := if metadata.Some? then metadata.value.height else 0;
      if height <= stateHeight {
        return Ok(TransitionResult(state, state.opCount, state.opCount, events, |events|, |events|, 0, map[]));
      }
      var expectedNextHeight := Min(stateHeight + 1, U64_MAX);
      if height != expectedNextHeight {
        return Err(NonSequential);
      }
      if eventsHeight != stateHeight && eventsHeight != height {
        return Err(HeightMismatch);
      }
      var stateStart := state.opCount;
      var eventsStart := if eventsHeight == stateHeight then |events| else metadata.value.start;
      var run;
      if eventsHeight == stateHeight {
        run := LogBlock(height, block);
      } else {
        run := CheckBlock(eventsStart, block);
      }
      assert Saved() == Durable(state, events);
      if run.Err? {
        return Err(run.error);
      }
      var done := FinishBlock(height, run.value.changes);
      assert Saved() == Durable(state, events);
      if !done {
        return Err(Interrupted);
      }
      r := Ok(TransitionResult(state, stateStart, state.opCount, events, eventsStart, |events|,
                               CountTransactions(run.value.outputs), run.value.nonces));
    }
  }
}
