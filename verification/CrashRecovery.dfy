/** What `execute_state_transition` keeps over whole runs of calls and crashes
    (execution/src/state_transition.rs:1-4 and execution/src/lib.rs:11-13 promise convergence). */
module CrashRecovery {
  import opened Prelude
  import opened Overlay
  import opened StateTransition

  /******* The crash-free chain *******/

  /** The block agreed on for each height. */
  type Schedule = nat -> Block

  /** The stores after the next block when nothing crashes, with no mention of two commits. */
  function Extend(m: Machine, d: Durable, height: u64, layer: LayerResult): Durable {
    Durable(StateAfter(m, d.state, height, layer.changes), EventsAfter(d.events, height, layer.outputs))
  }

  ghost predicate Link(m: Machine, blocks: Schedule, chain: seq<Durable>, h: nat)
    requires 0 < h < |chain|
  {
    var layer := m.layer(chain[h - 1].state.content, blocks(h));
    h <= U64_MAX && layer.Ok? && chain[h] == Extend(m, chain[h - 1], h, layer.value)
  }

  /** `chain[h]` is what the stores hold after h blocks in a run without crashes, up to the last block
      the game rules accept. */
  ghost predicate CrashFree(m: Machine, blocks: Schedule, chain: seq<Durable>) {
    && 0 < |chain| <= U64_MAX + 1
    && StateHeight(chain[0].state) == 0 && EventsMetadata(chain[0].events) == None
    && (forall h {:trigger Link(m, blocks, chain, h)} :: 0 < h < |chain| ==> Link(m, blocks, chain, h))
    && (|chain| == U64_MAX + 1 || m.layer(chain[|chain| - 1].state.content, blocks(|chain|)).Err?)
  }

  /** A state is at the height its last commit names, and at zero when none does; the log's metadata are those of its
      last commit, if there is one. */
  lemma HeightsAre(state: Adb, events: seq<EventOp>)
    ensures match state.metadata
            case Some(CommitValue(height, _)) => StateHeight(state) == height
            case Some(_) => StateHeight(state) == 0
            case None => StateHeight(state) == 0
    ensures (forall i :: 0 <= i < |events| ==> events[i].Append?) ==> EventsMetadata(events) == None
    ensures forall i :: 0 <= i < |events| && events[i].CommitOp? && (forall j :: i < j < |events| ==> events[j].Append?) ==>
              EventsMetadata(events) == events[i].metadata
    ensures forall i :: 0 <= i < |events| ==>
              ValueAt(events[i]) == if events[i].Append? then Some(events[i].output) else events[i].metadata
  {
  }

  /** Every genesis and schedule has a crash-free chain. */
  lemma ChainExists(m: Machine, blocks: Schedule, genesis: Durable) returns (chain: seq<Durable>)
    requires StateHeight(genesis.state) == 0 && EventsMetadata(genesis.events) == None
    ensures CrashFree(m, blocks, chain) && chain[0] == genesis
  {
    chain := [genesis];
    while |chain| <= U64_MAX && m.layer(chain[|chain| - 1].state.content, blocks(|chain|)).Ok?
      invariant 0 < |chain| <= U64_MAX + 1 && chain[0] == genesis
      invariant forall h {:trigger Link(m, blocks, chain, h)} :: 0 < h < |chain| ==> Link(m, blocks, chain, h)
      decreases U64_MAX + 1 - |chain|
    {
      var layer := m.layer(chain[|chain| - 1].state.content, blocks(|chain|)).value;
      var longer := chain + [Extend(m, chain[|chain| - 1], |chain|, layer)];
      forall h | 0 < h < |longer|
        ensures Link(m, blocks, longer, h)
      {
        assert h < |chain| ==> Link(m, blocks, chain, h);
      }
      chain := longer;
    }
  }

  /** What the crash-free run reports for the block at height h. */
  ghost function ReportAt(m: Machine, blocks: Schedule, chain: seq<Durable>, h: nat): TransitionResult
    requires 0 < h < |chain| && Link(m, blocks, chain, h)
  {
    Report(chain[h - 1].state, chain[h].state, |chain[h - 1].events|, chain[h].events,
           m.layer(chain[h - 1].state.content, blocks(h)).value)
  }

  lemma ChainHeights(m: Machine, blocks: Schedule, chain: seq<Durable>, h: nat)
    requires CrashFree(m, blocks, chain) && h < |chain|
    ensures StateHeight(chain[h].state) == h
    ensures h > 0 ==>
              && LastCommit(chain[h].events) == Some(|chain[h].events| - 1)
              && EventsMetadata(chain[h].events) == Some(CommitOutput(h, |chain[h - 1].events|))
  {
    assert h > 0 ==> Link(m, blocks, chain, h);
  }

  /******* One call *******/

  /** The state is the crash-free one after h blocks; the events are too, or one block ahead. */
  ghost predicate At(chain: seq<Durable>, d: Durable, h: nat) {
    && h < |chain| && d.state == chain[h].state
    && (d.events == chain[h].events || (h + 1 < |chain| && d.events == chain[h + 1].events))
  }

  /** A call from h blocks either completes block h+1 with the crash-free stores and report, or leaves
      the state where it was and says why: the height was not the next one, the process stopped, or
      the rules reject the block. */
  ghost predicate StaysOnChain(
    m: Machine, blocks: Schedule, chain: seq<Durable>, d: Durable, h: nat, call: Call, step: Step)
    requires CrashFree(m, blocks, chain)
  {
    if call.height == h + 1 && step.result.Ok? then
      && h + 1 < |chain| && Link(m, blocks, chain, h + 1)
      && step == Step(chain[h + 1], Ok(ReportAt(m, blocks, chain, h + 1)))
    else
      && At(chain, step.after, h)
      && (call.height <= h ==> step == Step(d, Ok(NothingNew(d))))
      && (call.height == h + 1 && h + 1 < |chain| ==> step.result == Err(Interrupted) && call.fuse.Some?)
      && (call.height == h + 1 && h + 1 == |chain| ==> step.after == d && step.result.error.Layer?)
      && (call.height > h + 1 ==> step == Step(d, Err(NonSequential)))
  }

  /** The report for a height already done: both logs as they are, no operation and no transaction. */
  function NothingNew(d: Durable): TransitionResult {
    var ops, n := d.state.opCount, |d.events|;
    TransitionResult(d.state, ops, ops, d.events, n, n, 0, map[])
  }

  /** A call made by some incarnation of the process, and where that incarnation stopped, if it did. */
  datatype Call = Call(height: u64, fuse: Fuse)

  function Made(m: Machine, blocks: Schedule, d: Durable, call: Call): Step {
    Attempt(m, d, call.height, blocks(call.height), call.fuse)
  }

  lemma CallStaysOnChain(m: Machine, blocks: Schedule, chain: seq<Durable>, d: Durable, h: nat, call: Call)
    requires CrashFree(m, blocks, chain) && At(chain, d, h)
    ensures StaysOnChain(m, blocks, chain, d, h, call, Made(m, blocks, d, call))
  {
    ChainHeights(m, blocks, chain, h);
    if d.events != chain[h].events {
      ChainHeights(m, blocks, chain, h + 1);
    }
    if call.height != h + 1 {
      OtherHeights(m, d, h, call.height, blocks(call.height), call.fuse);
    } else {
      NextHeightStaysOnChain(m, blocks, chain, d, h, call);
    }
  }

  lemma NextHeightStaysOnChain(m: Machine, blocks: Schedule, chain: seq<Durable>, d: Durable, h: nat, call: Call)
    requires CrashFree(m, blocks, chain) && At(chain, d, h) && call.height == h + 1
    ensures StaysOnChain(m, blocks, chain, d, h, call, Made(m, blocks, d, call))
  {
    ChainHeights(m, blocks, chain, h);
    if h + 1 < |chain| {
      assert Link(m, blocks, chain, h + 1);
    }
    if d.events == chain[h].events {
      FreshStep(m, d, call.height, blocks(call.height), call.fuse);
    } else {
      RecoveryMatches(m, chain[h], d, call.height, blocks(call.height), call.fuse);
    }
  }

  lemma OtherHeights(m: Machine, d: Durable, h: nat, height: u64, block: Block, fuse: Fuse)
    requires StateHeight(d.state) == h && height != h + 1
    requires EventsMetadata(d.events).Some? ==> EventsMetadata(d.events).value.CommitOutput?
    ensures
      var step := Attempt(m, d, height, block, fuse);
      && step.after == d
      && (height <= h ==> step.result == Ok(NothingNew(d)))
      && (height > h ==> step.result == Err(NonSequential))
  {
  }

  lemma FreshStep(m: Machine, d: Durable, height: u64, block: Block, fuse: Fuse)
    requires StateHeight(d.state) + 1 == height
    requires match EventsMetadata(d.events)
             case None => height == 1
             case Some(metadata) => metadata.CommitOutput? && metadata.height + 1 == height
    ensures Attempt(m, d, height, block, fuse) == FreshAttempt(m, d, height, block, fuse)
  {
  }

  /** Re-executing a half-committed block finds its own outputs in the log. */
  lemma RecoveryMatches(m: Machine, here: Durable, d: Durable, height: u64, block: Block, fuse: Fuse)
    requires StateHeight(here.state) + 1 == height && m.layer(here.state.content, block).Ok?
    requires d == Durable(here.state, EventsAfter(here.events, height, m.layer(here.state.content, block).value.outputs))
    ensures
      var layer := m.layer(here.state.content, block).value;
      var state := StateAfter(m, d.state, height, layer.changes);
      Attempt(m, d, height, block, fuse)
      == if Survives(fuse, |layer.changes| + 1)
         then Step(Durable(state, d.events), Ok(Report(d.state, state, |here.events|, d.events, layer)))
         else Step(d, Err(Interrupted))
  {
    var outputs := m.layer(here.state.content, block).value.outputs;
    var loc := |here.events| + |outputs|;
    assert LastCommit(d.events) == Some(loc);
    assert d.events[|here.events|..loc] == Appends(outputs);
    assert Attempt(m, d, height, block, fuse) == RecoveryAttempt(m, d, height, block, fuse, |here.events|);
  }

  /******* Runs *******/

  /** A run: the calls made, each with what came of it. */
  datatype Outcome = Outcome(call: Call, step: Step)

  function Before(start: Durable, run: seq<Outcome>, n: nat): Durable
    requires n <= |run|
  {
    if n == 0 then start else run[n - 1].step.after
  }

  ghost predicate Genuine(m: Machine, blocks: Schedule, start: Durable, run: seq<Outcome>, i: nat)
    requires i < |run|
  {
    run[i].step == Made(m, blocks, Before(start, run, i), run[i].call)
  }

  ghost predicate IsRun(m: Machine, blocks: Schedule, start: Durable, run: seq<Outcome>) {
    forall i {:trigger Genuine(m, blocks, start, run, i)} :: 0 <= i < |run| ==> Genuine(m, blocks, start, run, i)
  }

  /** The reports of the first n calls that completed a block, in order. */
  function Reports(start: Durable, run: seq<Outcome>, n: nat): seq<TransitionResult>
    requires n <= |run|
  {
    if n == 0 then []
    else
      var last := run[n - 1];
      Reports(start, run, n - 1)
      + if last.step.result.Ok? && last.call.height > StateHeight(Before(start, run, n - 1).state)
        then [last.step.result.value] else []
  }

  ghost predicate Faithful(m: Machine, blocks: Schedule, chain: seq<Durable>, report: TransitionResult, h: nat) {
    0 < h < |chain| && Link(m, blocks, chain, h) && report == ReportAt(m, blocks, chain, h)
  }

  /** The i-th report is the crash-free one for height i + 1. */
  ghost predicate AllFaithful(m: Machine, blocks: Schedule, chain: seq<Durable>, reports: seq<TransitionResult>) {
    forall i {:trigger reports[i]} :: 0 <= i < |reports| ==> Faithful(m, blocks, chain, reports[i], i + 1)
  }

  /** After any calls and crashes the stores equal the crash-free ones, except that the events may
      already hold the next block; and the blocks reported as completed are exactly 1, 2, ..., each
      with the crash-free report, however many attempts each of them took. */
  lemma {:induction false} CrashingRunsFollowTheChain(
    m: Machine, blocks: Schedule, chain: seq<Durable>, run: seq<Outcome>, n: nat)
    requires CrashFree(m, blocks, chain) && IsRun(m, blocks, chain[0], run) && n <= |run|
    ensures
      var d := Before(chain[0], run, n);
      var reports := Reports(chain[0], run, n);
      && At(chain, d, |reports|)
      && StateHeight(d.state) == |reports|
      && AllFaithful(m, blocks, chain, reports)
  {
    if n > 0 {
      CrashingRunsFollowTheChain(m, blocks, chain, run, n - 1);
      assert Genuine(m, blocks, chain[0], run, n - 1);
      ReportsStep(chain[0], run, n);
      OneMoreOutcome(m, blocks, chain, Before(chain[0], run, n - 1), Reports(chain[0], run, n - 1), run[n - 1]);
    }
  }

  lemma OneMoreOutcome(
    m: Machine, blocks: Schedule, chain: seq<Durable>, d: Durable, reports: seq<TransitionResult>, o: Outcome)
    requires CrashFree(m, blocks, chain) && At(chain, d, |reports|) && o.step == Made(m, blocks, d, o.call)
    requires AllFaithful(m, blocks, chain, reports)
    ensures
      var after := if o.step.result.Ok? && o.call.height > StateHeight(d.state) then reports + [o.step.result.value] else reports;
      && At(chain, o.step.after, |after|)
      && StateHeight(o.step.after.state) == |after|
      && AllFaithful(m, blocks, chain, after)
  {
    OneMoreCall(m, blocks, chain, d, |reports|, o);
    if o.step.result.Ok? && o.call.height > |reports| {
      OneMoreReport(m, blocks, chain, reports, o.step.result.value);
    }
  }

  lemma ReportsStep(start: Durable, run: seq<Outcome>, n: nat)
    requires 0 < n <= |run|
    ensures
      var last := run[n - 1];
      Reports(start, run, n) ==
        if last.step.result.Ok? && last.call.height > StateHeight(Before(start, run, n - 1).state)
        then Reports(start, run, n - 1) + [last.step.result.value] else Reports(start, run, n - 1)
  {
  }

  lemma OneMoreReport(m: Machine, blocks: Schedule, chain: seq<Durable>, reports: seq<TransitionResult>, report: TransitionResult)
    requires AllFaithful(m, blocks, chain, reports) && Faithful(m, blocks, chain, report, |reports| + 1)
    ensures AllFaithful(m, blocks, chain, reports + [report])
  {
  }

  lemma OneMoreCall(m: Machine, blocks: Schedule, chain: seq<Durable>, d: Durable, h: nat, o: Outcome)
    requires CrashFree(m, blocks, chain) && At(chain, d, h) && o.step == Made(m, blocks, d, o.call)
    ensures StateHeight(d.state) == h
    ensures
      if o.step.result.Ok? && o.call.height > h then
        && At(chain, o.step.after, h + 1) && StateHeight(o.step.after.state) == h + 1
        && Faithful(m, blocks, chain, o.step.result.value, h + 1)
      else
        At(chain, o.step.after, h) && StateHeight(o.step.after.state) == h
  {
    CallStaysOnChain(m, blocks, chain, d, h, o.call);
    ChainHeights(m, blocks, chain, h);
    if o.step.result.Ok? && o.call.height > h {
      ChainHeights(m, blocks, chain, h + 1);
    }
  }

  /** After any run the next call stays on the chain, whatever it asks for and wherever it stops. So
      the mismatch errors cannot occur, and one uninterrupted call for the next height completes that
      block exactly as the crash-free run does. */
  lemma EveryCallStaysOnChain(m: Machine, blocks: Schedule, chain: seq<Durable>, run: seq<Outcome>, call: Call)
    requires CrashFree(m, blocks, chain) && IsRun(m, blocks, chain[0], run)
    ensures
      var d := Before(chain[0], run, |run|);
      var h := StateHeight(d.state);
      var step := Made(m, blocks, d, call);
      && StaysOnChain(m, blocks, chain, d, h, call, step)
      && (call.height == h + 1 && call.fuse == None && h + 1 < |chain| ==>
            step.result.Ok? && step.after == chain[h + 1] && Faithful(m, blocks, chain, step.result.value, h + 1))
  {
    CrashingRunsFollowTheChain(m, blocks, chain, run, |run|);
    var d := Before(chain[0], run, |run|);
    CallStaysOnChain(m, blocks, chain, d, StateHeight(d.state), call);
  }

  /** The report covers exactly what block h added to both logs. */
  ghost predicate Spans(report: TransitionResult, chain: seq<Durable>, h: nat)
    requires 0 < h < |chain|
  {
    && chain[h - 1].state.opCount == report.stateStart < report.stateEnd == chain[h].state.opCount
    && |chain[h - 1].events| == report.eventsStart < report.eventsEnd == |chain[h].events|
    && report.eventsRoot == chain[h].events
  }

  lemma ReportSpans(m: Machine, blocks: Schedule, chain: seq<Durable>, report: TransitionResult, h: nat)
    requires Faithful(m, blocks, chain, report, h)
    ensures Spans(report, chain, h)
  {
    ChangesOnlyGrow(m, chain[h - 1].state, m.layer(chain[h - 1].state.content, blocks(h)).value.changes);
  }

  /** Each report starts where the one before ended in both logs, the first at the genesis size; the last
      ends at the size of the state log; and no report's events have left the log. */
  ghost predicate Tiled(reports: seq<TransitionResult>, genesis: Durable, d: Durable) {
    && (reports != [] ==>
          && reports[0].stateStart == genesis.state.opCount
          && reports[0].eventsStart == |genesis.events|
          && reports[|reports| - 1].stateEnd == d.state.opCount)
    && (forall i :: 0 < i < |reports| ==>
          && reports[i].stateStart == reports[i - 1].stateEnd
          && reports[i].eventsStart == reports[i - 1].eventsEnd)
    && (forall i :: 0 <= i < |reports| ==>
          && reports[i].stateStart < reports[i].stateEnd
          && reports[i].eventsStart < reports[i].eventsEnd
          && reports[i].eventsRoot <= d.events)
  }

  lemma SpansTile(reports: seq<TransitionResult>, chain: seq<Durable>, d: Durable)
    requires |reports| < |chain| && d.state == chain[|reports|].state
    requires forall i {:trigger reports[i]} :: 0 <= i < |reports| ==>
               Spans(reports[i], chain, i + 1) && reports[i].eventsRoot <= d.events
    ensures Tiled(reports, chain[0], d)
  {
  }

  lemma ReportIsInLog(m: Machine, blocks: Schedule, chain: seq<Durable>, report: TransitionResult, h: nat, d: Durable, n: nat)
    requires CrashFree(m, blocks, chain) && Faithful(m, blocks, chain, report, h)
    requires h <= n && At(chain, d, n)
    ensures Spans(report, chain, h) && report.eventsRoot <= d.events
  {
    ReportSpans(m, blocks, chain, report, h);
    EventsOnlyGrow(m, blocks, chain, h, if d.events == chain[n].events then n else n + 1);
  }

  /** The [start, end) ranges reported for successive heights tile both logs, with no gap or overlap,
      over any run of calls and crashes. */
  lemma RangesTileBothLogs(m: Machine, blocks: Schedule, chain: seq<Durable>, run: seq<Outcome>)
    requires CrashFree(m, blocks, chain) && IsRun(m, blocks, chain[0], run)
    ensures Tiled(Reports(chain[0], run, |run|), chain[0], Before(chain[0], run, |run|))
  {
    CrashingRunsFollowTheChain(m, blocks, chain, run, |run|);
    ReportsTile(m, blocks, chain, Reports(chain[0], run, |run|), Before(chain[0], run, |run|));
  }

  lemma ReportsTile(m: Machine, blocks: Schedule, chain: seq<Durable>, reports: seq<TransitionResult>, d: Durable)
    requires CrashFree(m, blocks, chain) && AllFaithful(m, blocks, chain, reports) && At(chain, d, |reports|)
    ensures Tiled(reports, chain[0], d)
  {
    forall i | 0 <= i < |reports|
      ensures Spans(reports[i], chain, i + 1) && reports[i].eventsRoot <= d.events
    {
      ReportIsInLog(m, blocks, chain, reports[i], i + 1, d, |reports|);
    }
    SpansTile(reports, chain, d);
  }

  lemma {:induction false} ChangesOnlyGrow(m: Machine, state: Adb, changes: Changes)
    ensures state.opCount <= PutChanges(m, state, changes).opCount
  {
    if changes != [] {
      ChangesOnlyGrow(m, state, changes[..|changes| - 1]);
    }
  }

  lemma {:induction false} EventsOnlyGrow(m: Machine, blocks: Schedule, chain: seq<Durable>, a: nat, b: nat)
    requires CrashFree(m, blocks, chain) && a <= b < |chain|
    ensures chain[a].events <= chain[b].events
  {
    if a < b {
      EventsOnlyGrow(m, blocks, chain, a, b - 1);
      assert Link(m, blocks, chain, b);
    }
  }

  /******* Recovery on arbitrary stores *******/

  /** What reading the log returns, location by location. */
  function Readings(events: seq<EventOp>): seq<Option<Output>> {
    seq(|events|, i requires 0 <= i < |events| => ValueAt(events[i]))
  }

  /** The log ends with a commit and reads as if the block's outputs, executed anew, had just been appended
      and committed at `start`; and the process lives through the writes to the state. */
  ghost predicate Recoverable(m: Machine, d: Durable, height: u64, block: Block, fuse: Fuse, start: nat) {
    var rerun := m.layer(d.state.content, block);
    && d.events != [] && d.events[|d.events| - 1].CommitOp? && start <= |d.events|
    && rerun.Ok? && Survives(fuse, |rerun.value.changes| + 1)
    && Readings(d.events) == Readings(EventsAfter(d.events[..start], height, rerun.value.outputs))
  }

  lemma {:induction false} ReadingsAgree(events: seq<EventOp>, start: nat, height: u64, outputs: seq<Output>)
    requires LastCommit(events) == Some(|events| - 1) && EventsMetadata(events) == Some(CommitOutput(height, start))
    requires start <= |events|
    ensures Readings(events) == Readings(EventsAfter(events[..start], height, outputs))
            <==> start < |events| && SameOutputs(events[start..|events| - 1], outputs)
  {
    var anew, n := EventsAfter(events[..start], height, outputs), |events| - 1;
    if Readings(events) == Readings(anew) {
      assert |Readings(events)| == |Readings(anew)|;
      forall i | 0 <= i < |outputs|
        ensures ValueAt(events[start..n][i]) == Some(outputs[i])
      {
        assert Readings(events)[start + i] == Readings(anew)[start + i];
      }
    }
    if start < |events| && SameOutputs(events[start..n], outputs) {
      forall i | 0 <= i <= n
        ensures ValueAt(events[i]) == ValueAt(anew[i])
      {
        if start <= i < n {
          assert events[start..n][i - start] == events[i];
        }
      }
    }
  }

  lemma EndsWithCommit(events: seq<EventOp>)
    ensures LastCommit(events) == Some(|events| - 1) <==> events != [] && events[|events| - 1].CommitOp?
  {
  }

  /** Whatever the stores hold, when the events log names the next block as its last committed one, the
      call succeeds exactly when the block is recoverable, then only the state changes; in every other
      case no store does. */
  lemma RecoverySucceedsIff(m: Machine, d: Durable, height: u64, block: Block, fuse: Fuse, start: nat)
    requires EventsMetadata(d.events) == Some(CommitOutput(height, start)) && height == StateHeight(d.state) + 1
    ensures
      var step := Attempt(m, d, height, block, fuse);
      && (step.result.Ok? <==> Recoverable(m, d, height, block, fuse, start))
      && step.after == if step.result.Err? then d
                       else Durable(StateAfter(m, d.state, height, m.layer(d.state.content, block).value.changes), d.events)
  {
    assert Attempt(m, d, height, block, fuse) == RecoveryAttempt(m, d, height, block, fuse, start);
    EndsWithCommit(d.events);
    var rerun := m.layer(d.state.content, block);
    if LastCommit(d.events) == Some(|d.events| - 1) && start <= |d.events| && rerun.Ok? {
      ReadingsAgree(d.events, start, height, rerun.value.outputs);
    }
  }

  /** Otherwise the first of these that holds is the error: the log does not end with a commit, the recorded start
      lies beyond it, the rules reject the block, there are more or fewer outputs than positions, some position
      reads differently, or the process stops. */
  lemma RecoveryFailsWith(m: Machine, d: Durable, height: u64, block: Block, fuse: Fuse, start: nat)
    requires EventsMetadata(d.events) == Some(CommitOutput(height, start)) && height == StateHeight(d.state) + 1
    requires Attempt(m, d, height, block, fuse).result.Err?
    ensures
      var rerun, n := m.layer(d.state.content, block), |d.events| - 1;
      Attempt(m, d, height, block, fuse).result.error ==
      if !d.events[n].CommitOp? then OpCountMismatch
      else if start > n then StartBeyondCommit
      else if rerun.Err? then Layer(rerun.error)
      else if |rerun.value.outputs| != n - start then OutputCountMismatch
      else if exists i :: 0 <= i < n - start && ValueAt(d.events[start + i]) != Some(rerun.value.outputs[i]) then OutputMismatch
      else Interrupted
  {
    assert Attempt(m, d, height, block, fuse) == RecoveryAttempt(m, d, height, block, fuse, start);
    EndsWithCommit(d.events);
    var rerun, n := m.layer(d.state.content, block), |d.events| - 1;
    if d.events[n].CommitOp? && start <= n && rerun.Ok? && |rerun.value.outputs| == n - start {
      SliceReads(d.events, start, n, rerun.value.outputs);
    }
  }

  lemma SliceReads(events: seq<EventOp>, start: nat, n: nat, outputs: seq<Output>)
    requires start <= n <= |events| && |outputs| == n - start
    ensures SameOutputs(events[start..n], outputs) <==>
            !exists i :: 0 <= i < n - start && ValueAt(events[start + i]) != Some(outputs[i])
  {
    if i :| 0 <= i < n - start && ValueAt(events[start + i]) != Some(outputs[i]) {
      assert events[start..n][i] == events[start + i];
    }
  }

  /** Whatever the stores hold, a call is turned away, and changes nothing, for these reasons and no others: the log's
      last commit is not one of a block, the height is not the next one, or the two stores are further apart than
      one block; a height already done is reported as such. */
  lemma TurnedAwayIff(m: Machine, d: Durable, height: u64, block: Block, fuse: Fuse)
    ensures
      var step, metadata, done := Attempt(m, d, height, block, fuse), EventsMetadata(d.events), StateHeight(d.state);
      var logged := if metadata.Some? && metadata.value.CommitOutput? then metadata.value.height else 0;
      if metadata.Some? && !metadata.value.CommitOutput? then step == Step(d, Err(UnexpectedMetadata))
      else if height <= done then step == Step(d, Ok(NothingNew(d)))
      else if height > done + 1 then step == Step(d, Err(NonSequential))
      else if logged != done && logged != done + 1 then step == Step(d, Err(HeightMismatch))
      else !(step.result.Err? && (step.result.error.UnexpectedMetadata? || step.result.error.NonSequential? || step.result.error.HeightMismatch?))
  {
  }

  /** The same of the running code. */
  method Recover(stores: Stores, height: u64, block: Block, fuse: Fuse, start: nat)
    returns (r: Result<TransitionResult, Failure>)
    requires stores.Valid() && stores.Clean() && height == StateHeight(stores.state) + 1
    requires EventsMetadata(stores.events) == Some(CommitOutput(height, start))
    modifies stores
    ensures stores.Valid() && stores.Clean()
    ensures r.Ok? <==> Recoverable(stores.machine, old(stores.Saved()), height, block, fuse, start)
    ensures stores.Saved().events == old(stores.Saved()).events
    ensures r.Err? ==> stores.Saved() == old(stores.Saved())
    ensures r.Ok? ==> StateHeight(stores.Saved().state) == height
  {
    assert stores.Saved() == Durable(stores.state, stores.events);
    RecoverySucceedsIff(stores.machine, stores.Saved(), height, block, fuse, start);
    r := stores.Transition(height, block, fuse);
  }

  /******* Replay protection across the whole chain *******/

  function LoggedOutputs(events: seq<EventOp>): seq<Output> {
    if events == [] then []
    else
      var last := events[|events| - 1];
      LoggedOutputs(events[..|events| - 1]) + if last.Append? then [last.output] else []
  }

  lemma {:induction false} LoggedAppends(events: seq<EventOp>, outputs: seq<Output>)
    ensures LoggedOutputs(events + Appends(outputs)) == LoggedOutputs(events) + outputs
  {
    if outputs == [] {
      assert events + Appends(outputs) == events;
    } else {
      var n := |outputs| - 1;
      LoggedAppends(events, outputs[..n]);
      var all := events + Appends(outputs);
      assert all[..|all| - 1] == events + Appends(outputs[..n]);
    }
  }

  /** Along the chain the logged transactions of an account carry consecutive nonces, and the stored
      nonce is the next one. */
  lemma {:induction false} ChainNonces(
    m: Machine, rules: Rules, listing: Pending -> Changes,
    blocks: Schedule, chain: seq<Durable>, h: nat, who: PublicKey)
    requires Runs(m, rules, listing) && CrashFree(m, blocks, chain)
    requires h < |chain| && LoggedOutputs(chain[0].events) == []
    ensures
      var nonces := NoncesOf(LoggedOutputs(chain[h].events), who);
      var first := Nonce(chain[0].state.content, map[], who);
      && Consecutive(nonces, first)
      && Nonce(chain[h].state.content, map[], who) == first + |nonces|
  {
    if h > 0 {
      ChainNonces(m, rules, listing, blocks, chain, h - 1, who);
      assert Link(m, blocks, chain, h);
      NextBlockNonces(m, rules, listing, chain[h - 1], chain[h], h, blocks(h), who, Nonce(chain[0].state.content, map[], who));
    }
  }

  lemma NextBlockNonces(
    m: Machine, rules: Rules, listing: Pending -> Changes,
    before: Durable, after: Durable, height: u64, block: Block, who: PublicKey, first: nat)
    requires Runs(m, rules, listing) && m.layer(before.state.content, block).Ok?
    requires after == Extend(m, before, height, m.layer(before.state.content, block).value)
    requires Consecutive(NoncesOf(LoggedOutputs(before.events), who), first)
    requires Nonce(before.state.content, map[], who) == first + |NoncesOf(LoggedOutputs(before.events), who)|
    ensures Consecutive(NoncesOf(LoggedOutputs(after.events), who), first)
    ensures Nonce(after.state.content, map[], who) == first + |NoncesOf(LoggedOutputs(after.events), who)|
  {
    BlockNonces(m, rules, listing, before, height, block, who);
    var outputs := m.layer(before.state.content, block).value.outputs;
    ConsecutiveJoins(NoncesOf(LoggedOutputs(before.events), who), NoncesOf(outputs, who), first);
  }

  lemma ConsecutiveJoins(a: seq<u64>, b: seq<u64>, first: nat)
    requires Consecutive(a, first) && Consecutive(b, first + |a|)
    ensures Consecutive(a + b, first)
  {
  }

  /** One block extends the logged nonces of an account from its stored nonce. */
  lemma BlockNonces(
    m: Machine, rules: Rules, listing: Pending -> Changes, before: Durable, height: u64, block: Block, who: PublicKey)
    requires Runs(m, rules, listing)
    requires m.layer(before.state.content, block).Ok?
    ensures
      var layer := m.layer(before.state.content, block).value;
      var after := Extend(m, before, height, layer);
      var stored := Nonce(before.state.content, map[], who);
      && NoncesOf(LoggedOutputs(after.events), who)
         == NoncesOf(LoggedOutputs(before.events), who) + NoncesOf(layer.outputs, who)
      && Consecutive(NoncesOf(layer.outputs, who), stored)
      && Nonce(after.state.content, map[], who) == stored + |NoncesOf(layer.outputs, who)|
  {
    var layer := m.layer(before.state.content, block).value;
    var content := before.state.content;
    var run := Executed(rules, block.seed, content, map[], block.transactions).value;
    assert layer == LayerResult(run.outputs, run.nonces, listing(run.pending));
    AcceptedNoncesAreConsecutive(rules, block.seed, content, map[], block.transactions, who);
    OverlayMatchesApply(content, run.pending, layer.changes, AccountKey(who));
    PutChangesContent(m, before.state, layer.changes);
    LoggedBlock(before.events, height, layer.outputs);
    NoncesOfAppend(LoggedOutputs(before.events), layer.outputs, who);
  }

  lemma LoggedBlock(events: seq<EventOp>, height: u64, outputs: seq<Output>)
    ensures LoggedOutputs(EventsAfter(events, height, outputs)) == LoggedOutputs(events) + outputs
  {
    var all := EventsAfter(events, height, outputs);
    LoggedAppends(events, outputs);
    assert all[..|all| - 1] == events + Appends(outputs);
  }

  lemma {:induction false} PutChangesContent(m: Machine, state: Adb, changes: Changes)
    ensures PutChanges(m, state, changes).content == ApplyAll(state.content, changes)
  {
    if changes != [] {
      PutChangesContent(m, state, changes[..|changes| - 1]);
    }
  }

  /** However a run crashes and recovers, no two logged transactions of one account carry the same
      nonce: each block's transactions enter the log once. */
  lemma NoTransactionLoggedTwice(
    m: Machine, rules: Rules, listing: Pending -> Changes,
    blocks: Schedule, chain: seq<Durable>, run: seq<Outcome>, i: nat, j: nat)
    requires Runs(m, rules, listing) && CrashFree(m, blocks, chain) && LoggedOutputs(chain[0].events) == []
    requires IsRun(m, blocks, chain[0], run)
    requires
      var log := LoggedOutputs(Before(chain[0], run, |run|).events);
      i < j < |log| && log[i].TransactionOutput? && log[j].TransactionOutput? && log[i].tx.public == log[j].tx.public
    ensures
      var log := LoggedOutputs(Before(chain[0], run, |run|).events);
      log[i].tx.nonce < log[j].tx.nonce
  {
    CrashingRunsFollowTheChain(m, blocks, chain, run, |run|);
    var d := Before(chain[0], run, |run|);
    var h := |Reports(chain[0], run, |run|)|;
    var reached := if d.events == chain[h].events then h else h + 1;
    ChainNonces(m, rules, listing, blocks, chain, reached, LoggedOutputs(d.events)[i].tx.public);
    ConsecutiveMeansIncreasing(LoggedOutputs(d.events), Nonce(chain[0].state.content, map[], LoggedOutputs(d.events)[i].tx.public), i, j);
  }

  lemma ConsecutiveMeansIncreasing(log: seq<Output>, first: nat, i: nat, j: nat)
    requires i < j < |log| && log[i].TransactionOutput? && log[j].TransactionOutput? && log[i].tx.public == log[j].tx.public
    requires Consecutive(NoncesOf(log, log[i].tx.public), first)
    ensures log[i].tx.nonce < log[j].tx.nonce
  {
    PositionOf(log, log[i].tx.public, i);
    PositionOf(log, log[i].tx.public, j);
    PrefixCount(log, log[i].tx.public, i, j);
  }
}
