/** When the counts of the simulator's proof nodes stay exact (simulator/src/state.rs:1031-1123). A count leaks
    when a height whose nodes are still retained is submitted again after it was forgotten as submitted. */
module NodeLeaks {
  import opened Prelude
  import opened Retention
  import opened Counting
  import opened Summaries
  import opened SimulatorState

  datatype Submission = Submission(height: nat, positions: seq<Position>)

  /** The ledger after a run of submissions. */
  ghost function After(limits: Limits, run: seq<Submission>): Ledger {
    if run == [] then Ledger([], map[], multiset{})
    else
      var last := run[|run| - 1];
      Submitted(limits, After(limits, run[..|run| - 1]), last.height, last.positions)
  }

  /** The stored counts are exactly the occurrences in retained lists. */
  ghost predicate CountsExact(b: Ledger) {
    forall counts: map<Position, nat> ::
      CountsOf(counts, Listed(b.lists) + b.leaked) ==> CountsOf(counts, Listed(b.lists))
  }

  lemma ExactIffNothingLeaked(b: Ledger)
    ensures CountsExact(b) <==> b.leaked == multiset{}
  {
    var total := Listed(b.lists) + b.leaked;
    if b.leaked == multiset{} {
      assert total == Listed(b.lists);
    } else {
      var counts := map p | p in total :: total[p];
      assert CountsOf(counts, total);
      var p :| p in b.leaked;
      assert p in total && counts[p] == total[p] > Listed(b.lists)[p];
    }
  }

  /** Lists are kept for accepted heights only, and for retained ones only. */
  ghost predicate ListsKept(limits: Limits, b: Ledger) {
    b.lists.Keys <= Heights(b.accepted) && b.lists.Keys <= GreatestOf(Heights(b.accepted), limits.progress)
  }

  /** With every height remembered, or none retained, no list is ever replaced. */
  lemma {:induction false} NothingLeaks(limits: Limits, run: seq<Submission>)
    requires limits.submissions.None? || limits.progress == Some(0)
    ensures ListsKept(limits, After(limits, run)) && After(limits, run).leaked == multiset{}
  {
    if run != [] {
      var last := run[|run| - 1];
      NothingLeaks(limits, run[..|run| - 1]);
      NoListReplaced(limits, After(limits, run[..|run| - 1]), last.height, last.positions);
    }
  }

  lemma NoListReplaced(limits: Limits, b: Ledger, height: nat, positions: seq<Position>)
    requires limits.submissions.None? || limits.progress == Some(0)
    requires ListsKept(limits, b) && b.leaked == multiset{}
    ensures
      var after := Submitted(limits, b, height, positions);
      ListsKept(limits, after) && after.leaked == multiset{}
  {
    if height !in Remembered(b.accepted, limits.submissions) {
      assert height !in b.lists;
      var accepted := b.accepted + [height];
      assert Heights(b.accepted) <= Heights(accepted);
    }
  }

  /******* A run that leaks *******/

  /** The greatest height first, with a node, and then the lower ones, without. */
  function Descent(top: nat, k: nat, p: Position): seq<Submission> {
    if k == 0 then [Submission(top, [p])] else Descent(top, k - 1, p) + [Submission(k - 1, [])]
  }

  function DescentHeights(top: nat, k: nat): seq<nat> {
    [top] + seq(k, i requires 0 <= i < k => i)
  }

  lemma AfterOneMore(limits: Limits, run: seq<Submission>, s: Submission)
    ensures After(limits, run + [s]) == Submitted(limits, After(limits, run), s.height, s.positions)
  {
    assert (run + [s])[..|run|] == run;
  }

  /** The greatest height stays retained while any is. */
  lemma TopStays(top: nat, k: nat, limit: Option<nat>)
    requires k <= top && limit != Some(0)
    ensures top in GreatestOf(Heights(DescentHeights(top, k)), limit)
  {
    var heights := DescentHeights(top, k);
    assert heights[0] == top && top in Heights(heights);
  }

  lemma DescentForgets(top: nat, k: nat)
    requires k <= top
    ensures k < top ==> k !in Remembered(DescentHeights(top, k), Some(top))
    ensures k == top ==> top !in Remembered(DescentHeights(top, k), Some(top))
    ensures DescentHeights(top, k) + [k] == DescentHeights(top, k + 1)
  {
  }

  /** A lower height without nodes changes no list. */
  lemma LowerHeight(limits: Limits, top: nat, k: nat, p: Position)
    requires limits.submissions == Some(top) && limits.progress != Some(0) && k < top
    ensures Submitted(limits, Ledger(DescentHeights(top, k), map[top := [p]], multiset{}), k, [])
         == Ledger(DescentHeights(top, k + 1), map[top := [p]], multiset{})
  {
    DescentForgets(top, k);
    TopStays(top, k + 1, limits.progress);
    KeepsOne(top, p, GreatestOf(Heights(DescentHeights(top, k + 1)), limits.progress));
  }

  lemma KeepsOne(top: nat, p: Position, kept: set<nat>)
    requires top in kept
    ensures Restricted(map[top := [p]], kept) == map[top := [p]]
  {
  }

  lemma FirstHeight(limits: Limits, top: nat, p: Position)
    requires limits.submissions == Some(top) && limits.progress != Some(0)
    ensures Submitted(limits, Ledger([], map[], multiset{}), top, [p])
         == Ledger(DescentHeights(top, 0), map[top := [p]], multiset{})
  {
    TopStays(top, 0, limits.progress);
    assert [] + [top] == DescentHeights(top, 0);
    KeepsOne(top, p, GreatestOf(Heights(DescentHeights(top, 0)), limits.progress));
  }

  lemma {:induction false} DescentLeaksNothing(limits: Limits, top: nat, k: nat, p: Position)
    requires limits.submissions == Some(top) && limits.progress != Some(0) && k <= top
    ensures After(limits, Descent(top, k, p)) == Ledger(DescentHeights(top, k), map[top := [p]], multiset{})
  {
    if k == 0 {
      AfterOneMore(limits, [], Submission(top, [p]));
      assert [] + [Submission(top, [p])] == Descent(top, 0, p);
      FirstHeight(limits, top, p);
    } else {
      DescentLeaksNothing(limits, top, k - 1, p);
      AfterOneMore(limits, Descent(top, k - 1, p), Submission(k - 1, []));
      LowerHeight(limits, top, k - 1, p);
    }
  }

  lemma TopAgain(limits: Limits, top: nat, p: Position)
    requires limits.submissions == Some(top)
    ensures Submitted(limits, Ledger(DescentHeights(top, top), map[top := [p]], multiset{}), top, [p]).leaked == multiset{p}
  {
    DescentForgets(top, top);
  }

  /** As many lower heights as are remembered make the simulator forget the first one, whose list is still
      retained; submitting it again leaks that list. */
  lemma Leaks(limits: Limits, p: Position) returns (run: seq<Submission>)
    requires limits.submissions.Some? && limits.progress != Some(0)
    ensures After(limits, run).leaked == multiset{p}
  {
    var top := limits.submissions.value;
    run := Descent(top, top, p) + [Submission(top, [p])];
    DescentLeaksNothing(limits, top, top, p);
    AfterOneMore(limits, Descent(top, top, p), Submission(top, [p]));
    TopAgain(limits, top, p);
  }

  /** The counts are exact after every run of submissions exactly when no submitted height is ever
      forgotten or no height is retained at all. */
  lemma CountsStayExactIff(limits: Limits, p: Position)
    ensures (forall run :: CountsExact(After(limits, run)))
            <==> limits.submissions.None? || limits.progress == Some(0)
  {
    if limits.submissions.None? || limits.progress == Some(0) {
      forall run
        ensures CountsExact(After(limits, run))
      {
        NothingLeaks(limits, run);
        ExactIffNothingLeaked(After(limits, run));
      }
    } else {
      var run := Leaks(limits, p);
      assert p in After(limits, run).leaked;
      ExactIffNothingLeaked(After(limits, run));
    }
  }

  lemma TwiceLeaks(height: nat, p: Position)
    ensures
      var limits := Limits(Some(0), None);
      var once := Submitted(limits, Ledger([], map[], multiset{}), height, [p]);
      Submitted(limits, once, height, [p]).leaked == multiset{p}
  {
    assert [] + [height] == [height] && height in Heights([height]);
    assert GreatestOf(Heights([height]), None) == Heights([height]);
    KeepsOne(height, p, Heights([height]));
  }

  /** What a submission does to the ledger alone. */
  method SubmitNodes(state: State, height: nat, p: Progress, inner: seq<(Position, Digest)>)
    requires state.Valid()
    modifies state, state.submitted, state.proof
    ensures state.Valid()
    ensures state.Books() == Submitted(state.Settings(), old(state.Books()), height, Positions(inner))
  {
    var accepted := state.Submit(height, p, 0, [], inner);
  }

  lemma OnePosition(node: (Position, Digest))
    ensures Positions([node]) == [node.0]
  {
  }

  /** The smallest case on the running code: nothing is remembered as submitted, one height comes twice. */
  method SubmitTwice(height: nat, p: Progress, node: (Position, Digest)) returns (state: State)
    ensures state.Valid() && state.Settings() == Limits(Some(0), None) && state.Books().leaked == multiset{node.0}
    ensures !Counted(state.proof.nodes, state.proof.counts, Listed(state.proof.lists))
  {
    state := SubmitFirst(height, p, node);
    SubmitAgain(state, height, p, node);
    LeakMiscounts(state);
  }

  method SubmitFirst(height: nat, p: Progress, node: (Position, Digest)) returns (state: State)
    ensures fresh(state) && fresh(state.submitted) && fresh(state.proof)
    ensures state.Valid() && state.Settings() == Limits(Some(0), None)
    ensures state.Books() == Submitted(Limits(Some(0), None), Ledger([], map[], multiset{}), height, [node.0])
  {
    state := new State(None, None, Some(0));
    SubmitNodes(state, height, p, [node]);
    OnePosition(node);
  }

  method SubmitAgain(state: State, height: nat, p: Progress, node: (Position, Digest))
    requires state.Valid() && state.Settings() == Limits(Some(0), None)
    requires state.Books() == Submitted(Limits(Some(0), None), Ledger([], map[], multiset{}), height, [node.0])
    modifies state, state.submitted, state.proof
    ensures state.Valid() && state.Books().leaked == multiset{node.0}
  {
    SubmitNodes(state, height, p, [node]);
    OnePosition(node);
    TwiceLeaks(height, node.0);
  }

  /** Then a stored count differs from the occurrences in retained lists. */
  lemma LeakMiscounts(state: State)
    requires state.Valid() && state.Books().leaked != multiset{}
    ensures !Counted(state.proof.nodes, state.proof.counts, Listed(state.proof.lists))
  {
    ExactCountsIffNoLeak(state.proof.nodes, state.proof.counts, state.proof.lists, state.proof.leaked);
  }
}
