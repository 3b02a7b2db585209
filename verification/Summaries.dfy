/** The state summaries the simulator accepts, and what they say about each key and each proof node
    (simulator/src/state.rs:1046-1096): which operation on a key is the last one at the greatest height, and
    which digest of a node is the last one given. */
module Summaries {
  import opened Prelude
  import opened Retention

  type Position(==, !new)
  type Digest(==, !new)
  type Value(==, !new)
  type Progress(==, !new)

  datatype StateOp = Update(key: Digest, value: Value) | Delete(key: Digest) | Floor

  /** An accepted summary: its operations start at a location of the log, its nodes are listed with digests. */
  datatype Summary = Summary(height: nat, progress: Progress, start: nat, ops: seq<StateOp>, inner: seq<(Position, Digest)>)

  /******* Operations by key *******/

  datatype Entry = Entry(loc: nat, op: StateOp)

  /** One key operation of an accepted summary. */
  datatype Touch = Touch(height: nat, entry: Entry)

  function TouchesOf(height: nat, start: nat, ops: seq<StateOp>): seq<Touch> {
    if ops == [] then []
    else
      var n := |ops| - 1;
      TouchesOf(height, start, ops[..n]) + if ops[n].Floor? then [] else [Touch(height, Entry(start + n, ops[n]))]
  }

  function WritesTo(touches: seq<Touch>, key: Digest): seq<(nat, Entry)> {
    if touches == [] then []
    else
      var last := touches[|touches| - 1];
      WritesTo(touches[..|touches| - 1], key)
      + if !last.entry.op.Floor? && last.entry.op.key == key then [(last.height, last.entry)] else []
  }

  function AllTouches(all: seq<Summary>): seq<Touch> {
    if all == [] then []
    else
      var last := all[|all| - 1];
      AllTouches(all[..|all| - 1]) + TouchesOf(last.height, last.start, last.ops)
  }

  /** The positions of all operations but the floors. */
  function KeyPositions(ops: seq<StateOp>): seq<nat> {
    if ops == [] then []
    else
      var n := |ops| - 1;
      KeyPositions(ops[..n]) + if ops[n].Floor? then [] else [n]
  }

  /** Exactly those, in order. */
  lemma {:induction false} KeyPositionsAre(ops: seq<StateOp>)
    ensures KeyOpsAt(ops, KeyPositions(ops))
  {
    if ops != [] {
      var n := |ops| - 1;
      KeyPositionsAre(ops[..n]);
      AtMore(ops, n, KeyPositions(ops[..n]));
    }
  }

  /** Each operation but the floors is one touch, at the height, at its own location, in order. */
  lemma {:induction false} TouchesByIndex(height: nat, start: nat, ops: seq<StateOp>)
    ensures KeyOpsAt(ops, KeyPositions(ops)) && TouchesAt(TouchesOf(height, start, ops), height, start, ops, KeyPositions(ops))
  {
    KeyPositionsAre(ops);
    TouchesAtPositions(height, start, ops);
  }

  lemma {:induction false} TouchesAtPositions(height: nat, start: nat, ops: seq<StateOp>)
    ensures TouchesAt(TouchesOf(height, start, ops), height, start, ops, KeyPositions(ops))
  {
    if ops != [] {
      var n := |ops| - 1;
      TouchesAtPositions(height, start, ops[..n]);
      TouchMore(TouchesOf(height, start, ops[..n]), height, start, ops, n, KeyPositions(ops[..n]));
    }
  }

  /** Touch `j` is the operation at position `at[j]`, at the height and its own location. */
  ghost predicate TouchesAt(touches: seq<Touch>, height: nat, start: nat, ops: seq<StateOp>, at: seq<nat>) {
    |touches| == |at|
    && forall j :: 0 <= j < |at| ==> at[j] < |ops| && touches[j] == Touch(height, Entry(start + at[j], ops[at[j]]))
  }

  lemma TouchMore(touches: seq<Touch>, height: nat, start: nat, ops: seq<StateOp>, n: nat, at: seq<nat>)
    requires |ops| == n + 1 && TouchesAt(touches, height, start, ops[..n], at)
    ensures TouchesAt(touches, height, start, ops, at)
    ensures TouchesAt(touches + [Touch(height, Entry(start + n, ops[n]))], height, start, ops, at + [n])
  {
  }

  /** The positions of all operations but the floors, in order. */
  ghost predicate KeyOpsAt(ops: seq<StateOp>, at: seq<nat>) {
    && (forall j :: 0 <= j < |at| ==> at[j] < |ops| && !ops[at[j]].Floor?)
    && (forall i, j :: 0 <= i < j < |at| ==> at[i] < at[j])
    && (forall i: nat :: i < |ops| && !ops[i].Floor? ==> i in at)
  }

  lemma AtMore(ops: seq<StateOp>, n: nat, at: seq<nat>)
    requires |ops| == n + 1 && KeyOpsAt(ops[..n], at)
    ensures KeyOpsAt(ops, if ops[n].Floor? then at else at + [n])
  {
    var more := if ops[n].Floor? then at else at + [n];
    forall i: nat | i < |ops| && !ops[i].Floor?
      ensures i in more
    {
      if i < n {
        assert ops[..n][i] == ops[i];
      } else {
        assert more[|at|] == n;
      }
    }
  }

  /** Operation `i` of summary `k` is one on the key. */
  predicate Touched(all: seq<Summary>, key: Digest, k: int, i: int) {
    && 0 <= k < |all| && 0 <= i < |all[k].ops|
    && !all[k].ops[i].Floor? && all[k].ops[i].key == key
  }

  /** The summary of a greater height prevails, at equal heights the one accepted later, and within a summary
      the later operation. */
  predicate Prevails(all: seq<Summary>, k: int, i: int, k': int, i': int)
    requires 0 <= k < |all| && 0 <= k' < |all|
  {
    all[k'].height < all[k].height || (all[k'].height == all[k].height && (k' < k || (k' == k && i' <= i)))
  }

  ghost predicate LastTouch(all: seq<Summary>, key: Digest, k: int, i: int) {
    Touched(all, key, k, i) && forall k', i' :: Touched(all, key, k', i') ==> Prevails(all, k, i, k', i')
  }

  ghost predicate Untouched(all: seq<Summary>, key: Digest) {
    forall k, i :: !Touched(all, key, k, i)
  }

  /** The top write to a key is the last touch of it. */
  ghost predicate TopIs(all: seq<Summary>, key: Digest, top: Option<(nat, Entry)>) {
    match top
    case None => Untouched(all, key)
    case Some((height, entry)) =>
      exists k, i :: LastTouch(all, key, k, i) && height == all[k].height && entry == Entry(all[k].start + i, all[k].ops[i])
  }

  function WithoutLastOp(all: seq<Summary>): seq<Summary>
    requires all != [] && all[|all| - 1].ops != []
  {
    var last := all[|all| - 1];
    all[..|all| - 1] + [last.(ops := last.ops[..|last.ops| - 1])]
  }

  lemma {:induction false} TopIsLastTouch(all: seq<Summary>, key: Digest)
    ensures TopIs(all, key, Top(WritesTo(AllTouches(all), key)))
    decreases |all|, if all == [] then 0 else |all[|all| - 1].ops|
  {
    if all != [] {
      var n := |all| - 1;
      if all[n].ops == [] {
        TopIsLastTouch(all[..n], key);
        assert AllTouches(all) == AllTouches(all[..n]);
        EmptySummary(all, key, Top(WritesTo(AllTouches(all[..n]), key)));
      } else {
        var fewer := WithoutLastOp(all);
        TopIsLastTouch(fewer, key);
        LastOpTouches(all);
        LastOpWrites(all, key);
        TopStep(WritesTo(AllTouches(fewer), key), WritesTo(AllTouches(all), key));
        LastOpTop(all, key, Top(WritesTo(AllTouches(fewer), key)), Top(WritesTo(AllTouches(all), key)));
      }
    }
  }

  lemma {:induction false} EmptySummary(all: seq<Summary>, key: Digest, top: Option<(nat, Entry)>)
    requires all != [] && all[|all| - 1].ops == [] && TopIs(all[..|all| - 1], key, top)
    ensures TopIs(all, key, top)
  {
    var n := |all| - 1;
    forall k, i
      ensures Touched(all, key, k, i) <==> Touched(all[..n], key, k, i)
    {
    }
    if top.Some? {
      var k, i :| LastTouch(all[..n], key, k, i) && top.value.0 == all[..n][k].height
                  && top.value.1 == Entry(all[..n][k].start + i, all[..n][k].ops[i]);
      forall k', i' | Touched(all, key, k', i')
        ensures Prevails(all, k, i, k', i')
      {
        assert Touched(all[..n], key, k', i');
      }
      assert LastTouch(all, key, k, i);
    }
  }

  /** The touch of the last operation of the last summary, if it is not a floor. */
  function LastOp(all: seq<Summary>): (r: seq<Touch>)
    requires all != [] && all[|all| - 1].ops != []
  {
    var last := all[|all| - 1];
    var m := |last.ops| - 1;
    if last.ops[m].Floor? then [] else [Touch(last.height, Entry(last.start + m, last.ops[m]))]
  }

  lemma {:induction false} LastOpTouches(all: seq<Summary>)
    requires all != [] && all[|all| - 1].ops != []
    ensures AllTouches(all) == AllTouches(WithoutLastOp(all)) + LastOp(all)
  {
    var n := |all| - 1;
    var fewer := WithoutLastOp(all);
    assert fewer[..n] == all[..n] && fewer[n] == all[n].(ops := all[n].ops[..|all[n].ops| - 1]);
  }

  lemma {:induction false} LastOpWrites(all: seq<Summary>, key: Digest)
    requires all != [] && all[|all| - 1].ops != []
    requires AllTouches(all) == AllTouches(WithoutLastOp(all)) + LastOp(all)
    ensures
      var n := |all| - 1;
      var m := |all[n].ops| - 1;
      WritesTo(AllTouches(all), key) == WritesTo(AllTouches(WithoutLastOp(all)), key)
        + if Touched(all, key, n, m) then [(all[n].height, Entry(all[n].start + m, all[n].ops[m]))] else []
  {
    var fewer := AllTouches(WithoutLastOp(all));
    if LastOp(all) == [] {
      assert AllTouches(all) == fewer;
    } else {
      assert (fewer + LastOp(all))[..|fewer|] == fewer;
    }
  }

  lemma TopStep(before: seq<(nat, Entry)>, after: seq<(nat, Entry)>)
    requires after == before || (after != [] && before == after[..|after| - 1])
    ensures after != before ==>
              var top, last := Top(before), after[|after| - 1];
              Top(after) == if top.None? || top.value.0 <= last.0 then Some(last) else top
  {
  }

  lemma {:induction false} LastOpTop(all: seq<Summary>, key: Digest, before: Option<(nat, Entry)>, after: Option<(nat, Entry)>)
    requires all != [] && all[|all| - 1].ops != [] && TopIs(WithoutLastOp(all), key, before)
    requires
      var n := |all| - 1;
      var m := |all[n].ops| - 1;
      after == if Touched(all, key, n, m) && (before.None? || before.value.0 <= all[n].height)
               then Some((all[n].height, Entry(all[n].start + m, all[n].ops[m]))) else before
    ensures TopIs(all, key, after)
  {
    var n := |all| - 1;
    var m := |all[n].ops| - 1;
    var fewer := WithoutLastOp(all);
    FewerTouched(all, key);
    if before.Some? {
      var k, i :| LastTouch(fewer, key, k, i) && before.value.0 == fewer[k].height
                  && before.value.1 == Entry(fewer[k].start + i, fewer[k].ops[i]);
      if Touched(all, key, n, m) && before.value.0 <= all[n].height {
        NewPrevails(all, key, k, i);
      } else {
        OldPrevails(all, key, k, i);
      }
    } else if Touched(all, key, n, m) {
      forall k', i' | Touched(all, key, k', i')
        ensures Prevails(all, n, m, k', i')
      {
        assert !Touched(fewer, key, k', i');
      }
      assert LastTouch(all, key, n, m);
    }
  }

  lemma {:induction false} FewerTouched(all: seq<Summary>, key: Digest)
    requires all != [] && all[|all| - 1].ops != []
    ensures forall k, i :: Touched(all, key, k, i) <==>
              Touched(WithoutLastOp(all), key, k, i) || (Touched(all, key, k, i) && k == |all| - 1 && i == |all[k].ops| - 1)
    ensures |WithoutLastOp(all)| == |all|
    ensures forall k :: 0 <= k < |all| ==> WithoutLastOp(all)[k].height == all[k].height && WithoutLastOp(all)[k].start == all[k].start
    ensures forall k, i :: 0 <= k < |all| && 0 <= i < |WithoutLastOp(all)[k].ops| ==>
              i < |all[k].ops| && WithoutLastOp(all)[k].ops[i] == all[k].ops[i]
  {
  }

  lemma {:induction false} NewPrevails(all: seq<Summary>, key: Digest, k: int, i: int)
    requires all != [] && all[|all| - 1].ops != [] && LastTouch(WithoutLastOp(all), key, k, i)
    requires Touched(all, key, |all| - 1, |all[|all| - 1].ops| - 1) && WithoutLastOp(all)[k].height <= all[|all| - 1].height
    ensures LastTouch(all, key, |all| - 1, |all[|all| - 1].ops| - 1)
  {
    FewerTouched(all, key);
    var n := |all| - 1;
    forall k', i' | Touched(all, key, k', i')
      ensures Prevails(all, n, |all[n].ops| - 1, k', i')
    {
      if Touched(WithoutLastOp(all), key, k', i') {
        assert Prevails(WithoutLastOp(all), k, i, k', i');
      }
    }
  }

  lemma {:induction false} OldPrevails(all: seq<Summary>, key: Digest, k: int, i: int)
    requires all != [] && all[|all| - 1].ops != [] && LastTouch(WithoutLastOp(all), key, k, i)
    requires Touched(all, key, |all| - 1, |all[|all| - 1].ops| - 1) ==> all[|all| - 1].height < WithoutLastOp(all)[k].height
    ensures LastTouch(all, key, k, i)
  {
    FewerTouched(all, key);
    forall k', i' | Touched(all, key, k', i')
      ensures Prevails(all, k, i, k', i')
    {
      if Touched(WithoutLastOp(all), key, k', i') {
        assert Prevails(WithoutLastOp(all), k, i, k', i');
      }
    }
  }

  /******* Progress and nodes *******/

  function AllProgress(all: seq<Summary>): seq<(nat, Progress)> {
    seq(|all|, k requires 0 <= k < |all| => (all[k].height, all[k].progress))
  }

  /** The summary accepted last for the height. */
  ghost predicate LastAt(all: seq<Summary>, height: nat, k: int) {
    && 0 <= k < |all| && all[k].height == height
    && forall k' :: k < k' < |all| ==> all[k'].height != height
  }

  /** Item `i` of summary `k`'s node list is the node at the position. */
  predicate Lists(all: seq<Summary>, p: Position, k: int, i: int) {
    0 <= k < |all| && 0 <= i < |all[k].inner| && all[k].inner[i].0 == p
  }

  /** No later item is, in the same list or a later one. */
  ghost predicate LastListing(all: seq<Summary>, p: Position, k: int, i: int) {
    Lists(all, p, k, i) && forall k', i' :: Lists(all, p, k', i') ==> k' < k || (k' == k && i' <= i)
  }

  function WithNodes(nodes: map<Position, Digest>, inner: seq<(Position, Digest)>): map<Position, Digest> {
    if inner == [] then nodes
    else WithNodes(nodes, inner[..|inner| - 1])[inner[|inner| - 1].0 := inner[|inner| - 1].1]
  }

  /** A listed position holds the last digest listed for it, any other what it held before. */
  lemma {:induction false} WithNodesAt(nodes: map<Position, Digest>, inner: seq<(Position, Digest)>, p: Position)
    ensures
      var after := WithNodes(nodes, inner);
      if exists i :: 0 <= i < |inner| && inner[i].0 == p then
        exists i :: 0 <= i < |inner| && inner[i].0 == p && (forall j :: i < j < |inner| ==> inner[j].0 != p)
                    && p in after && after[p] == inner[i].1
      else (p in after <==> p in nodes) && (p in nodes ==> after[p] == nodes[p])
  {
    if inner != [] {
      var n := |inner| - 1;
      WithNodesAt(nodes, inner[..n], p);
      if inner[n].0 != p {
        assert forall i :: 0 <= i < n ==> inner[..n][i] == inner[i];
        if exists i :: 0 <= i < |inner| && inner[i].0 == p {
          var i :| 0 <= i < |inner| && inner[i].0 == p;
          assert inner[..n][i].0 == p;
          var last :| 0 <= last < n && inner[..n][last].0 == p && (forall j :: last < j < n ==> inner[..n][j].0 != p)
                      && p in WithNodes(nodes, inner[..n]) && WithNodes(nodes, inner[..n])[p] == inner[..n][last].1;
          assert inner[last].0 == p;
        }
      }
    }
  }

  /** Every stored node carries the digest listed last for its position. */
  ghost predicate NodesCurrent(all: seq<Summary>, nodes: map<Position, Digest>) {
    forall p :: p in nodes ==> Current(all, p, nodes[p])
  }

  ghost predicate Current(all: seq<Summary>, p: Position, digest: Digest) {
    exists k, i :: LastListing(all, p, k, i) && all[k].inner[i].1 == digest
  }

  lemma NodesStayCurrent(all: seq<Summary>, nodes: map<Position, Digest>, s: Summary)
    requires NodesCurrent(all, nodes)
    ensures NodesCurrent(all + [s], WithNodes(nodes, s.inner))
  {
    forall p | p in WithNodes(nodes, s.inner)
      ensures Current(all + [s], p, WithNodes(nodes, s.inner)[p])
    {
      WithNodesAt(nodes, s.inner, p);
      if i :| 0 <= i < |s.inner| && s.inner[i].0 == p {
        var last :| 0 <= last < |s.inner| && s.inner[last].0 == p && (forall j :: last < j < |s.inner| ==> s.inner[j].0 != p)
                    && WithNodes(nodes, s.inner)[p] == s.inner[last].1;
        assert LastListing(all + [s], p, |all|, last);
      } else {
        var k, i :| LastListing(all, p, k, i) && all[k].inner[i].1 == nodes[p];
        OldListing(all, s, p, k, i);
      }
    }
  }

  lemma OldListing(all: seq<Summary>, s: Summary, p: Position, k: int, i: int)
    requires LastListing(all, p, k, i) && forall j :: 0 <= j < |s.inner| ==> s.inner[j].0 != p
    ensures LastListing(all + [s], p, k, i)
  {
    forall k', i' | Lists(all + [s], p, k', i')
      ensures k' < k || (k' == k && i' <= i)
    {
      assert Lists(all, p, k', i');
    }
  }
}
