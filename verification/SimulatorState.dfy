/** simulator/src/state.rs: what the simulator keeps of submitted seeds and state summaries, all of it
    bounded, and what a query sees of it. */
module SimulatorState {
  import opened Prelude
  import opened Retention
  import opened Counting
  import opened Summaries

  type Seed(==, !new)
  type Proof(==, !new)

  /******* Duplicate submissions *******/

  /** The set of submitted heights with the queue that bounds it. */
  class Submissions {
    const limit: Option<nat>
    var members: set<nat>
    var order: seq<nat>
    ghost var accepted: seq<nat>

    ghost predicate Valid()
      reads this
    {
      && Queue(members, Remembered(accepted, limit))
      && order == if limit.Some? then Remembered(accepted, limit) else []
    }

    constructor (limit: Option<nat>)
      ensures Valid() && accepted == [] && this.limit == limit
    {
      this.limit := limit;
      members, order, accepted := {}, [], [];
    }

    /** A height is taken unless it is among the last `limit` accepted ones. */
    method Claim(height: nat) returns (isNew: bool)
      requires Valid()
      modifies this
      ensures Valid()
      ensures isNew == (height !in Remembered(old(accepted), limit))
      ensures accepted == if isNew then old(accepted) + [height] else old(accepted)
    {
      if height in members {
        return false;
      }
      isNew := true;
      RememberedStep(accepted, limit, height);
      members := members + {height};
      QueueGrows(members - {height}, Remembered(accepted, limit), height);
      accepted := accepted + [height];
      if limit.Some? {
        order := order + [height];
        Trim(limit.value);
      }
    }

    method Trim(max: nat)
      requires Queue(members, order)
      modifies this`members, this`order
      ensures Queue(members, order) && order == old(order)[old(|order|) - Min(max, old(|order|))..]
    {
      while |order| > max
        invariant Queue(members, order) && |order| <= old(|order|)
        invariant order == old(order)[old(|order|) - |order|..] && |order| >= Min(max, old(|order|))
      {
        QueueShrinks(members, order);
        members := members - {order[0]};
        order := order[1..];
      }
    }
  }

  /** `order` lists the members, each once. */
  ghost predicate Queue(members: set<nat>, order: seq<nat>) {
    && (forall h :: h in members <==> h in order)
    && (forall i, j :: 0 <= i < j < |order| ==> order[i] != order[j])
  }

  lemma QueueGrows(members: set<nat>, order: seq<nat>, h: nat)
    requires Queue(members, order) && h !in members
    ensures Queue(members + {h}, order + [h])
  {
  }

  lemma QueueShrinks(members: set<nat>, order: seq<nat>)
    requires Queue(members, order) && order != []
    ensures Queue(members - {order[0]}, order[1..])
  {
    assert order == [order[0]] + order[1..];
  }

  lemma RememberedStep(accepted: seq<nat>, limit: Option<nat>, h: nat)
    ensures
      var grown := Remembered(accepted, limit) + [h];
      Remembered(accepted + [h], limit)
      == if limit.None? then grown else grown[|grown| - Min(limit.value, |grown|)..]
  {
  }

  /** The last `limit` accepted heights, or all of them. */
  function Remembered(accepted: seq<nat>, limit: Option<nat>): seq<nat> {
    if limit.None? then accepted else accepted[|accepted| - Min(limit.value, |accepted|)..]
  }

  /******* Reference-counted proof nodes *******/

  /** All positions listed for retained heights, with multiplicity. */
  ghost function Listed(lists: map<nat, seq<Position>>): multiset<Position>
    decreases |lists|
  {
    if lists == map[] then multiset{}
    else
      var h :| h in lists;
      MapSize(lists, h);
      multiset(lists[h]) + Listed(lists - {h})
  }

  lemma {:induction false} ListedWithout(lists: map<nat, seq<Position>>, h: nat)
    requires h in lists
    ensures Listed(lists) == multiset(lists[h]) + Listed(lists - {h})
    decreases |lists|
  {
    var pick :| pick in lists && Listed(lists) == multiset(lists[pick]) + Listed(lists - {pick});
    if pick != h {
      MapSize(lists, pick);
      MapSize(lists, h);
      ListedWithout(lists - {pick}, h);
      ListedWithout(lists - {h}, pick);
      assert lists - {pick} - {h} == lists - {h} - {pick};
    }
  }

  lemma ListedPut(lists: map<nat, seq<Position>>, h: nat, positions: seq<Position>)
    ensures Listed(lists[h := positions]) == multiset(positions) + Listed(lists - {h})
  {
    ListedWithout(lists[h := positions], h);
    assert lists[h := positions] - {h} == lists - {h};
  }

  /** The stored counts are the multiplicities of `total`, and only counted positions have nodes. */
  ghost predicate Counted(nodes: map<Position, Digest>, counts: map<Position, nat>, total: multiset<Position>) {
    nodes.Keys == counts.Keys && CountsOf(counts, total)
  }

  class ProofNodes {
    var nodes: map<Position, Digest>
    var counts: map<Position, nat>
    var lists: map<nat, seq<Position>>
    ghost var leaked: multiset<Position>

    /** Counts are the occurrences in retained lists plus what overwritten lists left behind. */
    ghost predicate Valid()
      reads this
    {
      Counted(nodes, counts, Listed(lists) + leaked) && forall h :: h in lists ==> lists[h] != []
    }

    constructor ()
      ensures Valid() && lists == map[] && leaked == multiset{}
    {
      nodes, counts, lists, leaked := map[], map[], map[], multiset{};
    }

    /** Store the nodes of a summary. A second list for a height replaces the first, whose counts
        nobody gives back. */
    method Record(height: nat, inner: seq<(Position, Digest)>)
      requires Valid()
      modifies this
      ensures Valid() && nodes == WithNodes(old(nodes), inner)
      ensures lists == if inner == [] then old(lists) else old(lists)[height := Positions(inner)]
      ensures leaked == old(leaked) + if inner != [] && height in old(lists) then multiset(old(lists)[height]) else multiset{}
    {
      ghost var total := Listed(lists) + leaked;
      var positions := Store(inner, total);
      if positions != [] {
        ListReplaced(lists, leaked, height, positions);
        leaked := leaked + if height in lists then multiset(lists[height]) else multiset{};
        lists := lists[height := positions];
      } else {
        assert total + multiset(positions) == total;
      }
    }

    method Store(inner: seq<(Position, Digest)>, ghost total: multiset<Position>) returns (positions: seq<Position>)
      requires Counted(nodes, counts, total)
      modifies this`nodes, this`counts
      ensures positions == Positions(inner) && nodes == WithNodes(old(nodes), inner)
      ensures Counted(nodes, counts, total + multiset(positions))
    {
      positions := [];
      for i := 0 to |inner|
        invariant positions == Positions(inner[..i]) && nodes == WithNodes(old(nodes), inner[..i])
        invariant Counted(nodes, counts, total + multiset(positions))
      {
        OneMoreNode(old(nodes), inner, i);
        TotalWith(total, positions, inner[i].0);
        Add(inner[i].0, inner[i].1, total + multiset(positions));
        positions := positions + [inner[i].0];
      }
      assert inner[..|inner|] == inner;
    }

    method Add(pos: Position, digest: Digest, ghost total: multiset<Position>)
      requires Counted(nodes, counts, total)
      modifies this`nodes, this`counts
      ensures Counted(nodes, counts, total + multiset{pos}) && nodes == old(nodes)[pos := digest]
    {
      nodes := nodes[pos := digest];
      counts := counts[pos := (if pos in counts then counts[pos] else 0) + 1];
    }

    method GiveBack(pos: Position, ghost rest: multiset<Position>)
      requires Counted(nodes, counts, rest + multiset{pos})
      modifies this`nodes, this`counts
      ensures Counted(nodes, counts, rest)
      ensures nodes == old(nodes) || nodes == old(nodes) - {pos}
    {
      assert pos in rest + multiset{pos};
      if pos in counts {
        if counts[pos] > 1 {
          counts := counts[pos := counts[pos] - 1];
        } else {
          counts := counts - {pos};
          nodes := nodes - {pos};
        }
      }
    }

    /** Give back one count for every position listed for an evicted height. */
    method Evict(height: nat)
      requires Valid()
      modifies this
      ensures Valid() && lists == old(lists) - {height} && leaked == old(leaked)
      ensures PartOf(nodes, old(nodes))
    {
      if height !in lists {
        assert lists - {height} == lists;
        return;
      }
      var positions := lists[height];
      ListedWithout(lists, height);
      lists := lists - {height};
      assert Listed(lists) + leaked + multiset(positions) == old(Listed(lists) + leaked);
      GiveBackAll(positions, Listed(lists) + leaked);
    }

    method GiveBackAll(positions: seq<Position>, ghost rest: multiset<Position>)
      requires Counted(nodes, counts, rest + multiset(positions))
      modifies this`nodes, this`counts
      ensures Counted(nodes, counts, rest)
      ensures PartOf(nodes, old(nodes))
    {
      assert positions[0..] == positions;
      for i := 0 to |positions|
        invariant Counted(nodes, counts, rest + multiset(positions[i..]))
        invariant PartOf(nodes, old(nodes))
      {
        ghost var others := rest + multiset(positions[i + 1..]);
        assert positions[i..] == [positions[i]] + positions[i + 1..];
        assert rest + multiset(positions[i..]) == others + multiset{positions[i]};
        GiveBack(positions[i], others);
      }
      assert rest + multiset(positions[|positions|..]) == rest;
    }
  }

  lemma OneMoreNode(nodes: map<Position, Digest>, inner: seq<(Position, Digest)>, i: nat)
    requires i < |inner|
    ensures Positions(inner[..i + 1]) == Positions(inner[..i]) + [inner[i].0]
    ensures WithNodes(nodes, inner[..i + 1]) == WithNodes(nodes, inner[..i])[inner[i].0 := inner[i].1]
  {
    assert inner[..i + 1][..i] == inner[..i];
  }

  lemma TotalWith(total: multiset<Position>, positions: seq<Position>, p: Position)
    ensures total + multiset(positions + [p]) == total + multiset(positions) + multiset{p}
  {
  }

  /** Replacing a height's list moves the old list from the retained occurrences to the leaked ones. */
  lemma ListReplaced(lists: map<nat, seq<Position>>, leaked: multiset<Position>, h: nat, positions: seq<Position>)
    ensures Listed(lists[h := positions]) + (leaked + if h in lists then multiset(lists[h]) else multiset{})
         == Listed(lists) + leaked + multiset(positions)
  {
    ListedPut(lists, h, positions);
    if h in lists {
      ListedWithout(lists, h);
    } else {
      assert lists - {h} == lists;
    }
  }

  ghost predicate PartOf(nodes: map<Position, Digest>, whole: map<Position, Digest>) {
    forall p :: p in nodes ==> p in whole && nodes[p] == whole[p]
  }

  function Positions(inner: seq<(Position, Digest)>): seq<Position> {
    seq(|inner|, i requires 0 <= i < |inner| => inner[i].0)
  }

  /** No retained height loses a node. */
  lemma RetainedNodesPresent(
    nodes: map<Position, Digest>, counts: map<Position, nat>, lists: map<nat, seq<Position>>,
    leaked: multiset<Position>, h: nat, p: Position)
    requires Counted(nodes, counts, Listed(lists) + leaked)
    requires h in lists && p in lists[h]
    ensures p in nodes && p in counts && counts[p] >= Listed(lists)[p] >= multiset(lists[h])[p] > 0
  {
    ListedWithout(lists, h);
    assert p in multiset(lists[h]);
  }

  lemma NodesForList(
    nodes: map<Position, Digest>, counts: map<Position, nat>, lists: map<nat, seq<Position>>,
    leaked: multiset<Position>, h: nat)
    requires Counted(nodes, counts, Listed(lists) + leaked) && h in lists
    ensures forall p :: p in lists[h] ==> p in nodes
  {
    forall p | p in lists[h]
      ensures p in nodes
    {
      RetainedNodesPresent(nodes, counts, lists, leaked, h, p);
    }
  }

  /** The counts are exactly the retained occurrences when and only when nothing was overwritten. */
  lemma ExactCountsIffNoLeak(
    nodes: map<Position, Digest>, counts: map<Position, nat>, lists: map<nat, seq<Position>>, leaked: multiset<Position>)
    requires Counted(nodes, counts, Listed(lists) + leaked)
    ensures Counted(nodes, counts, Listed(lists)) <==> leaked == multiset{}
  {
    if Counted(nodes, counts, Listed(lists)) {
      forall p
        ensures leaked[p] == 0
      {
        assert (Listed(lists) + leaked)[p] == Listed(lists)[p] + leaked[p];
        assert p in counts <==> p in Listed(lists);
      }
    } else {
      assert leaked == multiset{} ==> Listed(lists) + leaked == Listed(lists);
    }
  }

  /******* Seeds *******/

  class SeedHistory {
    const limit: Option<nat>
    var seeds: map<nat, Seed>
    ghost var submitted: seq<(nat, Seed)>

    ghost predicate Valid()
      reads this
    {
      Bounded(seeds, Written(submitted), limit)
    }

    constructor (limit: Option<nat>)
      ensures Valid() && submitted == [] && this.limit == limit
    {
      this.limit := limit;
      seeds, submitted := map[], [];
    }

    /** A view that is still stored is overwritten without a broadcast. */
    method Submit(view: nat, seed: Seed) returns (broadcast: bool)
      requires Valid()
      modifies this
      ensures Valid() && submitted == old(submitted) + [(view, seed)]
      ensures broadcast == (view !in old(seeds))
    {
      ghost var all := submitted + [(view, seed)];
      assert all[..|submitted|] == submitted;
      broadcast := view !in seeds;
      if broadcast {
        seeds := InsertBounded(seeds, view, seed, limit, Written(submitted));
      } else {
        PutSize(seeds, view, seed);
        assert |seeds| == |seeds.Keys|;
        PutWithRoom(seeds, view, seed, limit, Written(submitted));
        seeds := seeds[view := seed];
      }
      submitted := all;
    }

    /** The latest seed is the one last submitted for the greatest view ever submitted. */
    method Latest() returns (r: Option<Seed>)
      requires Valid()
      ensures r == if limit == Some(0) || Top(submitted) == None then None else Some(Top(submitted).value.1)
    {
      BoundedKeepsTop(seeds, submitted, limit);
      if seeds.Keys == {} {
        assert seeds == map[];
        return None;
      }
      var view := LastKey(seeds.Keys);
      r := Some(seeds[view]);
    }

    method At(view: nat) returns (r: Option<Seed>)
      requires Valid()
      ensures r.Some? ==> view in Written(submitted) && r.value == Written(submitted)[view]
      ensures r.None? && view in Written(submitted) ==>
                limit.Some? && |seeds| == limit.value && forall kept :: kept in seeds ==> view < kept
    {
      r := if view in seeds then Some(seeds[view]) else None;
      assert |seeds| == |seeds.Keys|;
    }
  }

  /******* Key histories, progress and queries *******/

  /** What decides which proof nodes are counted: the heights accepted, the lists of the retained ones,
      and what replaced lists left behind. */
  datatype Ledger = Ledger(accepted: seq<nat>, lists: map<nat, seq<Position>>, leaked: multiset<Position>)

  /** `submission_history_limit` and `state_max_progress_entries`. */
  datatype Limits = Limits(submissions: Option<nat>, progress: Option<nat>)

  function Heights(accepted: seq<nat>): set<nat> {
    set h | h in accepted
  }

  /** What one submission does to the ledger. */
  ghost function Submitted(limits: Limits, b: Ledger, height: nat, positions: seq<Position>): Ledger {
    if height in Remembered(b.accepted, limits.submissions) then b
    else
      var accepted := b.accepted + [height];
      var lists := if positions == [] then b.lists else b.lists[height := positions];
      Ledger(accepted, Restricted(lists, GreatestOf(Heights(accepted), limits.progress)),
             b.leaked + if positions != [] && height in b.lists then multiset(b.lists[height]) else multiset{})
  }

  /** Every touched key keeps its greatest heights, and a bound of zero keeps no key at all. */
  ghost predicate KeysBounded(keys: map<Digest, map<nat, Entry>>, touches: seq<Touch>, limit: Option<nat>) {
    forall k {:trigger KeyBounded(keys, touches, limit, k)} :: KeyBounded(keys, touches, limit, k)
  }

  ghost predicate KeyBounded(keys: map<Digest, map<nat, Entry>>, touches: seq<Touch>, limit: Option<nat>, k: Digest) {
    && (k in keys <==> WritesTo(touches, k) != [] && limit != Some(0))
    && (k in keys ==> Bounded(keys[k], Written(WritesTo(touches, k)), limit))
  }

  /** What a lookup returns: the progress of the height it is proved at, the operation's location and
      value, and the proof built from node digests. */
  datatype Lookup = Lookup(height: nat, progress: Progress, loc: nat, value: Value, proof: Proof)

  ghost predicate Unbuildable(build: Builder, p: Progress, nodes: map<Position, Digest>, needed: seq<Position>) {
    (forall pos :: pos in needed ==> pos in nodes) && build(p, Digests(nodes, needed)).None?
  }

  /** Which nodes a proof of one location needs, and building it from their digests; both may fail. */
  type Required = (Progress, nat) -> Option<seq<Position>>
  type Builder = (Progress, seq<Digest>) -> Option<Proof>

  class State {
    const maxVersions: Option<nat>
    const maxProgress: Option<nat>
    const submitted: Submissions
    const proof: ProofNodes
    var keys: map<Digest, map<nat, Entry>>
    var progress: map<nat, Progress>
    ghost var touches: seq<Touch>
    ghost var summaries: seq<(nat, Progress)>
    ghost var received: seq<Summary>

    ghost predicate Valid()
      reads this, submitted, proof
    {
      submitted.Valid() && Kept() && Written(summaries).Keys == Heights(submitted.accepted)
    }

    /** What is kept of the summaries received. */
    ghost predicate Kept()
      reads this, proof
    {
      && proof.Valid()
      && KeysBounded(keys, touches, maxVersions)
      && Bounded(progress, Written(summaries), maxProgress)
      && proof.lists.Keys <= progress.Keys
      && touches == AllTouches(received) && summaries == AllProgress(received)
      && NodesCurrent(received, proof.nodes)
    }

    ghost function Books(): Ledger
      reads this, submitted, proof
    {
      Ledger(submitted.accepted, proof.lists, proof.leaked)
    }

    function Settings(): Limits {
      Limits(submitted.limit, maxProgress)
    }

    constructor (maxVersions: Option<nat>, maxProgress: Option<nat>, historyLimit: Option<nat>)
      ensures Valid() && fresh(submitted) && fresh(proof) && touches == [] && summaries == [] && received == []
      ensures this.maxVersions == maxVersions && Settings() == Limits(historyLimit, maxProgress)
      ensures Books() == Ledger([], map[], multiset{})
    {
      this.maxVersions, this.maxProgress := maxVersions, maxProgress;
      submitted := new Submissions(historyLimit);
      proof := new ProofNodes();
      keys, progress, touches, summaries, received := map[], map[], [], [], [];
    }

    method RecordOp(height: nat, loc: nat, op: StateOp)
      requires KeysBounded(keys, touches, maxVersions)
      modifies this`keys, this`touches
      ensures KeysBounded(keys, touches, maxVersions)
      ensures touches == old(touches) + if op.Floor? then [] else [Touch(height, Entry(loc, op))]
    {
      if op.Floor? {
        return;
      }
      ghost var before := touches;
      ghost var writes := WritesTo(before, op.key);
      var history := if op.key in keys then keys[op.key] else map[];
      assert KeyBounded(keys, touches, maxVersions, op.key);
      if op.key !in keys {
        NothingWritten(writes, maxVersions);
      }
      history := InsertBounded(history, height, Entry(loc, op), maxVersions, Written(writes));
      HistoryRecorded(keys, before, Touch(height, Entry(loc, op)), maxVersions, history);
      if |history| == 0 {
        keys := keys - {op.key};
      } else {
        keys := keys[op.key := history];
      }
      touches := touches + [Touch(height, Entry(loc, op))];
    }

    method RecordOps(height: nat, start: nat, ops: seq<StateOp>)
      requires KeysBounded(keys, touches, maxVersions)
      modifies this`keys, this`touches
      ensures KeysBounded(keys, touches, maxVersions) && touches == old(touches) + TouchesOf(height, start, ops)
    {
      for i := 0 to |ops|
        invariant KeysBounded(keys, touches, maxVersions)
        invariant touches == old(touches) + TouchesOf(height, start, ops[..i])
      {
        RecordOp(height, start + i, ops[i]);
        assert ops[..i + 1][..i] == ops[..i];
      }
      assert ops[..|ops|] == ops;
    }

    /** Store the progress of a height, then evict the lowest heights with their proof nodes. */
    method RecordProgress(height: nat, p: Progress)
      requires proof.Valid() && proof.lists.Keys <= progress.Keys + {height}
      requires Bounded(progress, Written(summaries), maxProgress)
      modifies this`progress, this`summaries, proof
      ensures proof.Valid() && proof.leaked == old(proof.leaked) && PartOf(proof.nodes, old(proof.nodes))
      ensures proof.lists == Restricted(old(proof.lists), progress.Keys) && proof.lists.Keys <= progress.Keys
      ensures summaries == old(summaries) + [(height, p)] && Bounded(progress, Written(summaries), maxProgress)
    {
      ghost var before, full := progress, Written(summaries);
      assert (summaries + [(height, p)])[..|summaries|] == summaries;
      summaries := summaries + [(height, p)];
      progress := progress[height := p];
      PutSize(before, height, p);
      assert proof.lists == Restricted(proof.lists, progress.Keys);
      if maxProgress.None? {
        PutWithRoom(before, height, p, maxProgress, full);
        return;
      }
      EvictDown(maxProgress.value, before, full, height, p);
    }

    method EvictDown(max: nat, ghost before: map<nat, Progress>, ghost full: map<nat, Progress>,
                     ghost height: nat, ghost p: Progress)
      requires proof.Valid() && proof.lists == Restricted(proof.lists, progress.Keys)
      requires progress == before[height := p] && Bounded(before, full, Some(max))
      modifies this`progress, proof
      ensures proof.Valid() && proof.leaked == old(proof.leaked) && PartOf(proof.nodes, old(proof.nodes))
      ensures proof.lists == Restricted(old(proof.lists), progress.Keys)
      ensures Bounded(progress, full[height := p], Some(max))
    {
      if |progress| <= max {
        PutWithRoom(before, height, p, Some(max), full);
      }
      while |progress| > max
        invariant proof.Valid() && proof.leaked == old(proof.leaked) && PartOf(proof.nodes, old(proof.nodes))
        invariant proof.lists == Restricted(old(proof.lists), progress.Keys)
        invariant if |progress| > max then progress == before[height := p] else Bounded(progress, full[height := p], Some(max))
      {
        ghost var kept := progress.Keys;
        ghost var oldest := EvictOldest();
        RestrictedFurther(old(proof.lists), kept, oldest);
        PutWithoutRoom(before, height, p, max, full, oldest);
      }
    }

    method EvictOldest() returns (ghost oldest: nat)
      requires proof.Valid() && |progress| > 0
      modifies this`progress, proof
      ensures proof.Valid() && proof.leaked == old(proof.leaked) && PartOf(proof.nodes, old(proof.nodes))
      ensures IsLowest(old(progress).Keys, oldest) && progress == old(progress) - {oldest}
      ensures proof.lists == old(proof.lists) - {oldest}
    {
      assert progress.Keys != {} by {
        assert |progress| == |progress.Keys|;
      }
      var first := FirstKey(progress.Keys);
      oldest := first;
      progress := progress - {first};
      proof.Evict(first);
    }

    /** `submit_state`. A remembered height is ignored; otherwise every part of the summary is recorded.
        Counts leak exactly when a retained height's list of nodes is replaced. */
    method Submit(height: nat, p: Progress, start: nat, ops: seq<StateOp>, inner: seq<(Position, Digest)>)
      returns (accepted: bool)
      requires Valid()
      modifies this, submitted, proof
      ensures Valid()
      ensures accepted == (height !in Remembered(old(submitted.accepted), submitted.limit))
      ensures Books() == Submitted(Settings(), old(Books()), height, Positions(inner))
      ensures received == if accepted then old(received) + [Summary(height, p, start, ops, inner)] else old(received)
      ensures if accepted then
                && touches == old(touches) + TouchesOf(height, start, ops)
                && summaries == old(summaries) + [(height, p)]
                && submitted.accepted == old(submitted.accepted) + [height]
                && proof.leaked == old(proof.leaked)
                   + (if inner != [] && height in old(proof.lists) then multiset(old(proof.lists)[height]) else multiset{})
                && (inner != [] && height in progress ==>
                      height in proof.lists && proof.lists[height] == Positions(inner))
              else
                && touches == old(touches) && summaries == old(summaries)
                && keys == old(keys) && progress == old(progress)
                && proof.lists == old(proof.lists) && proof.nodes == old(proof.nodes) && proof.leaked == old(proof.leaked)
    {
      accepted := submitted.Claim(height);
      if !accepted {
        return;
      }
      ghost var before := summaries;
      RecordSummary(height, p, start, ops, inner);
      OneMoreHeight(before, height, p, old(submitted.accepted));
      GreatestUnique(progress.Keys, GreatestOf(Heights(submitted.accepted), maxProgress), Heights(submitted.accepted), maxProgress);
    }

    method RecordSummary(height: nat, p: Progress, start: nat, ops: seq<StateOp>, inner: seq<(Position, Digest)>)
      requires Kept()
      modifies this, proof
      ensures Kept() && received == old(received) + [Summary(height, p, start, ops, inner)]
      ensures touches == old(touches) + TouchesOf(height, start, ops) && summaries == old(summaries) + [(height, p)]
      ensures proof.leaked == old(proof.leaked)
              + if inner != [] && height in old(proof.lists) then multiset(old(proof.lists)[height]) else multiset{}
      ensures proof.lists ==
              Restricted(if inner == [] then old(proof.lists) else old(proof.lists)[height := Positions(inner)], progress.Keys)
    {
      ghost var summary, all, nodes := Summary(height, p, start, ops, inner), received, proof.nodes;
      proof.Record(height, inner);
      RecordOps(height, start, ops);
      RecordProgress(height, p);
      OneMoreSummary(all, summary, nodes, proof.nodes);
      received := all + [summary];
    }

    /** `query_state`. A key resolves to the last operation on it in the summary accepted for the greatest
        height: nothing if no summary touches it, if that operation is a deletion, or if the height is no
        longer among the greatest ones accepted. The proof is built for the progress accepted last for the
        height from the digests given last for the nodes it needs. */
    method Query(key: Digest, required: Required, build: Builder) returns (r: Option<Lookup>)
      requires Valid()
      ensures maxVersions == Some(0) || Untouched(received, key) ==> r == None
      ensures maxVersions != Some(0) ==>
                forall k, i, last {:trigger LastTouch(received, key, k, i), LastAt(received, received[k].height, last)} ::
                  LastTouch(received, key, k, i) && LastAt(received, received[k].height, last) ==>
                    r == Answer(received, k, i, received[last].progress, Shown(received, maxProgress), proof.nodes, required, build)
      ensures NodesCurrent(received, proof.nodes)
    {
      r := TryQuery(key, required, build);
      if Untouched(received, key) {
        UntouchedHasNoTop(received, key);
      }
      forall k, i, last | LastTouch(received, key, k, i) && LastAt(received, received[k].height, last) && maxVersions != Some(0)
        ensures r == Answer(received, k, i, received[last].progress, Shown(received, maxProgress), proof.nodes, required, build)
      {
        ResolvedIs(received, key, k, i, last, maxVersions, progress, maxProgress, proof.nodes, required, build);
      }
    }

    /** `try_query_state`, against the history of touches. Nothing is found if the last operation is a
        deletion, if the height's progress was evicted, if a node its proof needs is not stored, or if the
        proof cannot be built; and the nodes submitted with a retained height are always stored. */
    method TryQuery(key: Digest, required: Required, build: Builder) returns (r: Option<Lookup>)
      requires Valid()
      ensures r == Resolved(Top(WritesTo(touches, key)), maxVersions, progress, proof.nodes, required, build)
      ensures r.None? && maxVersions != Some(0) ==>
                match Top(WritesTo(touches, key))
                case None => true
                case Some((height, entry)) =>
                  || !entry.op.Update? || height !in progress || required(progress[height], entry.loc).None?
                  || height !in proof.lists
                  || (exists pos :: pos in required(progress[height], entry.loc).value && pos !in proof.lists[height])
                  || Unbuildable(build, progress[height], proof.nodes, required(progress[height], entry.loc).value)
    {
      assert KeyBounded(keys, touches, maxVersions, key);
      if key !in keys {
        TopIsHighest(WritesTo(touches, key));
        return None;
      }
      BoundedKeepsTop(keys[key], WritesTo(touches, key), maxVersions);
      TopOp(touches, key);
      assert keys[key].Keys != {};
      var height := LastKey(keys[key].Keys);
      var entry := keys[key][height];
      if !entry.op.Update? {
        return None;
      }
      if height !in progress {
        return None;
      }
      var needed := required(progress[height], entry.loc);
      if needed.None? {
        return None;
      }
      var digests := Gather(needed.value);
      if |digests| != |needed.value| {
        if height in proof.lists {
          NodesForList(proof.nodes, proof.counts, proof.lists, proof.leaked, height);
        }
        return None;
      }
      var built := build(progress[height], digests);
      if built.None? {
        if height in proof.lists {
          NodesForList(proof.nodes, proof.counts, proof.lists, proof.leaked, height);
        }
        return None;
      }
      r := Some(Lookup(height, progress[height], entry.loc, entry.op.value, built.value));
    }

    /** The stored digests of the given positions; shorter than the list when one is missing. */
    method Gather(positions: seq<Position>) returns (digests: seq<Digest>)
      ensures |digests| == |positions| <==> forall pos :: pos in positions ==> pos in proof.nodes
      ensures |digests| == |positions| ==> digests == Digests(proof.nodes, positions)
    {
      digests := [];
      for i := 0 to |positions|
        invariant |digests| <= i
        invariant |digests| == i <==> forall pos :: pos in positions[..i] ==> pos in proof.nodes
        invariant |digests| == i ==> digests == Digests(proof.nodes, positions[..i])
      {
        assert positions[..i + 1] == positions[..i] + [positions[i]];
        if positions[i] in proof.nodes {
          digests := digests + [proof.nodes[positions[i]]];
        }
      }
      assert positions[..|positions|] == positions;
    }
  }

  /** The heights whose progress is kept. */
  ghost function Shown(all: seq<Summary>, limit: Option<nat>): set<nat> {
    GreatestOf(set k | 0 <= k < |all| :: all[k].height, limit)
  }

  /** What the top write to a key resolves to. */
  ghost function Resolved(top: Option<(nat, Entry)>, maxVersions: Option<nat>, progress: map<nat, Progress>,
                          nodes: map<Position, Digest>, required: Required, build: Builder): Option<Lookup>
  {
    match top
    case None => None
    case Some((height, entry)) =>
      if maxVersions == Some(0) || !entry.op.Update? || height !in progress then None
      else
        var needed := required(progress[height], entry.loc);
        if needed.None? || exists pos :: pos in needed.value && pos !in nodes then None
        else
          match build(progress[height], Digests(nodes, needed.value))
          case None => None
          case Some(built) => Some(Lookup(height, progress[height], entry.loc, entry.op.value, built))
  }

  lemma ResolvedIs(
    all: seq<Summary>, key: Digest, k: int, i: int, last: int, maxVersions: Option<nat>, progress: map<nat, Progress>,
    maxProgress: Option<nat>, nodes: map<Position, Digest>, required: Required, build: Builder)
    requires LastTouch(all, key, k, i) && LastAt(all, all[k].height, last) && maxVersions != Some(0)
    requires Bounded(progress, Written(AllProgress(all)), maxProgress)
    ensures Resolved(Top(WritesTo(AllTouches(all), key)), maxVersions, progress, nodes, required, build)
         == Answer(all, k, i, all[last].progress, Shown(all, maxProgress), nodes, required, build)
  {
    LastTouchIsTop(all, key, k, i);
    ProgressShown(all, progress, maxProgress, all[k].height, last);
  }

  /** What operation `i` of summary `k` answers. */
  ghost function Answer(all: seq<Summary>, k: int, i: int, p: Progress, shown: set<nat>, nodes: map<Position, Digest>,
                        required: Required, build: Builder): Option<Lookup>
    requires 0 <= k < |all| && 0 <= i < |all[k].ops|
  {
    var height, loc := all[k].height, all[k].start + i;
    match all[k].ops[i]
    case Update(_, value) =>
      if height !in shown || required(p, loc).None? || exists pos :: pos in required(p, loc).value && pos !in nodes then None
      else
        var built := build(p, Digests(nodes, required(p, loc).value));
        if built.None? then None else Some(Lookup(height, p, loc, value, built.value))
    case _ => None
  }

  lemma LastTouchIsTop(all: seq<Summary>, key: Digest, k: int, i: int)
    requires LastTouch(all, key, k, i)
    ensures Top(WritesTo(AllTouches(all), key)) == Some((all[k].height, Entry(all[k].start + i, all[k].ops[i])))
  {
    TopIsLastTouch(all, key);
    TopTouch(all, key, Top(WritesTo(AllTouches(all), key)), k, i);
  }

  lemma UntouchedHasNoTop(all: seq<Summary>, key: Digest)
    requires Untouched(all, key)
    ensures Top(WritesTo(AllTouches(all), key)) == None
  {
    TopIsLastTouch(all, key);
  }

  lemma TopTouch(all: seq<Summary>, key: Digest, top: Option<(nat, Entry)>, k: int, i: int)
    requires TopIs(all, key, top) && LastTouch(all, key, k, i)
    ensures top == Some((all[k].height, Entry(all[k].start + i, all[k].ops[i])))
  {
    if top.Some? {
      var k', i' :| LastTouch(all, key, k', i') && top.value.0 == all[k'].height
                    && top.value.1 == Entry(all[k'].start + i', all[k'].ops[i']);
      assert Prevails(all, k, i, k', i') && Prevails(all, k', i', k, i);
    }
  }

  lemma ProgressShown(all: seq<Summary>, progress: map<nat, Progress>, limit: Option<nat>, height: nat, last: int)
    requires Bounded(progress, Written(AllProgress(all)), limit) && LastAt(all, height, last)
    ensures height in progress <==> height in Shown(all, limit)
    ensures height in progress ==> progress[height] == all[last].progress
  {
    var writes := AllProgress(all);
    WrittenIsLast(writes, height);
    assert writes[last] == (height, all[last].progress);
    HeightsWritten(all);
    GreatestUnique(progress.Keys, Shown(all, limit), Written(writes).Keys, limit);
  }

  lemma HeightsWritten(all: seq<Summary>)
    ensures Written(AllProgress(all)).Keys == set k | 0 <= k < |all| :: all[k].height
  {
    forall h: nat
      ensures h in Written(AllProgress(all)) <==> h in set k | 0 <= k < |all| :: all[k].height
    {
      WrittenIsLast(AllProgress(all), h);
      assert forall k :: 0 <= k < |all| ==> AllProgress(all)[k].0 == all[k].height;
    }
  }

  lemma OneMoreSummary(all: seq<Summary>, s: Summary, before: map<Position, Digest>, after: map<Position, Digest>)
    requires NodesCurrent(all, before) && PartOf(after, WithNodes(before, s.inner))
    ensures AllTouches(all + [s]) == AllTouches(all) + TouchesOf(s.height, s.start, s.ops)
    ensures AllProgress(all + [s]) == AllProgress(all) + [(s.height, s.progress)]
    ensures NodesCurrent(all + [s], after)
  {
    assert (all + [s])[..|all|] == all;
    NodesStayCurrent(all, before, s);
  }

  lemma OneMoreHeight(summaries: seq<(nat, Progress)>, height: nat, p: Progress, accepted: seq<nat>)
    requires Written(summaries).Keys == Heights(accepted)
    ensures Written(summaries + [(height, p)]).Keys == Heights(accepted + [height])
  {
    assert (summaries + [(height, p)])[..|summaries|] == summaries;
  }

  function Restricted(lists: map<nat, seq<Position>>, keys: set<nat>): map<nat, seq<Position>> {
    map h | h in lists && h in keys :: lists[h]
  }

  lemma RestrictedFurther(lists: map<nat, seq<Position>>, keys: set<nat>, h: nat)
    ensures Restricted(lists, keys) - {h} == Restricted(lists, keys - {h})
  {
  }

  function Digests(nodes: map<Position, Digest>, positions: seq<Position>): seq<Digest>
    requires forall pos :: pos in positions ==> pos in nodes
  {
    seq(|positions|, i requires 0 <= i < |positions| => nodes[positions[i]])
  }

  lemma {:induction false} TopOp(touches: seq<Touch>, key: Digest)
    ensures forall i :: 0 <= i < |WritesTo(touches, key)| ==>
              !WritesTo(touches, key)[i].1.op.Floor? && WritesTo(touches, key)[i].1.op.key == key
    ensures Top(WritesTo(touches, key)).Some? ==> !Top(WritesTo(touches, key)).value.1.op.Floor?
  {
    if touches != [] {
      TopOp(touches[..|touches| - 1], key);
      WritesPrefix(touches, key);
    }
  }

  lemma WritesPrefix(touches: seq<Touch>, key: Digest)
    requires touches != []
    ensures WritesTo(touches, key) != WritesTo(touches[..|touches| - 1], key) ==>
              WritesTo(touches, key)[..|WritesTo(touches, key)| - 1] == WritesTo(touches[..|touches| - 1], key)
  {
  }

  lemma WritesStep(touches: seq<Touch>, t: Touch, k: Digest)
    requires !t.entry.op.Floor?
    ensures WritesTo(touches + [t], k)
         == if k == t.entry.op.key then WritesTo(touches, k) + [(t.height, t.entry)] else WritesTo(touches, k)
  {
    assert (touches + [t])[..|touches|] == touches;
  }

  lemma HistoryRecorded(
    keys: map<Digest, map<nat, Entry>>, touches: seq<Touch>, t: Touch, limit: Option<nat>, history: map<nat, Entry>)
    requires KeysBounded(keys, touches, limit) && !t.entry.op.Floor?
    requires Bounded(history, Written(WritesTo(touches, t.entry.op.key))[t.height := t.entry], limit)
    ensures |history| == 0 <==> limit == Some(0)
    ensures KeysBounded(if |history| == 0 then keys - {t.entry.op.key} else keys[t.entry.op.key := history],
                        touches + [t], limit)
  {
    var key := t.entry.op.key;
    WritesStep(touches, t, key);
    EmptyOnlyAtZero(history, WritesTo(touches, key), t, limit);
    var after := if |history| == 0 then keys - {key} else keys[key := history];
    forall k
      ensures KeyBounded(after, touches + [t], limit, k)
    {
      WritesStep(touches, t, k);
      if k != key {
        assert KeyBounded(keys, touches, limit, k);
      }
    }
  }

  lemma NothingWritten(writes: seq<(nat, Entry)>, limit: Option<nat>)
    requires writes == [] || limit == Some(0)
    ensures Bounded(map[], Written(writes), limit)
  {
    var none: map<nat, Entry> := map[];
    assert none.Keys == {};
  }

  lemma EmptyOnlyAtZero(history: map<nat, Entry>, before: seq<(nat, Entry)>, t: Touch, limit: Option<nat>)
    requires Bounded(history, Written(before)[t.height := t.entry], limit)
    ensures |history| == 0 <==> limit == Some(0)
    ensures Written(before + [(t.height, t.entry)]) == Written(before)[t.height := t.entry]
  {
    var writes := before + [(t.height, t.entry)];
    assert writes[..|before|] == before;
    assert |history| == |history.Keys|;
    assert t.height in Written(writes);
  }

  /** A height is remembered exactly when it is among the last `limit` accepted ones, or was ever accepted when
      there is no limit. */
  lemma RememberedIff(accepted: seq<nat>, limit: Option<nat>, height: nat)
    ensures height in Remembered(accepted, limit) <==>
            exists i :: 0 <= i < |accepted| && accepted[i] == height && (limit.Some? ==> i + limit.value >= |accepted|)
  {
    if limit.Some? {
      var from := |accepted| - Min(limit.value, |accepted|);
      if i :| 0 <= i < |accepted| && accepted[i] == height && i + limit.value >= |accepted| {
        assert accepted[from..][i - from] == height;
      }
      if height in accepted[from..] {
        var j :| 0 <= j < |accepted| - from && accepted[from..][j] == height;
        assert accepted[from + j] == height;
      }
    }
  }
}
