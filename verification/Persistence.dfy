/** simulator/src/explorer_persistence.rs: the explorer's two SQL tables, the worker that writes them
    in batches and prunes them, and the reload that rebuilds the index from them. */
module Persistence {
  import opened Prelude
  import opened Retention
  import opened BlockIndex

  /******* The tables *******/

  datatype Row = Row(progress: Progress, indexedAt: nat)

  /** Each stored block has its row and its operations, numbered from zero; nothing else is stored. */
  ghost predicate Holds(blocks: map<nat, Row>, ops: map<(nat, nat), Op>, content: map<nat, Source>) {
    && blocks.Keys == content.Keys
    && (forall h :: h in content ==>
          content[h].progress.height == h && blocks[h] == Row(content[h].progress, content[h].indexedAt))
    && (forall k: (nat, nat) :: k in ops <==> k.0 in content && k.1 < |content[k.0].ops|)
    && (forall k: (nat, nat) :: k in ops ==> ops[k] == content[k.0].ops[k.1])
  }

  function Numbered(h: nat, ops: seq<Op>): map<(nat, nat), Op> {
    map i: nat | i < |ops| :: (h, i) := ops[i]
  }

  lemma NumberedMore(others: map<(nat, nat), Op>, h: nat, ops: seq<Op>, i: nat)
    requires i < |ops|
    ensures others + Numbered(h, ops[..i + 1]) == (others + Numbered(h, ops[..i]))[(h, i) := ops[i]]
  {
    var more, less := Numbered(h, ops[..i + 1]), Numbered(h, ops[..i]);
    forall k: (nat, nat)
      ensures k in more <==> k in less || k == (h, i)
      ensures k in more ==> more[k] == if k == (h, i) then ops[i] else less[k]
    {
      assert k.0 == h ==> k == (h, k.1);
    }
  }

  lemma HoldsReplaced(blocks: map<nat, Row>, ops: map<(nat, nat), Op>, content: map<nat, Source>, s: Source)
    requires Holds(blocks, ops, content)
    ensures
      var h := s.progress.height;
      Holds(blocks[h := Row(s.progress, s.indexedAt)],
            (map k | k in ops && k.0 != h :: ops[k]) + Numbered(h, s.ops), content[h := s])
  {
    var h := s.progress.height;
    var all := (map k | k in ops && k.0 != h :: ops[k]) + Numbered(h, s.ops);
    forall k: (nat, nat)
      ensures k in all <==> k.0 in content[h := s] && k.1 < |content[h := s][k.0].ops|
      ensures k in all ==> all[k] == content[h := s][k.0].ops[k.1]
    {
      if k.0 == h {
        assert k == (h, k.1);
      }
    }
  }

  class Database {
    var blocks: map<nat, Row>
    var ops: map<(nat, nat), Op>
    ghost var content: map<nat, Source>

    ghost predicate Valid()
      reads this
    {
      Holds(blocks, ops, content)
    }

    constructor ()
      ensures Valid() && content == map[]
    {
      blocks, ops, content := map[], map[], map[];
    }

    /** Replace one block: its row, then its operations after the old ones are deleted. */
    method PersistBlock(s: Source)
      requires Valid()
      modifies this
      ensures Valid() && content == old(content)[s.progress.height := s]
    {
      var h := s.progress.height;
      blocks := blocks[h := Row(s.progress, s.indexedAt)];
      ops := map k | k in ops && k.0 != h :: ops[k];
      ghost var others := ops;
      for i := 0 to |s.ops|
        invariant ops == others + Numbered(h, s.ops[..i])
        invariant blocks == old(blocks)[h := Row(s.progress, s.indexedAt)] && content == old(content)
      {
        ops := ops[(h, i) := s.ops[i]];
        NumberedMore(others, h, s.ops, i);
      }
      assert s.ops[..|s.ops|] == s.ops;
      HoldsReplaced(old(blocks), old(ops), content, s);
      content := content[h := s];
    }

    method PersistBlocks(batch: seq<Source>)
      requires Valid()
      modifies this
      ensures Valid() && content == Replaced(old(content), batch)
    {
      for i := 0 to |batch|
        invariant Valid() && content == Replaced(old(content), batch[..i])
      {
        PersistBlock(batch[i]);
        assert batch[..i + 1][..i] == batch[..i];
      }
      assert batch[..|batch|] == batch;
    }

    method PruneToMinHeight(minHeight: nat)
      requires Valid()
      modifies this
      ensures Valid() && content == AtLeast(old(content), minHeight)
    {
      ops := map k | k in ops && k.0 >= minHeight :: ops[k];
      blocks := map h | h in blocks && h >= minHeight :: blocks[h];
      content := AtLeast(content, minHeight);
    }

    /** The operations of a block by ascending index. */
    method LoadOps(h: nat) returns (r: seq<Op>)
      requires Valid() && h in content
      ensures r == content[h].ops
    {
      assert forall i: nat :: (h, i) in ops <==> i < |content[h].ops|;
      r := [];
      while (h, |r|) in ops
        invariant |r| <= |content[h].ops| && r == content[h].ops[..|r|]
        decreases |content[h].ops| - |r|
      {
        r := r + [ops[(h, |r|)]];
      }
    }

    /** Rows by descending height, no more than the limit, then sorted ascending. */
    method Load(limit: Option<nat>) returns (r: seq<Source>)
      requires Valid()
      ensures Newest(r, content, limit)
    {
      r := [];
      var left := blocks.Keys;
      while left != {} && (limit.None? || |r| < limit.value)
        invariant left <= blocks.Keys && Loaded(r, content, left)
        invariant limit.Some? ==> |r| <= limit.value
        decreases left
      {
        var h := LastKey(left);
        var loaded := LoadOps(h);
        LoadedMore(r, content, left, h);
        r := [Source(blocks[h].progress, loaded, blocks[h].indexedAt)] + r;
        left := left - {h};
      }
      LoadedSize(r, content, left);
    }
  }

  /** `r` lists the stored blocks outside `left` in ascending order, all above those in `left`. */
  ghost predicate Loaded(r: seq<Source>, content: map<nat, Source>, left: set<nat>) {
    && Ascending(r)
    && (forall i :: 0 <= i < |r| ==> r[i].progress.height in content && content[r[i].progress.height] == r[i])
    && (forall h :: h in content <==> h in left || h in Applied(r))
    && (forall i, h :: 0 <= i < |r| && h in left ==> h < r[i].progress.height)
  }

  /** `r` lists, in ascending order, the stored blocks of the `limit` greatest heights. */
  ghost predicate Newest(r: seq<Source>, content: map<nat, Source>, limit: Option<nat>) {
    && Ascending(r)
    && (forall i :: 0 <= i < |r| ==> r[i].progress.height in content && content[r[i].progress.height] == r[i])
    && Greatest(Applied(r), content.Keys, limit)
  }

  lemma LoadedMore(r: seq<Source>, content: map<nat, Source>, left: set<nat>, h: nat)
    requires Loaded(r, content, left) && h in left && (forall k :: k in left ==> k <= h) && content[h].progress.height == h
    ensures Loaded([content[h]] + r, content, left - {h})
  {
    var more := [content[h]] + r;
    assert forall i {:trigger more[i]} :: 0 < i < |more| ==> more[i] == r[i - 1];
    AppliedCons(content[h], r);
  }

  lemma AppliedCons(s: Source, r: seq<Source>)
    ensures Applied([s] + r) == {s.progress.height} + Applied(r)
  {
    var more := [s] + r;
    assert more[0] == s;
    forall k | k in Applied(r)
      ensures k in Applied(more)
    {
      var i :| 0 <= i < |r| && r[i].progress.height == k;
      assert more[i + 1] == r[i];
    }
  }

  lemma {:induction false} AppliedSize(r: seq<Source>)
    requires Ascending(r)
    ensures |Applied(r)| == |r|
  {
    if r != [] {
      var n := |r| - 1;
      AppliedSize(r[..n]);
      assert Applied(r) == Applied(r[..n]) + {r[n].progress.height};
    }
  }

  lemma LoadedSize(r: seq<Source>, content: map<nat, Source>, left: set<nat>)
    requires Loaded(r, content, left) && left <= content.Keys
    ensures |Applied(r)| == |r|
    ensures left == {} ==> Applied(r) == content.Keys
    ensures forall a, b :: a in Applied(r) && b in content && b !in Applied(r) ==> b < a
  {
    AppliedSize(r);
  }

  function AtLeast(content: map<nat, Source>, minHeight: nat): map<nat, Source> {
    map h | h in content && h >= minHeight :: content[h]
  }

  function Replaced(content: map<nat, Source>, batch: seq<Source>): map<nat, Source> {
    if batch == [] then content
    else
      var last := batch[|batch| - 1];
      Replaced(content, batch[..|batch| - 1])[last.progress.height := last]
  }

  ghost predicate Ascending(r: seq<Source>) {
    forall i, j :: 0 <= i < j < |r| ==> r[i].progress.height < r[j].progress.height
  }

  /******* What the tables should hold *******/

  /** The last block written for each height. */
  function Latest(written: seq<Source>): map<nat, Source> {
    Replaced(map[], written)
  }

  function TopHeight(p: seq<Source>): nat
    requires p != []
  {
    var last := p[|p| - 1].progress.height;
    if |p| == 1 then last else Max(TopHeight(p[..|p| - 1]), last)
  }

  /** The lowest height worth keeping below `top`, with saturating subtraction. */
  function LowHeight(top: nat, limit: nat): nat {
    Max(0, top - Max(0, limit - 1))
  }

  /** Everything written, or what of it lies in the window below the greatest height. */
  function Window(written: seq<Source>, limit: Option<nat>): map<nat, Source> {
    if limit.None? || written == [] then Latest(written)
    else AtLeast(Latest(written), LowHeight(TopHeight(written), limit.value))
  }

  /** Whatever order the blocks came in, the tables hold the window, and above it and below it nothing but
      what was written last; when they came in ascending order, the window and nothing else. */
  ghost predicate Follows(content: map<nat, Source>, written: seq<Source>, limit: Option<nat>, lastMin: Option<nat>) {
    if limit.None? || written == [] then content == Latest(written) && lastMin.None?
    else
      var low := LowHeight(TopHeight(written), limit.value);
      && AtLeast(content, low) == Window(written, limit)
      && Part(content, Latest(written))
      && (lastMin.Some? ==> lastMin.value <= low)
      && (Ascending(written) ==> content == Window(written, limit) && (lastMin.Some? ==> lastMin.value == low))
  }

  ghost predicate Part(content: map<nat, Source>, whole: map<nat, Source>) {
    forall h :: h in content ==> h in whole && content[h] == whole[h]
  }

  /******* The worker *******/

  class Worker {
    const db: Database
    const maxBlocks: Option<nat>
    const batchSize: nat
    var lastMinHeight: Option<nat>
    ghost var written: seq<Source>

    ghost predicate Valid()
      reads this, db
    {
      db.Valid() && batchSize > 0 && Follows(db.content, written, maxBlocks, lastMinHeight)
    }

    /** A worker started on tables that hold what earlier workers wrote. */
    constructor (db: Database, maxBlocks: Option<nat>, batchSize: nat, ghost written: seq<Source>)
      requires db.Valid() && Follows(db.content, written, maxBlocks, None)
      ensures Valid() && this.db == db && this.maxBlocks == maxBlocks && this.written == written
      ensures this.batchSize == Max(batchSize, 1)
    {
      this.db, this.maxBlocks, this.batchSize := db, maxBlocks, if batchSize == 0 then 1 else batchSize;
      this.lastMinHeight, this.written := None, written;
    }

    /** Drain the queue, in whatever order its blocks are and however they are split into batches. */
    method Drain(queue: seq<Source>)
      requires Valid()
      modifies this, db
      ensures Valid() && written == old(written) + queue
    {
      var rest := queue;
      while rest != []
        invariant Valid() && written + rest == old(written) + queue
        decreases |rest|
      {
        var n :| 1 <= n <= |rest| && n <= batchSize;
        WriteBatch(rest[..n]);
        rest := rest[n..];
      }
    }

    method WriteBatch(batch: seq<Source>)
      requires Valid() && batch != []
      modifies this, db
      ensures Valid() && written == old(written) + batch
    {
      ghost var before, content, last := written, db.content, lastMinHeight;
      db.PersistBlocks(batch);
      if maxBlocks.Some? {
        PruneAfter(batch);
        PruningIsRight(content, before, batch, maxBlocks.value, last);
      } else {
        LatestJoins(before, batch);
      }
      written := written + batch;
    }

    method PruneAfter(batch: seq<Source>)
      requires db.Valid() && maxBlocks.Some? && batch != []
      modifies db, this`lastMinHeight
      ensures db.Valid()
      ensures (db.content, lastMinHeight) ==
              Pruned(old(db.content), old(lastMinHeight), LowHeight(TopHeight(batch), maxBlocks.value))
    {
      var latest := MaxHeight(batch);
      var minHeight := Max(0, latest - Max(0, maxBlocks.value - 1));
      if lastMinHeight.None? || minHeight > lastMinHeight.value {
        db.PruneToMinHeight(minHeight);
        lastMinHeight := Some(minHeight);
      }
    }
  }

  /** Prune unless the minimum has not risen since the last time. */
  function Pruned(content: map<nat, Source>, lastMin: Option<nat>, minHeight: nat): (map<nat, Source>, Option<nat>) {
    if lastMin.None? || minHeight > lastMin.value then (AtLeast(content, minHeight), Some(minHeight))
    else (content, lastMin)
  }

  method MaxHeight(batch: seq<Source>) returns (latest: nat)
    requires batch != []
    ensures latest == TopHeight(batch)
  {
    latest := batch[0].progress.height;
    for i := 1 to |batch|
      invariant latest == TopHeight(batch[..i])
    {
      assert batch[..i + 1][..i] == batch[..i];
      if batch[i].progress.height > latest {
        latest := batch[i].progress.height;
      }
    }
    assert batch[..|batch|] == batch;
  }

  /******* One batch *******/

  lemma {:induction false} LatestJoins(written: seq<Source>, batch: seq<Source>)
    ensures Latest(written + batch) == Replaced(Latest(written), batch)
  {
    if batch == [] {
      assert written + batch == written;
    } else {
      var n := |batch| - 1;
      LatestJoins(written, batch[..n]);
      assert (written + batch)[..|written| + n] == written + batch[..n];
    }
  }

  lemma {:induction false} TopJoins(written: seq<Source>, batch: seq<Source>)
    requires batch != []
    ensures TopHeight(written + batch) == if written == [] then TopHeight(batch) else Max(TopHeight(written), TopHeight(batch))
  {
    if written == [] {
      assert written + batch == batch;
    } else {
      var n := |batch| - 1;
      assert (written + batch)[..|written| + n] == written + batch[..n];
      if n == 0 {
        assert written + batch[..n] == written;
      } else {
        TopJoins(written, batch[..n]);
      }
    }
  }

  /** What a height holds after a batch depends on what it held before, or not even on that. */
  lemma {:induction false} ReplacedAt(a: map<nat, Source>, b: map<nat, Source>, batch: seq<Source>, h: nat)
    requires h in a <==> h in b
    requires h in a ==> a[h] == b[h]
    ensures h in Replaced(a, batch) <==> h in Replaced(b, batch)
    ensures h in Replaced(a, batch) ==> Replaced(a, batch)[h] == Replaced(b, batch)[h]
  {
    if batch != [] {
      ReplacedAt(a, b, batch[..|batch| - 1], h);
    }
  }

  lemma {:induction false} ReplacedKeepsPart(a: map<nat, Source>, b: map<nat, Source>, batch: seq<Source>)
    requires Part(a, b)
    ensures Part(Replaced(a, batch), Replaced(b, batch))
  {
    if batch != [] {
      ReplacedKeepsPart(a, b, batch[..|batch| - 1]);
    }
  }

  lemma ReplacedAbove(a: map<nat, Source>, b: map<nat, Source>, batch: seq<Source>, low: nat)
    requires AtLeast(a, low) == AtLeast(b, low)
    ensures AtLeast(Replaced(a, batch), low) == AtLeast(Replaced(b, batch), low)
  {
    forall h: nat | h >= low
      ensures h in Replaced(a, batch) <==> h in Replaced(b, batch)
      ensures h in Replaced(a, batch) ==> Replaced(a, batch)[h] == Replaced(b, batch)[h]
    {
      assert h in a <==> h in AtLeast(a, low);
      assert h in b <==> h in AtLeast(b, low);
      assert h in a ==> AtLeast(a, low)[h] == a[h] && AtLeast(b, low)[h] == b[h];
      ReplacedAt(a, b, batch, h);
    }
  }

  lemma {:induction false} ReplacedHeights(a: map<nat, Source>, batch: seq<Source>, h: nat)
    requires h in Replaced(a, batch)
    ensures h in a || exists i :: 0 <= i < |batch| && batch[i].progress.height == h
  {
    if batch != [] {
      var n := |batch| - 1;
      if h != batch[n].progress.height {
        ReplacedHeights(a, batch[..n], h);
        if h !in a {
          var i :| 0 <= i < n && batch[..n][i].progress.height == h;
          assert batch[i].progress.height == h;
        }
      }
    }
  }

  lemma AtLeastTwice(content: map<nat, Source>, a: nat, b: nat)
    ensures AtLeast(AtLeast(content, a), b) == AtLeast(content, Max(a, b))
  {
  }

  lemma SameAbove(a: map<nat, Source>, b: map<nat, Source>, low: nat, higher: nat)
    requires AtLeast(a, low) == AtLeast(b, low) && low <= higher
    ensures AtLeast(a, higher) == AtLeast(b, higher)
  {
    AtLeastTwice(a, low, higher);
    AtLeastTwice(b, low, higher);
  }

  lemma {:induction false} TopOfAscending(p: seq<Source>)
    requires Ascending(p) && p != []
    ensures TopHeight(p) == p[|p| - 1].progress.height
  {
    if |p| > 1 {
      TopOfAscending(p[..|p| - 1]);
    }
  }

  /** A batch on empty tables, or on tables that follow what was written before, leaves the window: the
      batch's own minimum is never above it, and in ascending order it is exactly its lower end. */
  lemma PruningIsRight(content: map<nat, Source>, written: seq<Source>, batch: seq<Source>, limit: nat, lastMin: Option<nat>)
    requires Follows(content, written, Some(limit), lastMin) && batch != []
    ensures
      var (after, newMin) := Pruned(Replaced(content, batch), lastMin, LowHeight(TopHeight(batch), limit));
      Follows(after, written + batch, Some(limit), newMin)
  {
    var all, persisted := written + batch, Replaced(content, batch);
    var low, minHeight := LowHeight(TopHeight(all), limit), LowHeight(TopHeight(batch), limit);
    var (after, newMin) := Pruned(persisted, lastMin, minHeight);
    TopJoins(written, batch);
    LatestJoins(written, batch);
    WindowPersists(content, written, batch, limit, lastMin);
    AtLeastTwice(persisted, minHeight, low);
    PartPersists(content, written, batch, limit, lastMin);
    if Ascending(all) {
      AscendingBatch(content, written, batch, limit, lastMin);
    }
  }

  lemma WindowPersists(content: map<nat, Source>, written: seq<Source>, batch: seq<Source>, limit: nat, lastMin: Option<nat>)
    requires Follows(content, written, Some(limit), lastMin) && batch != []
    ensures AtLeast(Replaced(content, batch), LowHeight(TopHeight(written + batch), limit)) == Window(written + batch, Some(limit))
  {
    TopJoins(written, batch);
    LatestJoins(written, batch);
    if written != [] {
      var low := LowHeight(TopHeight(written), limit);
      ReplacedAbove(content, Latest(written), batch, low);
      SameAbove(Replaced(content, batch), Latest(written + batch), low, LowHeight(TopHeight(written + batch), limit));
    }
  }

  lemma PartPersists(content: map<nat, Source>, written: seq<Source>, batch: seq<Source>, limit: nat, lastMin: Option<nat>)
    requires Follows(content, written, Some(limit), lastMin)
    ensures Part(Replaced(content, batch), Latest(written + batch))
  {
    LatestJoins(written, batch);
    ReplacedKeepsPart(content, Latest(written), batch);
  }

  lemma AscendingParts(written: seq<Source>, batch: seq<Source>)
    requires Ascending(written + batch) && batch != []
    ensures Ascending(written) && (written + batch)[|written|..] == batch && TopHeight(batch) == TopHeight(written + batch)
    ensures written != [] ==>
              (written + batch)[|written| - 1] == written[|written| - 1] && TopHeight(written) <= TopHeight(batch)
  {
    var all := written + batch;
    assert all[|written|..] == batch && all[..|written|] == written;
    assert Ascending(batch) && all[|all| - 1] == batch[|batch| - 1];
    TopOfAscending(all);
    TopOfAscending(batch);
    if written != [] {
      TopOfAscending(written);
    }
  }

  /** In ascending order the batch's minimum is the lower end of the window; and when it has not risen,
      nothing below it is left. */
  lemma AscendingBatch(content: map<nat, Source>, written: seq<Source>, batch: seq<Source>, limit: nat, lastMin: Option<nat>)
    requires Follows(content, written, Some(limit), lastMin) && batch != [] && Ascending(written + batch)
    ensures LowHeight(TopHeight(batch), limit) == LowHeight(TopHeight(written + batch), limit)
    ensures lastMin.Some? ==> lastMin.value <= LowHeight(TopHeight(batch), limit)
    ensures lastMin == Some(LowHeight(TopHeight(batch), limit)) ==> Replaced(content, batch) == Window(written + batch, Some(limit))
  {
    var all := written + batch;
    AscendingParts(written, batch);
    if written != [] {
      TopOfAscending(written);
      var low := LowHeight(TopHeight(written), limit);
      WindowPersists(content, written, batch, limit, lastMin);
      if lastMin == Some(LowHeight(TopHeight(batch), limit)) {
        NothingBelow(content, batch, low, |written|, all);
      }
    }
  }

  lemma NothingBelow(content: map<nat, Source>, batch: seq<Source>, low: nat, n: nat, all: seq<Source>)
    requires Ascending(all) && 0 < n <= |all| && all[n..] == batch && low <= all[n - 1].progress.height
    requires AtLeast(content, low) == content
    ensures AtLeast(Replaced(content, batch), low) == Replaced(content, batch)
  {
    forall h | h in Replaced(content, batch)
      ensures h >= low
    {
      ReplacedHeights(content, batch, h);
      if h in content {
        assert h in AtLeast(content, low);
      } else {
        var i :| 0 <= i < |batch| && batch[i].progress.height == h;
        assert all[n + i] == batch[i];
      }
    }
  }
}
