/** Reloading the explorer from its tables, against the live index
    (simulator/src/explorer_persistence.rs:45-74 and 272-325, simulator/src/explorer.rs:607-723). */
module Reload {
  import opened Prelude
  import opened Retention
  import opened BlockIndex
  import opened Persistence

  /******* The blocks written *******/

  lemma {:induction false} LatestHeights(p: seq<Source>)
    ensures Latest(p).Keys == Applied(p)
    ensures forall h :: h in Latest(p) ==> Latest(p)[h].progress.height == h
  {
    if p != [] {
      LatestHeights(p[..|p| - 1]);
      AppliedSnoc(p);
    }
  }

  lemma {:induction false} LatestAt(p: seq<Source>, i: nat)
    requires Ascending(p) && i < |p|
    ensures p[i].progress.height in Latest(p) && Latest(p)[p[i].progress.height] == p[i]
  {
    var n := |p| - 1;
    if i < n {
      LatestAt(p[..n], i);
    }
  }

  lemma {:induction false} TopIsHighest(p: seq<Source>)
    requires p != []
    ensures IsHighest(Latest(p).Keys, TopHeight(p))
  {
    var n := |p| - 1;
    if n == 0 {
      assert Latest(p[..n]) == map[];
    } else {
      TopIsHighest(p[..n]);
    }
  }

  /** A listing in ascending order determines, and is determined by, its blocks. */
  lemma {:induction false} SameListing(a: seq<Source>, b: seq<Source>)
    requires Ascending(a) && Ascending(b) && Latest(a) == Latest(b)
    ensures a == b
  {
    if a == [] || b == [] {
      LatestHeights(a);
      LatestHeights(b);
      NoneApplied(a, b);
    } else {
      var m, n := |a| - 1, |b| - 1;
      TopIsHighest(a);
      TopIsHighest(b);
      TopOfAscending(a);
      TopOfAscending(b);
      LatestAt(a, m);
      LatestAt(b, n);
      FrontOf(a);
      FrontOf(b);
      SameListing(a[..m], b[..n]);
    }
  }

  lemma NoneApplied(a: seq<Source>, b: seq<Source>)
    requires (a == [] || b == []) && Applied(a) == Applied(b)
    ensures a == b
  {
    SomeApplied(a);
    SomeApplied(b);
  }

  lemma SomeApplied(p: seq<Source>)
    ensures p == [] <==> Applied(p) == {}
  {
    if p != [] {
      assert p[0].progress.height in Applied(p);
    }
  }

  lemma FrontOf(p: seq<Source>)
    requires Ascending(p) && p != []
    ensures Latest(p[..|p| - 1]) == Latest(p) - {p[|p| - 1].progress.height}
  {
    var front, h := p[..|p| - 1], p[|p| - 1].progress.height;
    LatestHeights(front);
    assert h !in Applied(front);
  }

  lemma ListingLatest(r: seq<Source>, content: map<nat, Source>)
    requires Ascending(r) && Applied(r) == content.Keys
    requires forall i :: 0 <= i < |r| ==> r[i].progress.height in content && content[r[i].progress.height] == r[i]
    ensures Latest(r) == content
  {
    LatestHeights(r);
    forall h | h in content
      ensures Latest(r)[h] == content[h]
    {
      var i :| 0 <= i < |r| && r[i].progress.height == h;
      LatestAt(r, i);
    }
  }

  /******* The window *******/

  lemma {:induction false} FewInWindow(keys: set<nat>, top: nat, n: nat)
    requires forall h :: h in keys ==> top - n < h <= top
    ensures |keys| <= n
  {
    if n == 0 {
      assert keys == {};
    } else {
      var low := top - n + 1;
      FewInWindow(if low >= 0 then keys - {low} else keys, top, n - 1);
    }
  }

  /** With gaps between the stored heights, pruning to the window below the greatest one keeps what the
      live index retains exactly when all of that lies in the window. */
  lemma PruningKeepsLiveIff(content: map<nat, Source>, top: nat, limit: nat)
    requires limit > 0 && IsHighest(content.Keys, top)
    ensures AtLeast(content, Max(0, top - (limit - 1))).Keys == GreatestOf(content.Keys, Some(limit))
            <==> forall h :: h in GreatestOf(content.Keys, Some(limit)) ==> h + limit > top
  {
    var live, pruned := GreatestOf(content.Keys, Some(limit)), AtLeast(content, Max(0, top - (limit - 1))).Keys;
    assert forall h :: h in pruned <==> h in content && h + limit > top;
    if forall h :: h in live ==> h + limit > top {
      forall h | h in pruned
        ensures h in live
      {
        FewInWindow(live + {h}, top, limit);
      }
      assert pruned == live;
    } else {
      var h :| h in live && h + limit <= top;
      assert h !in pruned;
    }
  }

  lemma WindowFits(written: seq<Source>, limit: nat)
    requires limit > 0
    ensures |Window(written, Some(limit)).Keys| <= limit
  {
    if written != [] {
      TopIsHighest(written);
      FewInWindow(Window(written, Some(limit)).Keys, TopHeight(written), limit);
    }
  }

  /** Loading from the window loads all of it. */
  lemma LoadsWindow(r: seq<Source>, written: seq<Source>, limit: Option<nat>)
    requires limit != Some(0) && Newest(r, Window(written, limit), limit)
    ensures Latest(r) == Window(written, limit)
  {
    var content := Window(written, limit);
    if limit.Some? {
      WindowFits(written, limit.value);
    }
    GreatestUnique(Applied(r), content.Keys, content.Keys, limit);
    ListingLatest(r, content);
  }

  /** In ascending order what is loaded is the last part of everything written, oldest first: all of it
      without a limit, and the last `limit` blocks when their heights are successive. */
  lemma LoadReturnsSuffix(r: seq<Source>, all: seq<Source>, limit: Option<nat>)
    requires Ascending(all) && Newest(r, Window(all, limit), limit)
    ensures |r| <= |all| && r == all[|all| - |r|..]
    ensures limit.None? ==> r == all
    ensures Contiguous(all) && limit.Some? ==> |r| == Min(limit.value, |all|)
  {
    AppliedSize(r);
    if limit == Some(0) {
      assert Applied(r) == {};
    } else {
      LoadsWindow(r, all, limit);
      var k := WindowStart(all, limit);
      SameListing(r, all[k..]);
      if Contiguous(all) && limit.Some? && all != [] {
        TopOfAscending(all);
      }
    }
  }

  /** Where the window begins. */
  lemma WindowStart(all: seq<Source>, limit: Option<nat>) returns (k: nat)
    requires Ascending(all)
    ensures k <= |all| && Ascending(all[k..]) && Latest(all[k..]) == Window(all, limit)
    ensures limit.None? ==> k == 0
    ensures limit.Some? && all != [] ==>
              && (k > 0 ==> all[k - 1].progress.height < LowHeight(TopHeight(all), limit.value))
              && (k < |all| ==> all[k].progress.height >= LowHeight(TopHeight(all), limit.value))
  {
    k := 0;
    if limit.Some? && all != [] {
      var low := LowHeight(TopHeight(all), limit.value);
      while k < |all| && all[k].progress.height < low
        invariant k <= |all| && (k > 0 ==> all[k - 1].progress.height < low)
      {
        k := k + 1;
      }
      SuffixIsAtLeast(all, k, low);
    }
    assert all[0..] == all;
  }

  lemma SuffixIsAtLeast(all: seq<Source>, k: nat, low: nat)
    requires Ascending(all) && k <= |all|
    requires k > 0 ==> all[k - 1].progress.height < low
    requires k < |all| ==> all[k].progress.height >= low
    ensures Latest(all[k..]) == AtLeast(Latest(all), low)
  {
    var tail, part := all[k..], AtLeast(Latest(all), low);
    forall i | 0 <= i < |tail|
      ensures tail[i].progress.height in part && part[tail[i].progress.height] == tail[i]
    {
      LatestAt(all, k + i);
    }
    SuffixHeights(all, k, low);
    assert Ascending(tail);
    ListingLatest(tail, part);
  }

  lemma SuffixHeights(all: seq<Source>, k: nat, low: nat)
    requires Ascending(all) && k <= |all|
    requires k > 0 ==> all[k - 1].progress.height < low
    requires k < |all| ==> all[k].progress.height >= low
    ensures Applied(all[k..]) == AtLeast(Latest(all), low).Keys
  {
    LatestHeights(all);
    forall i | 0 <= i < |all|
      ensures i >= k <==> all[i].progress.height >= low
    {
    }
    forall h | h in AtLeast(Latest(all), low)
      ensures h in Applied(all[k..])
    {
      var i :| 0 <= i < |all| && all[i].progress.height == h;
      assert all[k..][i - k] == all[i];
    }
  }

  /** The window holds, for each height written that lies less than `limit` below every other (at least one), the
      block written for it last. */
  lemma WindowIs(written: seq<Source>, limit: Option<nat>, h: nat)
    ensures h in Window(written, limit) <==>
              && (exists i :: 0 <= i < |written| && written[i].progress.height == h)
              && (limit.Some? ==> forall i :: 0 <= i < |written| ==> h + Max(limit.value, 1) > written[i].progress.height)
    ensures forall i :: 0 <= i < |written| && LastFor(written, h, i) && h in Window(written, limit) ==> Window(written, limit)[h] == written[i]
  {
    LatestHeights(written);
    LatestIsLast(written, h);
    if written != [] && limit.Some? {
      TopIsHighest(written);
      TopAbove(written, h, limit.value);
    }
  }

  lemma TopAbove(written: seq<Source>, h: nat, limit: nat)
    requires written != [] && IsHighest(Applied(written), TopHeight(written))
    ensures h >= LowHeight(TopHeight(written), limit) <==>
              forall i :: 0 <= i < |written| ==> h + Max(limit, 1) > written[i].progress.height
  {
    var top :| 0 <= top < |written| && written[top].progress.height == TopHeight(written);
    forall i | 0 <= i < |written|
      ensures written[i].progress.height <= TopHeight(written)
    {
      assert written[i].progress.height in Applied(written);
    }
  }

  /** Block `i` is the last one written for the height. */
  ghost predicate LastFor(written: seq<Source>, h: nat, i: int) {
    && 0 <= i < |written| && written[i].progress.height == h
    && forall j :: i < j < |written| ==> written[j].progress.height != h
  }

  lemma {:induction false} LatestIsLast(written: seq<Source>, h: nat)
    ensures forall i :: LastFor(written, h, i) ==> h in Latest(written) && Latest(written)[h] == written[i]
  {
    if written != [] {
      var n := |written| - 1;
      LatestIsLast(written[..n], h);
      forall i | LastFor(written, h, i)
        ensures h in Latest(written) && Latest(written)[h] == written[i]
      {
        if i < n {
          assert LastFor(written[..n], h, i);
        }
      }
    }
  }

  /** Successive heights: the newest `limit` blocks are the window. */
  predicate Contiguous(r: seq<Source>) {
    forall i :: 0 <= i < |r| ==> r[i].progress.height == r[0].progress.height + i
  }

  /******* The index after blocks in ascending order *******/

  function ParentIn(latest: map<nat, Source>, h: nat): Option<Digest> {
    if h > 0 && h - 1 in latest then Some(latest[h - 1].progress.digest) else None
  }

  /** Each retained block was indexed from the one written for its height, and its parent is the block
      written for the height before, whether or not that one is retained. */
  ghost predicate Settled(ix: Index, sources: map<nat, Source>, latest: map<nat, Source>) {
    HeightsDescribed(ix, sources) && Part(sources, latest) && Parented(ix.blocks, latest)
  }

  ghost predicate Parented(blocks: map<nat, Block>, latest: map<nat, Source>) {
    forall h {:trigger blocks[h]} :: h in blocks ==> blocks[h].parent == ParentIn(latest, h)
  }

  lemma {:induction false} AscendingSettles(p: seq<Source>, limit: Option<nat>)
    requires Ascending(p) && limit != Some(0)
    ensures Settled(IndexAll(p, limit), SourcesAll(p, limit), Latest(p))
  {
    if p != [] {
      var n := |p| - 1;
      AscendingSettles(p[..n], limit);
      RetainsGreatestHeights(p[..n], limit);
      LatestHeights(p[..n]);
      HigherThanAll(p, n);
      SourcesStep(p, limit);
      OneMoreSettles(IndexAll(p[..n], limit), SourcesAll(p[..n], limit), Latest(p[..n]), p[n], limit);
    }
  }

  lemma HigherThanAll(p: seq<Source>, n: nat)
    requires Ascending(p) && |p| == n + 1
    ensures forall h :: h in Latest(p[..n]) ==> h < p[n].progress.height
  {
    LatestHeights(p[..n]);
  }

  lemma OneMoreSettles(ix: Index, sources: map<nat, Source>, latest: map<nat, Source>, s: Source, limit: Option<nat>)
    requires Settled(ix, sources, latest) && Within(ix, limit) && limit != Some(0)
    requires Greatest(ix.blocks.Keys, latest.Keys, limit) && forall h :: h in latest ==> h < s.progress.height
    ensures
      var after := Indexed(ix, s, limit);
      Settled(after, Survivors(sources, s, after.blocks.Keys), latest[s.progress.height := s])
  {
    var after := Indexed(ix, s, limit);
    IndexedShape(ix, s, limit);
    HeightsStep(ix, sources, s, after);
    PartGrows(sources, latest, s, after.blocks.Keys);
    ParentOfNext(ix, sources, latest, s, limit);
    ParentsCarryOver(ix, latest, s, after);
  }

  lemma PartGrows(sources: map<nat, Source>, latest: map<nat, Source>, s: Source, kept: set<nat>)
    requires Part(sources, latest)
    ensures Part(Survivors(sources, s, kept), latest[s.progress.height := s])
  {
  }

  /** The highest block so far is retained, so a parent is found exactly when it was written. */
  lemma ParentOfNext(ix: Index, sources: map<nat, Source>, latest: map<nat, Source>, s: Source, limit: Option<nat>)
    requires HeightsDescribed(ix, sources) && Part(sources, latest) && limit != Some(0)
    requires Greatest(ix.blocks.Keys, latest.Keys, limit) && forall h :: h in latest ==> h < s.progress.height
    ensures ParentOf(ix.blocks, s.progress.height) == ParentIn(latest, s.progress.height)
  {
    var h := s.progress.height;
    if h > 0 && h - 1 in latest {
      HighestIsKept(ix.blocks.Keys, latest.Keys, limit, h - 1);
      assert Described(ix, sources, h - 1);
    }
  }

  lemma HighestIsKept(kept: set<nat>, all: set<nat>, limit: Option<nat>, top: nat)
    requires Greatest(kept, all, limit) && limit != Some(0) && IsHighest(all, top)
    ensures top in kept
  {
  }

  lemma ParentsCarryOver(ix: Index, latest: map<nat, Source>, s: Source, after: Index)
    requires Parented(ix.blocks, latest) && OneStep(ix, s, after)
    requires ParentOf(ix.blocks, s.progress.height) == ParentIn(latest, s.progress.height)
    requires forall h :: h in ix.blocks ==> h < s.progress.height
    ensures Parented(after.blocks, latest[s.progress.height := s])
  {
    forall h | h in after.blocks
      ensures after.blocks[h].parent == ParentIn(latest[s.progress.height := s], h)
    {
      if h != s.progress.height {
        assert after.blocks[h] == ix.blocks[h];
      }
    }
  }

  /******* Distinct digests *******/

  /** No blocks of different heights share a block digest or a transaction digest. */
  ghost predicate DistinctDigests(p: seq<Source>) {
    forall i, j :: 0 <= i < j < |p| && p[i].progress.height != p[j].progress.height ==> Apart(p[i], p[j])
  }

  ghost predicate Apart(a: Source, b: Source) {
    a.progress.digest != b.progress.digest && forall d :: d in TxDigests(a.ops) ==> d !in TxDigests(b.ops)
  }

  lemma CoherentApart(ix: Index, sources: map<nat, Source>, g: nat, h: nat)
    requires Coherent(ix, sources) && g in sources && h in sources && g != h
    ensures Apart(sources[g], sources[h])
  {
    assert Described(ix, sources, g) && Described(ix, sources, h);
    assert ix.byHash[ix.byHeight[g]] == ix.blocks[g] && ix.byHash[ix.byHeight[h]] == ix.blocks[h];
    forall d | d in TxDigests(sources[g].ops)
      ensures d !in TxDigests(sources[h].ops)
    {
      Owner(ix.txs, sources, d, g);
    }
  }

  lemma FreshWhenApart(ix: Index, sources: map<nat, Source>, s: Source)
    requires Coherent(ix, sources) && forall h :: h in sources ==> Apart(sources[h], s)
    ensures Fresh(ix, s)
  {
    if s.progress.digest in ix.byHash {
      var g := HashSource(ix, sources, s.progress.digest);
    }
    forall d | d in TxDigests(s.ops)
      ensures d !in ix.txs
    {
      if d in ix.txs {
        var g := TxSource(ix, sources, d);
      }
    }
  }

  lemma HashSource(ix: Index, sources: map<nat, Source>, d: Digest) returns (g: nat)
    requires Coherent(ix, sources) && d in ix.byHash
    ensures g in sources && sources[g].progress.digest == d
  {
    g := ix.byHash[d].height;
    assert g in ix.byHeight && Described(ix, sources, g);
  }

  lemma TxSource(ix: Index, sources: map<nat, Source>, d: Digest) returns (g: nat)
    requires Coherent(ix, sources) && d in ix.txs
    ensures g in sources && d in TxDigests(sources[g].ops)
  {
    g := ix.txs[d].height;
    assert Explained(ix.txs[d], sources, d);
  }

  lemma DistinctBlockIsFresh(before: seq<Source>, s: Source, limit: Option<nat>)
    requires DistinctDigests(before + [s]) && FreshRun(before, limit)
    requires s.progress.height !in IndexAll(before, limit).blocks
    ensures Fresh(IndexAll(before, limit), s)
  {
    var sources := SourcesAll(before, limit);
    FreshRunsStayCoherent(before, limit);
    SourcesArrived(before, limit);
    forall h | h in sources
      ensures Apart(sources[h], s)
    {
      var i :| 0 <= i < |before| && before[i] == sources[h];
      assert (before + [s])[i] == before[i] && (before + [s])[|before|] == s;
    }
    FreshWhenApart(IndexAll(before, limit), sources, s);
  }

  /** Blocks without shared digests are fresh when they arrive, in whatever order and however often. */
  lemma {:induction false} DistinctRunsAreFresh(p: seq<Source>, limit: Option<nat>)
    requires DistinctDigests(p)
    ensures FreshRun(p, limit)
  {
    if p != [] {
      var n := |p| - 1;
      assert p == p[..n] + [p[n]];
      DistinctRunsAreFresh(p[..n], limit);
      if p[n].progress.height !in IndexAll(p[..n], limit).blocks {
        DistinctBlockIsFresh(p[..n], p[n], limit);
      }
      assert forall i :: 0 <= i < n ==> p[..n][..i] == p[..i];
    }
  }

  /******* What is persisted of a run *******/

  /** Only blocks that the index takes are handed to the worker. */
  ghost function Persisted(run: seq<Source>, limit: Option<nat>): seq<Source> {
    if run == [] then []
    else
      var n := |run| - 1;
      Persisted(run[..n], limit) + if run[n].progress.height in IndexAll(run[..n], limit).blocks then [] else [run[n]]
  }

  lemma PersistedStep(run: seq<Source>, limit: Option<nat>)
    requires run != []
    ensures
      var n := |run| - 1;
      Persisted(run, limit) ==
      if run[n].progress.height in IndexAll(run[..n], limit).blocks then Persisted(run[..n], limit)
      else Persisted(run[..n], limit) + [run[n]]
  {
  }

  lemma AppliedMore(p: seq<Source>, s: Source)
    ensures Applied(p + [s]) == Applied(p) + {s.progress.height}
  {
    AppliedSnoc(p + [s]);
    assert (p + [s])[..|p|] == p;
  }

  /** Every height that arrived was persisted. */
  lemma {:induction false} PersistedHeights(run: seq<Source>, limit: Option<nat>)
    ensures Applied(Persisted(run, limit)) == Applied(run)
  {
    if run != [] {
      var n := |run| - 1;
      PersistedHeights(run[..n], limit);
      RetainsGreatestHeights(run[..n], limit);
      AppliedSnoc(run);
      PersistedStep(run, limit);
      AppliedMore(Persisted(run[..n], limit), run[n]);
    }
  }

  lemma LatestSnoc(p: seq<Source>, s: Source)
    ensures Latest(p + [s]) == Latest(p)[s.progress.height := s]
  {
    assert (p + [s])[..|p|] == p;
  }

  /** The blocks retained were persisted, and no other block for their heights after them. */
  lemma {:induction false} RetainedArePersisted(run: seq<Source>, limit: Option<nat>)
    ensures Part(SourcesAll(run, limit), Latest(Persisted(run, limit)))
  {
    if run != [] {
      var n := |run| - 1;
      RetainedArePersisted(run[..n], limit);
      PersistedStep(run, limit);
      if run[n].progress.height !in IndexAll(run[..n], limit).blocks {
        SourcesStep(run, limit);
        LatestSnoc(Persisted(run[..n], limit), run[n]);
        PartGrows(SourcesAll(run[..n], limit), Latest(Persisted(run[..n], limit)), run[n], IndexAll(run, limit).blocks.Keys);
      }
    }
  }

  lemma {:induction false} AscendingIsPersisted(run: seq<Source>, limit: Option<nat>)
    requires Ascending(run)
    ensures Persisted(run, limit) == run
  {
    if run != [] {
      var n := |run| - 1;
      AscendingIsPersisted(run[..n], limit);
      PersistedStep(run, limit);
      HighestIsNew(run, n, limit);
      FrontAndLast(run, n);
    }
  }

  lemma FrontAndLast(run: seq<Source>, n: nat)
    requires |run| == n + 1
    ensures run[..n] + [run[n]] == run
  {
  }

  lemma HighestIsNew(run: seq<Source>, n: nat, limit: Option<nat>)
    requires Ascending(run) && |run| == n + 1
    ensures run[n].progress.height !in IndexAll(run[..n], limit).blocks
  {
    RetainsGreatestHeights(run[..n], limit);
    HigherThanAll(run, n);
    LatestHeights(run[..n]);
  }

  /******* Live and reloaded *******/

  /** The same blocks and transactions under the same keys, each block with the parent found among them. */
  ghost predicate SameButParents(live: Index, reloaded: Index) {
    && live.blocks.Keys == reloaded.blocks.Keys && live.byHash.Keys == reloaded.byHash.Keys
    && live.byHeight == reloaded.byHeight && live.txs == reloaded.txs && live.txsByHeight == reloaded.txsByHeight
    && (forall h {:trigger reloaded.blocks[h]} :: h in live.blocks ==>
          reloaded.blocks[h] == live.blocks[h].(parent := ParentOf(live.blocks, h)))
    && (forall d {:trigger reloaded.byHash[d]} :: d in live.byHash ==>
          live.byHash[d].height in reloaded.blocks && reloaded.byHash[d] == reloaded.blocks[live.byHash[d].height])
  }

  /** Every block but the oldest has the parent found among the blocks. */
  ghost predicate ParentsAmong(live: Index) {
    forall h {:trigger live.blocks[h]} :: h in live.blocks && !IsLowest(live.blocks.Keys, h) ==>
      live.blocks[h].parent == ParentOf(live.blocks, h)
  }

  /** The live index retains nothing outside the window that the tables keep. */
  ghost predicate LiveInWindow(run: seq<Source>, limit: Option<nat>) {
    limit.Some? ==> forall h :: h in IndexAll(run, limit).blocks ==> run != [] && h + limit.value > TopHeight(run)
  }

  /** For any arrival order, the heights in the tables are those of the live index exactly when the live
      index retains nothing outside the window. */
  lemma HeightsReloadedIff(run: seq<Source>, limit: Option<nat>)
    requires limit != Some(0)
    ensures Window(Persisted(run, limit), limit).Keys == IndexAll(run, limit).blocks.Keys <==> LiveInWindow(run, limit)
  {
    RetainsGreatestHeights(run, limit);
    PersistedHeights(run, limit);
    LatestHeights(Persisted(run, limit));
    SomeApplied(run);
    SomeApplied(Persisted(run, limit));
    if run != [] && limit.Some? {
      SameTop(run, Persisted(run, limit));
      KeepsLiveIff(IndexAll(run, limit).blocks.Keys, Persisted(run, limit), limit.value);
    }
  }

  lemma KeepsLiveIff(live: set<nat>, written: seq<Source>, limit: nat)
    requires limit > 0 && written != [] && Greatest(live, Latest(written).Keys, Some(limit))
    ensures Window(written, Some(limit)).Keys == live <==> forall h :: h in live ==> h + limit > TopHeight(written)
  {
    var keys := Latest(written).Keys;
    TopIsHighest(written);
    GreatestUnique(live, GreatestOf(keys, Some(limit)), keys, Some(limit));
    PruningKeepsLiveIff(Latest(written), TopHeight(written), limit);
  }

  lemma SameTop(a: seq<Source>, b: seq<Source>)
    requires a != [] && b != [] && Applied(a) == Applied(b)
    ensures TopHeight(a) == TopHeight(b)
  {
    TopIsHighest(a);
    TopIsHighest(b);
    LatestHeights(a);
    LatestHeights(b);
  }

  /** Every height between the lowest and the greatest one arrived, in whatever order. */
  ghost predicate NoGaps(run: seq<Source>) {
    forall g, h :: g in Applied(run) && g <= h <= TopHeight(run) ==> h in Applied(run)
  }

  /** Heights without gaps never leave the window. */
  lemma NoGapsInWindow(run: seq<Source>, limit: Option<nat>)
    requires run != [] ==> NoGaps(run)
    ensures LiveInWindow(run, limit)
  {
    RetainsGreatestHeights(run, limit);
    if run != [] && limit.Some? {
      var live := IndexAll(run, limit).blocks.Keys;
      forall h | h in live
        ensures h + limit.value > TopHeight(run)
      {
        TopIsHighest(run);
        LatestHeights(run);
        IntervalSize(live, h, TopHeight(run));
      }
    }
  }

  lemma {:induction false} IntervalSize(keys: set<nat>, low: nat, high: nat)
    requires low <= high && forall h :: low <= h <= high ==> h in keys
    ensures |keys| > high - low
  {
    if low < high {
      IntervalSize(keys - {low}, low + 1, high);
    }
  }

  lemma NothingRetained(run: seq<Source>)
    requires FreshRun(run, Some(0))
    ensures IndexAll(run, Some(0)) == EMPTY
  {
    FreshRunsStayCoherent(run, Some(0));
    var sources := SourcesAll(run, Some(0));
    RetainsGreatestHeights(run, Some(0));
    var ix := IndexAll(run, Some(0));
    assert ix.blocks.Keys == {};
    if d :| d in ix.byHash {
      var g := HashSource(ix, sources, d);
    }
    if d :| d in ix.txs {
      var g := TxSource(ix, sources, d);
    }
  }

  /** What is loaded of a coherent live index has distinct digests. */
  lemma LoadedIsDistinct(live: Index, sources: map<nat, Source>, loaded: seq<Source>)
    requires Coherent(live, sources) && Ascending(loaded) && Latest(loaded) == sources
    ensures DistinctDigests(loaded)
  {
    forall i, j | 0 <= i < j < |loaded|
      ensures Apart(loaded[i], loaded[j])
    {
      LatestAt(loaded, i);
      LatestAt(loaded, j);
      CoherentApart(live, sources, loaded[i].progress.height, loaded[j].progress.height);
    }
  }

  lemma PartOfSameKeys(a: map<nat, Source>, b: map<nat, Source>, whole: map<nat, Source>)
    requires Part(a, whole) && Part(b, whole) && a.Keys == b.Keys
    ensures a == b
  {
    forall h | h in a
      ensures a[h] == b[h]
    {
      assert h in b;
    }
  }

  /** Whatever order the blocks arrived in, and however often, what is loaded indexes to the live index, each
      block with the parent found among those retained, exactly when the live index retains nothing
      outside the window. */
  lemma ReloadReproducesLive(run: seq<Source>, limit: Option<nat>, loaded: seq<Source>)
    requires FreshRun(run, limit) && Newest(loaded, Window(Persisted(run, limit), limit), limit)
    ensures SameButParents(IndexAll(run, limit), IndexAll(loaded, limit)) <==> LiveInWindow(run, limit)
  {
    if limit == Some(0) {
      NothingRetained(run);
      AppliedSize(loaded);
      assert loaded == [];
    } else {
      var written := Persisted(run, limit);
      LoadsWindow(loaded, written, limit);
      HeightsReloadedIff(run, limit);
      LoadedHeights(loaded, limit, written);
      if LiveInWindow(run, limit) {
        WindowReproducesLive(run, limit, loaded);
      }
    }
  }

  lemma LoadedHeights(loaded: seq<Source>, limit: Option<nat>, written: seq<Source>)
    requires limit != Some(0) && Latest(loaded) == Window(written, limit)
    ensures IndexAll(loaded, limit).blocks.Keys == Window(written, limit).Keys
  {
    RetainsGreatestHeights(loaded, limit);
    LatestHeights(loaded);
    if limit.Some? {
      WindowFits(written, limit.value);
    }
    GreatestUnique(IndexAll(loaded, limit).blocks.Keys, Applied(loaded), Applied(loaded), limit);
  }

  lemma WindowReproducesLive(run: seq<Source>, limit: Option<nat>, loaded: seq<Source>)
    requires FreshRun(run, limit) && limit != Some(0) && LiveInWindow(run, limit)
    requires Ascending(loaded) && Latest(loaded) == Window(Persisted(run, limit), limit)
    ensures SameButParents(IndexAll(run, limit), IndexAll(loaded, limit))
  {
    var live, sources := IndexAll(run, limit), SourcesAll(run, limit);
    FreshRunsStayCoherent(run, limit);
    RetainedIsLoaded(run, limit, loaded);
    LoadedIsDistinct(live, sources, loaded);
    ReloadedFrom(loaded, limit, Persisted(run, limit));
    IndexesAgree(live, IndexAll(loaded, limit), sources);
  }

  lemma RetainedIsLoaded(run: seq<Source>, limit: Option<nat>, loaded: seq<Source>)
    requires FreshRun(run, limit) && limit != Some(0) && LiveInWindow(run, limit)
    requires Latest(loaded) == Window(Persisted(run, limit), limit)
    ensures SourcesAll(run, limit) == Latest(loaded)
  {
    FreshRunsStayCoherent(run, limit);
    HeightsReloadedIff(run, limit);
    RetainedArePersisted(run, limit);
    PartOfSameKeys(SourcesAll(run, limit), Latest(loaded), Latest(Persisted(run, limit)));
  }

  /** The reloaded index is coherent over what was loaded, and has its parents. */
  lemma ReloadedFrom(loaded: seq<Source>, limit: Option<nat>, written: seq<Source>)
    requires Ascending(loaded) && DistinctDigests(loaded) && limit != Some(0) && Latest(loaded) == Window(written, limit)
    ensures Coherent(IndexAll(loaded, limit), Latest(loaded)) && Parented(IndexAll(loaded, limit).blocks, Latest(loaded))
  {
    DistinctRunsAreFresh(loaded, limit);
    FreshRunsStayCoherent(loaded, limit);
    AscendingSettles(loaded, limit);
    LoadedHeights(loaded, limit, written);
    PartOfSameKeys(SourcesAll(loaded, limit), Latest(loaded), Latest(loaded));
  }

  lemma IndexesAgree(live: Index, reloaded: Index, sources: map<nat, Source>)
    requires Coherent(live, sources) && Coherent(reloaded, sources) && Parented(reloaded.blocks, sources)
    ensures SameButParents(live, reloaded)
  {
    SourcesDetermine(live, reloaded, sources);
    forall h | h in live.blocks
      ensures reloaded.blocks[h] == live.blocks[h].(parent := ParentOf(live.blocks, h))
    {
      SameBlock(live, reloaded, sources, h);
    }
  }

  lemma SameBlock(live: Index, reloaded: Index, sources: map<nat, Source>, h: nat)
    requires HeightsDescribed(live, sources) && HeightsDescribed(reloaded, sources) && Parented(reloaded.blocks, sources)
    requires h in live.blocks
    ensures h in reloaded.blocks && reloaded.blocks[h] == live.blocks[h].(parent := ParentOf(live.blocks, h))
  {
    assert Described(live, sources, h) && Described(reloaded, sources, h);
    ParentOfSources(live, sources, h);
  }

  /** After blocks in ascending order the oldest block's parent, which a reload cannot see, is the only
      one not found among the blocks retained. */
  lemma AscendingParents(run: seq<Source>, limit: Option<nat>)
    requires Ascending(run)
    ensures ParentsAmong(IndexAll(run, limit))
  {
    var live, sources := IndexAll(run, limit), SourcesAll(run, limit);
    RetainsGreatestHeights(run, limit);
    if limit != Some(0) {
      AscendingSettles(run, limit);
      LatestHeights(run);
      forall h | h in live.blocks && !IsLowest(live.blocks.Keys, h)
        ensures live.blocks[h].parent == ParentOf(live.blocks, h)
      {
        ParentsAgree(sources, Latest(run), h);
        ParentOfSources(live, sources, h);
      }
    }
  }

  lemma ParentOfSources(live: Index, sources: map<nat, Source>, h: nat)
    requires HeightsDescribed(live, sources)
    ensures ParentOf(live.blocks, h) == ParentIn(sources, h)
  {
    if h > 0 && h - 1 in sources {
      assert Described(live, sources, h - 1);
    }
  }

  /** Then, without a limit, what is loaded indexes to the live index itself. */
  lemma AscendingReload(run: seq<Source>, loaded: seq<Source>)
    requires Ascending(run) && Newest(loaded, Window(Persisted(run, None), None), None)
    ensures IndexAll(loaded, None) == IndexAll(run, None)
  {
    AscendingIsPersisted(run, None);
    LoadReturnsSuffix(loaded, run, None);
  }

  lemma ParentsAgree(sources: map<nat, Source>, latest: map<nat, Source>, h: nat)
    requires Part(sources, latest) && Upper(sources.Keys, latest.Keys) && h in sources
    ensures ParentIn(sources, h) == if IsLowest(sources.Keys, h) then None else ParentIn(latest, h)
  {
    if !IsLowest(sources.Keys, h) {
      var g :| g in sources && g < h;
      PredecessorKept(sources.Keys, latest.Keys, g, h);
    }
  }

  lemma PredecessorKept(kept: set<nat>, all: set<nat>, g: nat, h: nat)
    requires Upper(kept, all) && g in kept && g < h
    ensures h - 1 in all ==> h - 1 in kept
  {
  }

  /** The sources determine every map but the parents. */
  lemma SourcesDetermine(a: Index, b: Index, sources: map<nat, Source>)
    requires Coherent(a, sources) && Coherent(b, sources)
    ensures a.blocks.Keys == b.blocks.Keys && a.byHash.Keys == b.byHash.Keys
    ensures a.byHeight == b.byHeight && a.txs == b.txs && a.txsByHeight == b.txsByHeight
    ensures forall d :: d in a.byHash ==> a.byHash[d].height in b.blocks && b.byHash[d] == b.blocks[a.byHash[d].height]
  {
    SameHeights(a, b, sources);
    TxsDetermined(a.txs, b.txs, sources);
    SameHashes(a, b);
    SameHashes(b, a);
  }

  lemma TxsDetermined(a: map<Digest, TxEntry>, b: map<Digest, TxEntry>, sources: map<nat, Source>)
    requires TxsInvert(a, sources) && TxsInvert(b, sources)
    ensures a == b
  {
    SameTxs(a, b, sources);
    SameTxs(b, a, sources);
    assert a.Keys == b.Keys;
  }

  lemma SameHeights(a: Index, b: Index, sources: map<nat, Source>)
    requires HeightsDescribed(a, sources) && HeightsDescribed(b, sources)
    ensures a.blocks.Keys == b.blocks.Keys && a.byHeight == b.byHeight && a.txsByHeight == b.txsByHeight
  {
    forall h | h in sources
      ensures a.byHeight[h] == b.byHeight[h] && a.txsByHeight[h] == b.txsByHeight[h]
    {
      SameAt(a, b, sources, h);
    }
    assert a.byHeight.Keys == b.byHeight.Keys;
  }

  lemma SameAt(a: Index, b: Index, sources: map<nat, Source>, h: nat)
    requires HeightsDescribed(a, sources) && HeightsDescribed(b, sources) && h in sources
    ensures a.byHeight[h] == b.byHeight[h] && a.txsByHeight[h] == b.txsByHeight[h]
  {
    assert Described(a, sources, h) && Described(b, sources, h);
  }

  lemma SameTxs(a: map<Digest, TxEntry>, b: map<Digest, TxEntry>, sources: map<nat, Source>)
    requires TxsInvert(a, sources) && TxsInvert(b, sources)
    ensures forall d :: d in a ==> d in b && a[d] == b[d]
  {
    forall d | d in a
      ensures d in b && a[d] == b[d]
    {
      assert Explained(a[d], sources, d);
      Owner(b, sources, d, a[d].height);
      assert Explained(b[d], sources, d);
    }
  }

  lemma SameHashes(a: Index, b: Index)
    requires HashesInvert(a) && HashesInvert(b) && a.byHeight == b.byHeight
    ensures forall d :: d in a.byHash ==>
              d in b.byHash && a.byHash[d].height in b.blocks && b.byHash[d] == b.blocks[a.byHash[d].height]
  {
    forall d | d in a.byHash
      ensures d in b.byHash && a.byHash[d].height in b.blocks && b.byHash[d] == b.blocks[a.byHash[d].height]
    {
      var h := a.byHash[d].height;
      assert h in a.byHeight && a.byHeight[h] == d;
      assert b.byHeight[h] == d;
    }
  }

  /** `index_block_from_summary`: each block is indexed, and queued for the worker if the index took it. */
  method IndexBlocks(explorer: ExplorerState, arrivals: seq<Source>) returns (queue: seq<Source>)
    requires explorer.Maps() == EMPTY
    modifies explorer
    ensures explorer.Maps() == IndexAll(arrivals, explorer.maxBlocks) && queue == Persisted(arrivals, explorer.maxBlocks)
  {
    queue := [];
    for i := 0 to |arrivals|
      invariant explorer.Maps() == IndexAll(arrivals[..i], explorer.maxBlocks)
      invariant queue == Persisted(arrivals[..i], explorer.maxBlocks)
    {
      assert arrivals[..i + 1][..i] == arrivals[..i];
      var applied := explorer.ApplyBlockIndexing(arrivals[i].progress, arrivals[i].ops, arrivals[i].indexedAt);
      if applied {
        queue := queue + [arrivals[i]];
      }
    }
    assert arrivals[..|arrivals|] == arrivals;
  }

  /** `load_and_start_sqlite`: prune to the configured window, load, and index what was loaded. Whatever
      arrived before, the tables end up as exactly the window, the index over exactly its heights, and it
      is the live index, parents aside, under the exact condition. */
  method LoadAndStart(db: Database, explorer: ExplorerState, ghost run: seq<Source>, ghost lastMin: Option<nat>)
    requires db.Valid() && explorer.Maps() == EMPTY
    requires Follows(db.content, Persisted(run, explorer.maxBlocks), explorer.maxBlocks, lastMin)
    modifies db, explorer
    ensures db.Valid() && db.content == Window(Persisted(run, explorer.maxBlocks), explorer.maxBlocks)
    ensures explorer.maxBlocks != Some(0) ==> explorer.Maps().blocks.Keys == db.content.Keys
    ensures explorer.Maps().blocks.Keys == IndexAll(run, explorer.maxBlocks).blocks.Keys <==> LiveInWindow(run, explorer.maxBlocks)
    ensures FreshRun(run, explorer.maxBlocks) ==>
              (SameButParents(IndexAll(run, explorer.maxBlocks), explorer.Maps()) <==> LiveInWindow(run, explorer.maxBlocks))
  {
    ghost var written := Persisted(run, explorer.maxBlocks);
    PruneToWindow(db, explorer.maxBlocks, written, lastMin);
    var loaded := db.Load(explorer.maxBlocks);
    IndexLoaded(explorer, loaded);
    ReloadedHeights(run, explorer.maxBlocks, loaded);
    if FreshRun(run, explorer.maxBlocks) {
      ReloadReproducesLive(run, explorer.maxBlocks, loaded);
    }
  }

  lemma ReloadedHeights(run: seq<Source>, limit: Option<nat>, loaded: seq<Source>)
    requires Newest(loaded, Window(Persisted(run, limit), limit), limit)
    ensures limit != Some(0) ==> IndexAll(loaded, limit).blocks.Keys == Window(Persisted(run, limit), limit).Keys
    ensures IndexAll(loaded, limit).blocks.Keys == IndexAll(run, limit).blocks.Keys <==> LiveInWindow(run, limit)
  {
    RetainsGreatestHeights(loaded, limit);
    RetainsGreatestHeights(run, limit);
    if limit != Some(0) {
      LoadsWindow(loaded, Persisted(run, limit), limit);
      LoadedHeights(loaded, limit, Persisted(run, limit));
      HeightsReloadedIff(run, limit);
    }
  }

  method PruneToWindow(db: Database, limit: Option<nat>, ghost all: seq<Source>, ghost lastMin: Option<nat>)
    requires db.Valid() && Follows(db.content, all, limit, lastMin)
    modifies db
    ensures db.Valid() && db.content == Window(all, limit)
  {
    if limit.Some? && db.blocks.Keys != {} {
      var newest := LastKey(db.blocks.Keys);
      HighestStored(db.content, all, limit.value, lastMin, newest);
      db.PruneToMinHeight(Max(0, newest - Max(0, limit.value - 1)));
    } else if limit.Some? {
      EmptyTables(db.content, all, limit.value, lastMin);
    }
  }

  /** The greatest stored height is the greatest ever written. */
  lemma HighestStored(content: map<nat, Source>, all: seq<Source>, limit: nat, lastMin: Option<nat>, newest: nat)
    requires Follows(content, all, Some(limit), lastMin) && IsHighest(content.Keys, newest)
    ensures all != [] && newest == TopHeight(all)
  {
    if all != [] {
      TopIsHighest(all);
      assert TopHeight(all) in Window(all, Some(limit));
    }
  }

  lemma EmptyTables(content: map<nat, Source>, all: seq<Source>, limit: nat, lastMin: Option<nat>)
    requires Follows(content, all, Some(limit), lastMin) && content == map[]
    ensures Window(all, Some(limit)) == map[]
  {
  }

  method IndexLoaded(explorer: ExplorerState, loaded: seq<Source>)
    requires explorer.Maps() == EMPTY
    modifies explorer
    ensures explorer.Maps() == IndexAll(loaded, explorer.maxBlocks)
  {
    for i := 0 to |loaded|
      invariant explorer.Maps() == IndexAll(loaded[..i], explorer.maxBlocks)
    {
      assert loaded[..i + 1][..i] == loaded[..i];
      var applied := explorer.ApplyBlockIndexing(loaded[i].progress, loaded[i].ops, loaded[i].indexedAt);
    }
    assert loaded[..|loaded|] == loaded;
  }

  /** From the queue to the reloaded index, on empty tables. */
  method WriteAndReload(queue: seq<Source>, maxBlocks: Option<nat>, batchSize: nat, ghost run: seq<Source>)
    returns (reloaded: ExplorerState)
    requires queue == Persisted(run, maxBlocks)
    ensures maxBlocks != Some(0) ==> reloaded.Maps().blocks.Keys == Window(queue, maxBlocks).Keys
    ensures reloaded.Maps().blocks.Keys == IndexAll(run, maxBlocks).blocks.Keys <==> LiveInWindow(run, maxBlocks)
    ensures FreshRun(run, maxBlocks) ==>
              (SameButParents(IndexAll(run, maxBlocks), reloaded.Maps()) <==> LiveInWindow(run, maxBlocks))
  {
    var db := new Database();
    var worker := new Worker(db, maxBlocks, batchSize, []);
    worker.Drain(queue);
    assert worker.written == queue;
    reloaded := new ExplorerState(maxBlocks);
    LoadAndStart(db, reloaded, run, worker.lastMinHeight);
  }

  /******* Heights with gaps on the running code *******/

  ghost predicate OneAndTen(run: seq<Source>) {
    |run| == 2 && run[0].progress.height == 1 && run[1].progress.height == 10
  }

  /** Heights 1 and 10 with room for two blocks: live both stay. */
  lemma GapStaysLive(run: seq<Source>)
    requires OneAndTen(run)
    ensures IndexAll(run, Some(2)).blocks.Keys == {1, 10}
  {
    assert Applied(run) == {1, 10};
    RetainsGreatestHeights(run, Some(2));
    GreatestUnique(IndexAll(run, Some(2)).blocks.Keys, {1, 10}, {1, 10}, Some(2));
  }

  /** In the tables only the second one stays. */
  lemma GapLeavesWindow(run: seq<Source>)
    requires OneAndTen(run)
    ensures Window(run, Some(2)).Keys == {10}
  {
    assert Applied(run) == {1, 10};
    LatestHeights(run);
    TopOfAscending(run);
  }

  /** Indexed live, written, pruned and loaded back: the first block is lost. */
  method GapIsPruned(first: Source, second: Source) returns (live: ExplorerState, reloaded: ExplorerState)
    requires first.progress.height == 1 && second.progress.height == 10
    ensures live.Maps().blocks.Keys == {1, 10} && reloaded.Maps().blocks.Keys == {10}
  {
    var run := [first, second];
    live := new ExplorerState(Some(2));
    var queue := IndexBlocks(live, run);
    AscendingIsPersisted(run, Some(2));
    reloaded := WriteAndReload(queue, Some(2), 1, run);
    GapStaysLive(run);
    GapLeavesWindow(run);
  }
}
