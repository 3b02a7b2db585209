/** simulator/src/explorer.rs: the five block and transaction maps of `ExplorerState`, how
    `apply_block_indexing` fills them and how block retention empties them again. */
module BlockIndex {
  import opened Prelude
  import opened Retention

  type Digest(==, !new)
  type PublicKey(==, !new)

  datatype Op = Transaction(digest: Digest, public: PublicKey, nonce: u64) | OtherOp

  datatype Progress = Progress(height: nat, view: nat, digest: Digest)

  datatype Block = Block(
    height: nat, view: nat, digest: Digest, parent: Option<Digest>,
    txs: seq<Digest>, txCount: nat, indexedAt: nat)

  datatype TxEntry = TxEntry(
    hash: Digest, height: nat, blockDigest: Digest, position: nat, public: PublicKey, nonce: u64)

  datatype Index = Index(
    blocks: map<nat, Block>, byHash: map<Digest, Block>, byHeight: map<nat, Digest>,
    txs: map<Digest, TxEntry>, txsByHeight: map<nat, seq<Digest>>)

  const EMPTY := Index(map[], map[], map[], map[], map[])

  /** What a block is indexed from. */
  datatype Source = Source(progress: Progress, ops: seq<Op>, indexedAt: nat)

  /******* What one block contributes *******/

  function TxDigests(ops: seq<Op>): seq<Digest> {
    if ops == [] then []
    else
      var last := ops[|ops| - 1];
      TxDigests(ops[..|ops| - 1]) + if last.Transaction? then [last.digest] else []
  }

  /** Positions are stored as 32-bit numbers. */
  function EntryAt(progress: Progress, ops: seq<Op>, i: nat): TxEntry
    requires i < |ops| && ops[i].Transaction?
  {
    TxEntry(ops[i].digest, progress.height, progress.digest, i % 0x1_0000_0000, ops[i].public, ops[i].nonce)
  }

  /** The last operation that carries a transaction with this digest. */
  function LastOp(ops: seq<Op>, d: Digest): (i: nat)
    requires d in TxDigests(ops)
    ensures i < |ops| && ops[i].Transaction? && ops[i].digest == d
    ensures forall j :: i < j < |ops| && ops[j].Transaction? ==> ops[j].digest != d
  {
    var last := ops[|ops| - 1];
    if last.Transaction? && last.digest == d then |ops| - 1 else LastOp(ops[..|ops| - 1], d)
  }

  function WithTxs(txs: map<Digest, TxEntry>, progress: Progress, ops: seq<Op>): map<Digest, TxEntry> {
    if ops == [] then txs
    else
      var n := |ops| - 1;
      var rest := WithTxs(txs, progress, ops[..n]);
      if ops[n].Transaction? then rest[ops[n].digest := EntryAt(progress, ops, n)] else rest
  }

  lemma {:induction false} WithTxsAt(txs: map<Digest, TxEntry>, progress: Progress, ops: seq<Op>, d: Digest)
    ensures d in WithTxs(txs, progress, ops) <==> d in txs || d in TxDigests(ops)
    ensures d in TxDigests(ops) ==> WithTxs(txs, progress, ops)[d] == EntryAt(progress, ops, LastOp(ops, d))
    ensures d in txs && d !in TxDigests(ops) ==> WithTxs(txs, progress, ops)[d] == txs[d]
  {
    if ops != [] {
      var n := |ops| - 1;
      WithTxsAt(txs, progress, ops[..n], d);
    }
  }

  function ParentOf(blocks: map<nat, Block>, height: nat): Option<Digest> {
    if height > 0 && height - 1 in blocks then Some(blocks[height - 1].digest) else None
  }

  function MadeBlock(s: Source, parent: Option<Digest>): Block {
    Block(s.progress.height, s.progress.view, s.progress.digest, parent,
          TxDigests(s.ops), |TxDigests(s.ops)|, s.indexedAt)
  }

  function Inserted(ix: Index, s: Source): Index {
    var block := MadeBlock(s, ParentOf(ix.blocks, s.progress.height));
    var h := s.progress.height;
    Index(ix.blocks[h := block], ix.byHash[s.progress.digest := block], ix.byHeight[h := s.progress.digest],
          WithTxs(ix.txs, s.progress, s.ops), ix.txsByHeight[h := TxDigests(s.ops)])
  }

  /******* Retention *******/

  function Without(txs: map<Digest, TxEntry>, digests: seq<Digest>): map<Digest, TxEntry> {
    txs - set d | d in digests
  }

  /** Removing a block: every map drops what it recorded for the height. */
  function Removed(ix: Index, h: nat): Index {
    Index(ix.blocks - {h},
          if h in ix.byHeight then ix.byHash - {ix.byHeight[h]} else ix.byHash,
          ix.byHeight - {h},
          if h in ix.txsByHeight then Without(ix.txs, ix.txsByHeight[h]) else ix.txs,
          ix.txsByHeight - {h})
  }

  lemma RemovedIsSmaller(ix: Index, h: nat)
    requires h in ix.blocks
    ensures |Removed(ix, h).blocks| == |ix.blocks| - 1
  {
    assert ix.blocks.Keys == (ix.blocks - {h}).Keys + {h};
    assert |ix.blocks| == |ix.blocks.Keys| && |ix.blocks - {h}| == |(ix.blocks - {h}).Keys|;
  }

  lemma HasBlocks(ix: Index)
    requires |ix.blocks| > 0
    ensures ix.blocks.Keys != {}
  {
    assert |ix.blocks| == |ix.blocks.Keys|;
  }

  /** What is left once no more than `limit` blocks are, dropping the lowest height each time. */
  ghost function Retained(ix: Index, limit: Option<nat>): Index
    decreases |ix.blocks|
  {
    if limit.None? || |ix.blocks| <= limit.value then ix
    else
      HasBlocks(ix);
      var h := Lowest(ix.blocks.Keys);
      RemovedIsSmaller(ix, h);
      Retained(Removed(ix, h), limit)
  }

  ghost function Indexed(ix: Index, s: Source, limit: Option<nat>): Index {
    if s.progress.height in ix.blocks then ix else Retained(Inserted(ix, s), limit)
  }

  class ExplorerState {
    const maxBlocks: Option<nat>
    var blocks: map<nat, Block>
    var byHash: map<Digest, Block>
    var byHeight: map<nat, Digest>
    var txs: map<Digest, TxEntry>
    var txsByHeight: map<nat, seq<Digest>>

    function Maps(): Index
      reads this
    {
      Index(blocks, byHash, byHeight, txs, txsByHeight)
    }

    constructor (maxBlocks: Option<nat>)
      ensures Maps() == EMPTY && this.maxBlocks == maxBlocks
    {
      this.maxBlocks := maxBlocks;
      blocks, byHash, byHeight, txs, txsByHeight := map[], map[], map[], map[], map[];
    }

    method ApplyBlockIndexing(progress: Progress, ops: seq<Op>, indexedAt: nat) returns (applied: bool)
      modifies this
      ensures applied == (progress.height !in old(blocks))
      ensures Maps() == Indexed(old(Maps()), Source(progress, ops, indexedAt), maxBlocks)
    {
      if progress.height in blocks {
        return false;
      }
      var parent: Option<Digest> := None;
      if progress.height > 0 && progress.height - 1 in blocks {
        parent := Some(blocks[progress.height - 1].digest);
      }
      var digests: seq<Digest> := [];
      for i := 0 to |ops|
        invariant digests == TxDigests(ops[..i])
        invariant txs == WithTxs(old(txs), progress, ops[..i])
        invariant blocks == old(blocks) && byHash == old(byHash) && byHeight == old(byHeight) && txsByHeight == old(txsByHeight)
      {
        assert ops[..i + 1][..i] == ops[..i];
        if ops[i].Transaction? {
          digests := digests + [ops[i].digest];
          txs := txs[ops[i].digest := EntryAt(progress, ops, i)];
        }
      }
      assert ops[..|ops|] == ops;
      var block := Block(progress.height, progress.view, progress.digest, parent, digests, |digests|, indexedAt);
      byHash := byHash[progress.digest := block];
      byHeight := byHeight[progress.height := progress.digest];
      txsByHeight := txsByHeight[progress.height := digests];
      blocks := blocks[progress.height := block];
      EnforceBlockRetention();
      applied := true;
    }

    method EnforceBlockRetention()
      modifies this
      ensures Maps() == Retained(old(Maps()), maxBlocks)
    {
      if maxBlocks.None? {
        return;
      }
      while |blocks| > maxBlocks.value
        invariant Retained(Maps(), maxBlocks) == Retained(old(Maps()), maxBlocks)
        decreases |blocks|
      {
        HasBlocks(Maps());
        RemoveLowest();
      }
    }

    method RemoveLowest()
      requires |blocks| > 0 && blocks.Keys != {}
      modifies this
      ensures Maps() == Removed(old(Maps()), Lowest(old(blocks).Keys))
      ensures |blocks| == old(|blocks|) - 1
    {
      ghost var before := Maps();
      var h := FirstKey(blocks.Keys);
      RemovedIsSmaller(before, h);
      assert h == Lowest(blocks.Keys);
      blocks := blocks - {h};
      if h in byHeight {
        byHash := byHash - {byHeight[h]};
        byHeight := byHeight - {h};
      }
      if h in txsByHeight {
        RemoveTxs(txsByHeight[h]);
        txsByHeight := txsByHeight - {h};
      }
      assert h !in before.byHeight ==> before.byHeight - {h} == before.byHeight;
      assert h !in before.txsByHeight ==> before.txsByHeight - {h} == before.txsByHeight;
    }

    method RemoveTxs(digests: seq<Digest>)
      modifies this`txs
      ensures txs == Without(old(txs), digests)
    {
      for i := 0 to |digests|
        invariant txs == Without(old(txs), digests[..i])
      {
        txs := txs - {digests[i]};
        assert digests[..i + 1] == digests[..i] + [digests[i]];
      }
      assert digests[..|digests|] == digests;
    }
  }

  /******* Coherence *******/

  /** The five maps describe the same blocks: each is the inverse of its partner over exactly the
      retained heights, and every entry is the one its block's operations give it. */
  ghost predicate Coherent(ix: Index, sources: map<nat, Source>) {
    && HeightsDescribed(ix, sources)
    && HashesInvert(ix)
    && TxsInvert(ix.txs, sources)
  }

  ghost predicate HeightsDescribed(ix: Index, sources: map<nat, Source>) {
    && ix.blocks.Keys == ix.byHeight.Keys == ix.txsByHeight.Keys == sources.Keys
    && (forall h {:trigger ix.blocks[h]} {:trigger sources[h]} :: h in ix.blocks ==> Described(ix, sources, h))
  }

  ghost predicate Described(ix: Index, sources: map<nat, Source>, h: nat)
    requires h in ix.blocks && h in ix.byHeight && h in ix.txsByHeight && h in sources
  {
    && sources[h].progress.height == h
    && ix.blocks[h] == MadeBlock(sources[h], ix.blocks[h].parent)
    && ix.byHeight[h] == sources[h].progress.digest
    && ix.txsByHeight[h] == TxDigests(sources[h].ops)
  }

  ghost predicate HashesInvert(ix: Index) {
    && (forall h {:trigger ix.byHeight[h]} :: h in ix.byHeight ==>
          && h in ix.blocks && ix.blocks[h].height == h
          && ix.byHeight[h] in ix.byHash && ix.byHash[ix.byHeight[h]] == ix.blocks[h])
    && (forall d {:trigger ix.byHash[d]} :: d in ix.byHash ==>
          ix.byHash[d].height in ix.byHeight && ix.byHeight[ix.byHash[d].height] == d)
  }

  ghost predicate TxsInvert(txs: map<Digest, TxEntry>, sources: map<nat, Source>) {
    && (forall h, d :: h in sources && d in TxDigests(sources[h].ops) ==> d in txs && txs[d].height == h)
    && (forall d {:trigger txs[d]} :: d in txs ==> Explained(txs[d], sources, d))
  }

  ghost predicate Explained(entry: TxEntry, sources: map<nat, Source>, d: Digest) {
    && entry.height in sources
    && d in TxDigests(sources[entry.height].ops)
    && entry == EntryAt(sources[entry.height].progress, sources[entry.height].ops, LastOp(sources[entry.height].ops, d))
  }

  /** Nothing retained carries one of the block's digests. */
  ghost predicate Fresh(ix: Index, s: Source) {
    s.progress.digest !in ix.byHash && forall d :: d in TxDigests(s.ops) ==> d !in ix.txs
  }

  lemma InsertedTxsInvert(txs: map<Digest, TxEntry>, sources: map<nat, Source>, s: Source)
    requires TxsInvert(txs, sources) && s.progress.height !in sources
    requires forall d :: d in TxDigests(s.ops) ==> d !in txs
    ensures TxsInvert(WithTxs(txs, s.progress, s.ops), sources[s.progress.height := s])
  {
    var after, all := WithTxs(txs, s.progress, s.ops), sources[s.progress.height := s];
    forall h, d | h in all && d in TxDigests(all[h].ops)
      ensures d in after && after[d].height == h
    {
      InsertedTx(txs, sources, s, h, d);
    }
    forall d | d in after
      ensures Explained(after[d], all, d)
    {
      InsertedExplained(txs, sources, s, d);
    }
  }

  lemma InsertedTx(txs: map<Digest, TxEntry>, sources: map<nat, Source>, s: Source, h: nat, d: Digest)
    requires TxsInvert(txs, sources) && s.progress.height !in sources
    requires d in TxDigests(s.ops) ==> d !in txs
    requires h in sources[s.progress.height := s] && d in TxDigests(sources[s.progress.height := s][h].ops)
    ensures d in WithTxs(txs, s.progress, s.ops) && WithTxs(txs, s.progress, s.ops)[d].height == h
  {
    WithTxsAt(txs, s.progress, s.ops, d);
    if h != s.progress.height {
      Owner(txs, sources, d, h);
    }
  }

  lemma InsertedExplained(txs: map<Digest, TxEntry>, sources: map<nat, Source>, s: Source, d: Digest)
    requires TxsInvert(txs, sources) && s.progress.height !in sources
    requires d in TxDigests(s.ops) ==> d !in txs
    requires d in WithTxs(txs, s.progress, s.ops)
    ensures Explained(WithTxs(txs, s.progress, s.ops)[d], sources[s.progress.height := s], d)
  {
    WithTxsAt(txs, s.progress, s.ops, d);
    if d in txs {
      assert Explained(txs[d], sources, d);
    }
  }

  lemma InsertedCoherent(ix: Index, sources: map<nat, Source>, s: Source)
    requires Coherent(ix, sources) && s.progress.height !in ix.blocks && Fresh(ix, s)
    ensures Coherent(Inserted(ix, s), sources[s.progress.height := s])
  {
    InsertedHeights(ix, sources, s);
    InsertedTxsInvert(ix.txs, sources, s);
    InsertedHashesInvert(ix, s);
  }

  lemma InsertedHeights(ix: Index, sources: map<nat, Source>, s: Source)
    requires HeightsDescribed(ix, sources) && s.progress.height !in ix.blocks
    ensures HeightsDescribed(Inserted(ix, s), sources[s.progress.height := s])
  {
    var after, all := Inserted(ix, s), sources[s.progress.height := s];
    forall h | h in after.blocks
      ensures Described(after, all, h)
    {
      assert h != s.progress.height ==> Described(ix, sources, h);
    }
  }

  lemma InsertedHashesInvert(ix: Index, s: Source)
    requires HashesInvert(ix) && ix.blocks.Keys == ix.byHeight.Keys
    requires s.progress.height !in ix.blocks && s.progress.digest !in ix.byHash
    ensures HashesInvert(Inserted(ix, s))
  {
    var after := Inserted(ix, s);
    forall h | h in after.byHeight && h != s.progress.height
      ensures after.byHeight[h] != s.progress.digest && after.byHash[after.byHeight[h]] == after.blocks[h]
    {
      assert ix.byHash[ix.byHeight[h]] == ix.blocks[h];
    }
    forall d | d in after.byHash && d != s.progress.digest
      ensures after.byHash[d].height in after.byHeight && after.byHeight[after.byHash[d].height] == d
    {
      assert ix.byHash[d].height in ix.byHeight;
    }
  }

  lemma RemovedTxsInvert(txs: map<Digest, TxEntry>, sources: map<nat, Source>, h: nat)
    requires TxsInvert(txs, sources) && h in sources
    ensures TxsInvert(Without(txs, TxDigests(sources[h].ops)), sources - {h})
  {
    var after, rest := Without(txs, TxDigests(sources[h].ops)), sources - {h};
    forall other, d | other in rest && d in TxDigests(rest[other].ops)
      ensures d in after && after[d].height == other
    {
      assert other in sources && d in TxDigests(sources[other].ops);
      assert d in txs && txs[d].height == other;
    }
    forall d | d in after
      ensures Explained(after[d], rest, d)
    {
      StillExplained(txs, sources, h, d);
    }
  }

  lemma StillExplained(txs: map<Digest, TxEntry>, sources: map<nat, Source>, h: nat, d: Digest)
    requires TxsInvert(txs, sources) && h in sources && d in Without(txs, TxDigests(sources[h].ops))
    ensures Explained(Without(txs, TxDigests(sources[h].ops))[d], sources - {h}, d)
  {
    assert Explained(txs[d], sources, d);
  }

  lemma RemovedCoherent(ix: Index, sources: map<nat, Source>, h: nat)
    requires Coherent(ix, sources) && h in ix.blocks
    ensures Coherent(Removed(ix, h), sources - {h})
  {
    assert Described(ix, sources, h);
    RemovedHeights(ix, sources, h);
    RemovedTxsInvert(ix.txs, sources, h);
    RemovedHashesInvert(ix, h);
  }

  lemma RemovedHeights(ix: Index, sources: map<nat, Source>, h: nat)
    requires HeightsDescribed(ix, sources) && h in ix.blocks
    ensures HeightsDescribed(Removed(ix, h), sources - {h})
  {
    var after, rest := Removed(ix, h), sources - {h};
    forall other | other in after.blocks
      ensures Described(after, rest, other)
    {
      assert Described(ix, sources, other);
    }
  }

  lemma RemovedHashesInvert(ix: Index, h: nat)
    requires HashesInvert(ix) && ix.blocks.Keys == ix.byHeight.Keys && h in ix.blocks
    ensures HashesInvert(Removed(ix, h))
  {
    var after := Removed(ix, h);
    assert ix.byHash[ix.byHeight[h]] == ix.blocks[h];
    forall d | d in after.byHash
      ensures after.byHash[d].height in after.byHeight && after.byHeight[after.byHash[d].height] == d
    {
      assert after.byHash[d] == ix.byHash[d];
    }
    forall other | other in after.byHeight
      ensures other in after.blocks && after.byHeight[other] in after.byHash
              && after.byHash[after.byHeight[other]] == after.blocks[other]
    {
      assert ix.byHash[ix.byHeight[other]] == ix.blocks[other];
    }
  }

  /******* One block, exactly *******/

  /** Where the retained blocks come from after one more was offered. */
  function Survivors(sources: map<nat, Source>, s: Source, kept: set<nat>): map<nat, Source> {
    map h | h in kept && (h == s.progress.height || h in sources) :: if h == s.progress.height then s else sources[h]
  }

  ghost predicate Within(ix: Index, limit: Option<nat>) {
    limit.Some? ==> |ix.blocks| <= limit.value
  }

  /** One insertion evicts at most one block. */
  lemma IndexedShape(ix: Index, s: Source, limit: Option<nat>)
    requires Within(ix, limit) && s.progress.height !in ix.blocks
    ensures
      var grown := Inserted(ix, s);
      var after := Indexed(ix, s, limit);
      && Within(after, limit)
      && (after == grown
          || (limit == Some(|ix.blocks|) && grown.blocks.Keys != {}
              && after == Removed(grown, Lowest(grown.blocks.Keys))))
  {
    var grown := Inserted(ix, s);
    InsertedKeys(ix, s);
    HasSize(grown);
    if limit.Some? && |grown.blocks| > limit.value {
      RetainedDropsOne(grown, limit.value);
    }
  }

  lemma HasSize(ix: Index)
    ensures |ix.blocks| == |ix.blocks.Keys| && (|ix.blocks| > 0 ==> ix.blocks.Keys != {})
  {
  }

  /** With one block too many, retention drops the lowest one. */
  lemma RetainedDropsOne(ix: Index, limit: nat)
    requires |ix.blocks| == limit + 1 && ix.blocks.Keys != {}
    ensures Retained(ix, Some(limit)) == Removed(ix, Lowest(ix.blocks.Keys))
    ensures Within(Retained(ix, Some(limit)), Some(limit))
  {
    RemovedIsSmaller(ix, Lowest(ix.blocks.Keys));
  }

  /** Indexing one more block keeps the five maps coherent exactly when no retained block shares a
      block digest or a transaction digest with it. Shared digests are lost when either block goes. */
  lemma CoherentExactlyWhenFresh(ix: Index, sources: map<nat, Source>, s: Source, limit: Option<nat>)
    requires Coherent(ix, sources) && Within(ix, limit) && s.progress.height !in ix.blocks
    ensures
      var after := Indexed(ix, s, limit);
      Coherent(after, Survivors(sources, s, after.blocks.Keys)) <==> Fresh(ix, s)
  {
    IndexedShape(ix, s, limit);
    var after := Indexed(ix, s, limit);
    var kept := Survivors(sources, s, after.blocks.Keys);
    if Fresh(ix, s) {
      FreshKeepsCoherence(ix, sources, s, after);
    } else if s.progress.digest in ix.byHash {
      SharedHashBreaks(ix, sources, s, after, kept);
    } else {
      var d :| d in TxDigests(s.ops) && d in ix.txs;
      SharedTxBreaks(ix, sources, s, after, kept, d);
    }
  }

  /** The grown index, or the grown index without its lowest block. */
  ghost predicate OneStep(ix: Index, s: Source, after: Index) {
    var grown := Inserted(ix, s);
    after == grown || (grown.blocks.Keys != {} && after == Removed(grown, Lowest(grown.blocks.Keys)))
  }

  lemma FreshKeepsCoherence(ix: Index, sources: map<nat, Source>, s: Source, after: Index)
    requires Coherent(ix, sources) && s.progress.height !in ix.blocks && Fresh(ix, s) && OneStep(ix, s, after)
    ensures Coherent(after, Survivors(sources, s, after.blocks.Keys))
  {
    InsertedCoherent(ix, sources, s);
    var grown, all := Inserted(ix, s), sources[s.progress.height := s];
    SurvivorsAre(sources, s, after.blocks.Keys);
    if after != grown {
      RemovedCoherent(grown, all, Lowest(grown.blocks.Keys));
    }
  }

  lemma SurvivorsAre(sources: map<nat, Source>, s: Source, kept: set<nat>)
    ensures
      var all := sources[s.progress.height := s];
      && (kept == all.Keys ==> Survivors(sources, s, kept) == all)
      && (forall low :: kept == all.Keys - {low} ==> Survivors(sources, s, kept) == all - {low})
  {
  }

  lemma SharedHashBreaks(ix: Index, sources: map<nat, Source>, s: Source, after: Index, kept: map<nat, Source>)
    requires Coherent(ix, sources) && s.progress.height !in ix.blocks && s.progress.digest in ix.byHash
    requires OneStep(ix, s, after)
    ensures !Coherent(after, kept)
  {
    var h, d := s.progress.height, s.progress.digest;
    var g := ix.byHash[d].height;
    assert g in ix.byHeight && ix.byHeight[g] == d && g != h;
    assert h in after.byHeight ==> after.byHeight[h] == d;
    assert g in after.byHeight ==> after.byHeight[g] == d;
  }

  lemma SharedTxBreaks(ix: Index, sources: map<nat, Source>, s: Source, after: Index, kept: map<nat, Source>, d: Digest)
    requires Coherent(ix, sources) && s.progress.height !in ix.blocks
    requires d in TxDigests(s.ops) && d in ix.txs
    requires OneStep(ix, s, after)
    requires kept == Survivors(sources, s, after.blocks.Keys)
    ensures !Coherent(after, kept)
  {
    var h, g := s.progress.height, ix.txs[d].height;
    var grown, all := Inserted(ix, s), sources[s.progress.height := s];
    SharedTxOwner(ix, sources, s, d);
    KeptFromAll(sources, s, after.blocks.Keys);
    if after == grown {
      assert g in kept && h in kept && kept[g] == all[g] && kept[h] == all[h];
      TwoOwners(after.txs, kept, d, g, h);
    } else {
      RemovalKeepsSharing(grown, all, after, kept, d, g, h);
    }
  }

  /** The retained block that already carries the digest, next to the new one. */
  lemma SharedTxOwner(ix: Index, sources: map<nat, Source>, s: Source, d: Digest)
    requires Coherent(ix, sources) && s.progress.height !in ix.blocks && d in TxDigests(s.ops) && d in ix.txs
    ensures
      var h, g, grown, all := s.progress.height, ix.txs[d].height, Inserted(ix, s), sources[s.progress.height := s];
      && g != h && g in sources && grown.blocks.Keys == all.Keys
      && d in TxDigests(all[g].ops) && d in TxDigests(all[h].ops)
      && g in grown.txsByHeight && grown.txsByHeight[g] == TxDigests(all[g].ops)
      && h in grown.txsByHeight && grown.txsByHeight[h] == TxDigests(all[h].ops)
  {
    var g := ix.txs[d].height;
    assert Explained(ix.txs[d], sources, d);
    assert Described(ix, sources, g);
  }

  lemma KeptFromAll(sources: map<nat, Source>, s: Source, kept: set<nat>)
    ensures
      var all := sources[s.progress.height := s];
      && (forall k :: k in Survivors(sources, s, kept) <==> k in all && k in kept)
      && (forall k :: k in Survivors(sources, s, kept) ==> Survivors(sources, s, kept)[k] == all[k])
  {
  }

  lemma RemovalKeepsSharing(
    grown: Index, sources: map<nat, Source>, after: Index, kept: map<nat, Source>, d: Digest, g: nat, h: nat)
    requires grown.blocks.Keys != {} && after == Removed(grown, Lowest(grown.blocks.Keys))
    requires grown.blocks.Keys == sources.Keys && g in sources && h in sources && g != h
    requires d in TxDigests(sources[g].ops) && d in TxDigests(sources[h].ops)
    requires g in grown.txsByHeight && grown.txsByHeight[g] == TxDigests(sources[g].ops)
    requires h in grown.txsByHeight && grown.txsByHeight[h] == TxDigests(sources[h].ops)
    requires kept.Keys == after.blocks.Keys && forall k :: k in kept ==> kept[k] == sources[k]
    ensures !TxsInvert(after.txs, kept)
  {
    var low := Lowest(grown.blocks.Keys);
    if low == h {
      NoOwner(after.txs, kept, d, g);
    } else if low == g {
      NoOwner(after.txs, kept, d, h);
    } else {
      TwoOwners(after.txs, kept, d, g, h);
    }
  }

  lemma TwoOwners(txs: map<Digest, TxEntry>, sources: map<nat, Source>, d: Digest, g: nat, h: nat)
    requires g in sources && h in sources && g != h
    requires d in TxDigests(sources[g].ops) && d in TxDigests(sources[h].ops)
    ensures !TxsInvert(txs, sources)
  {
    if TxsInvert(txs, sources) {
      Owner(txs, sources, d, g);
      Owner(txs, sources, d, h);
    }
  }

  lemma Owner(txs: map<Digest, TxEntry>, sources: map<nat, Source>, d: Digest, g: nat)
    requires TxsInvert(txs, sources) && g in sources && d in TxDigests(sources[g].ops)
    ensures d in txs && txs[d].height == g
  {
  }

  lemma NoOwner(txs: map<Digest, TxEntry>, sources: map<nat, Source>, d: Digest, g: nat)
    requires g in sources && d in TxDigests(sources[g].ops) && d !in txs
    ensures !TxsInvert(txs, sources)
  {
  }

  /******* Runs *******/

  function Applied(run: seq<Source>): set<nat> {
    set i | 0 <= i < |run| :: run[i].progress.height
  }

  ghost function IndexAll(run: seq<Source>, limit: Option<nat>): Index {
    if run == [] then EMPTY else Indexed(IndexAll(run[..|run| - 1], limit), run[|run| - 1], limit)
  }

  lemma GreatestStep(ix: Index, all: set<nat>, s: Source, limit: Option<nat>)
    requires Greatest(ix.blocks.Keys, all, limit) && Within(ix, limit)
    ensures
      var after := Indexed(ix, s, limit);
      Greatest(after.blocks.Keys, all + {s.progress.height}, limit) && Within(after, limit)
  {
    var h := s.progress.height;
    var after := Indexed(ix, s, limit);
    if h in ix.blocks {
      assert all + {h} == all;
    } else {
      var low := KeysAfter(ix, s, limit);
      if after.blocks.Keys == ix.blocks.Keys + {h} {
        GreatestGrown(ix.blocks.Keys, all, h, limit);
      } else {
        GreatestFull(ix.blocks.Keys, all, h, low, limit.value);
      }
    }
  }

  /** A height joins while there is room, and otherwise pushes out the lowest one. */
  ghost predicate KeysStep(keys: set<nat>, h: nat, limit: Option<nat>, kept: set<nat>, low: nat) {
    || (kept == keys + {h} && (limit.Some? ==> |keys| + 1 <= limit.value))
    || (limit == Some(|keys|) && IsLowest(keys + {h}, low) && kept == keys + {h} - {low})
  }

  lemma KeysAfter(ix: Index, s: Source, limit: Option<nat>) returns (low: nat)
    requires Within(ix, limit) && s.progress.height !in ix.blocks
    ensures
      var after := Indexed(ix, s, limit);
      Within(after, limit) && KeysStep(ix.blocks.Keys, s.progress.height, limit, after.blocks.Keys, low)
  {
    IndexedShape(ix, s, limit);
    var grown, after := Inserted(ix, s), Indexed(ix, s, limit);
    low := Lowest(grown.blocks.Keys);
    InsertedKeys(ix, s);
    assert |after.blocks| == |after.blocks.Keys|;
    if after != grown {
      RemovedKeys(grown, low);
    }
  }

  lemma InsertedKeys(ix: Index, s: Source)
    requires s.progress.height !in ix.blocks
    ensures Inserted(ix, s).blocks.Keys == ix.blocks.Keys + {s.progress.height}
    ensures |ix.blocks| == |ix.blocks.Keys| && |Inserted(ix, s).blocks.Keys| == |ix.blocks.Keys| + 1
  {
  }

  lemma RemovedKeys(ix: Index, h: nat)
    requires h in ix.blocks
    ensures Removed(ix, h).blocks.Keys == ix.blocks.Keys - {h}
  {
  }

  /** For any arrival order the retained heights are the `limit` greatest ever offered. */
  lemma {:induction false} RetainsGreatestHeights(run: seq<Source>, limit: Option<nat>)
    ensures
      var ix := IndexAll(run, limit);
      Greatest(ix.blocks.Keys, Applied(run), limit) && Within(ix, limit)
  {
    if run != [] {
      var n := |run| - 1;
      RetainsGreatestHeights(run[..n], limit);
      GreatestStep(IndexAll(run[..n], limit), Applied(run[..n]), run[n], limit);
      AppliedSnoc(run);
    }
  }

  lemma AppliedSnoc(run: seq<Source>)
    requires run != []
    ensures Applied(run) == Applied(run[..|run| - 1]) + {run[|run| - 1].progress.height}
  {
    var n := |run| - 1;
    forall h | h in Applied(run)
      ensures h in Applied(run[..n]) + {run[n].progress.height}
    {
      var i :| 0 <= i < |run| && run[i].progress.height == h;
      assert i < n ==> run[..n][i] == run[i];
    }
  }

  /** Each block of the run, when it is new, shares no digest with the blocks retained at that time. */
  ghost predicate FreshRun(run: seq<Source>, limit: Option<nat>) {
    forall i :: 0 <= i < |run| ==>
      var ix := IndexAll(run[..i], limit);
      run[i].progress.height in ix.blocks || Fresh(ix, run[i])
  }

  /** The block each retained height was indexed from. */
  ghost function SourcesAll(run: seq<Source>, limit: Option<nat>): map<nat, Source> {
    if run == [] then map[]
    else
      var n := |run| - 1;
      if run[n].progress.height in IndexAll(run[..n], limit).blocks then SourcesAll(run[..n], limit)
      else Survivors(SourcesAll(run[..n], limit), run[n], IndexAll(run, limit).blocks.Keys)
  }

  lemma SourcesStep(run: seq<Source>, limit: Option<nat>)
    requires run != []
    requires run[|run| - 1].progress.height !in IndexAll(run[..|run| - 1], limit).blocks
    ensures
      var n := |run| - 1;
      && IndexAll(run, limit) == Indexed(IndexAll(run[..n], limit), run[n], limit)
      && SourcesAll(run, limit) == Survivors(SourcesAll(run[..n], limit), run[n], IndexAll(run, limit).blocks.Keys)
  {
  }

  /** Over such a run the maps stay mutually inverse over exactly the retained heights. */
  lemma {:induction false} FreshRunsStayCoherent(run: seq<Source>, limit: Option<nat>)
    requires FreshRun(run, limit)
    ensures Coherent(IndexAll(run, limit), SourcesAll(run, limit))
  {
    if run != [] {
      var n := |run| - 1;
      FreshPrefix(run, n, limit);
      FreshRunsStayCoherent(run[..n], limit);
      var ix := IndexAll(run[..n], limit);
      RetainsGreatestHeights(run[..n], limit);
      if run[n].progress.height !in ix.blocks {
        CoherentExactlyWhenFresh(ix, SourcesAll(run[..n], limit), run[n], limit);
      }
    }
  }

  /** And over no other run: a block that shares a digest with a retained one leaves them incoherent. */
  lemma CoherentThroughoutIff(run: seq<Source>, limit: Option<nat>)
    ensures CoherentThroughout(run, limit) <==> FreshRun(run, limit)
  {
    if FreshRun(run, limit) {
      FreshIsCoherent(run, limit);
    } else if CoherentThroughout(run, limit) {
      CoherentIsFresh(run, limit);
    }
  }

  ghost predicate CoherentThroughout(run: seq<Source>, limit: Option<nat>) {
    forall n :: 0 <= n <= |run| ==> CoherentAfter(run[..n], limit)
  }

  lemma FreshIsCoherent(run: seq<Source>, limit: Option<nat>)
    requires FreshRun(run, limit)
    ensures CoherentThroughout(run, limit)
  {
    forall n | 0 <= n <= |run|
      ensures CoherentAfter(run[..n], limit)
    {
      FreshPrefix(run, n, limit);
      FreshRunsStayCoherent(run[..n], limit);
    }
  }

  lemma FreshPrefix(run: seq<Source>, n: nat, limit: Option<nat>)
    requires FreshRun(run, limit) && n <= |run|
    ensures FreshRun(run[..n], limit)
  {
    assert forall i :: 0 <= i < n ==> run[..n][..i] == run[..i];
  }

  lemma CoherentIsFresh(run: seq<Source>, limit: Option<nat>)
    requires CoherentThroughout(run, limit)
    ensures FreshRun(run, limit)
  {
    forall i | 0 <= i < |run|
      ensures run[i].progress.height in IndexAll(run[..i], limit).blocks || Fresh(IndexAll(run[..i], limit), run[i])
    {
      PrefixSnoc(run, i);
      CoherentPrefix(run, i, limit);
      CoherentPrefix(run, i + 1, limit);
      FreshIfStillCoherent(run[..i], run[i], run[..i + 1], limit);
    }
  }

  lemma PrefixSnoc(run: seq<Source>, i: nat)
    requires i < |run|
    ensures run[..i + 1] == run[..i] + [run[i]]
  {
  }

  lemma CoherentPrefix(run: seq<Source>, n: nat, limit: Option<nat>)
    requires CoherentThroughout(run, limit) && n <= |run|
    ensures CoherentAfter(run[..n], limit)
  {
  }

  ghost predicate CoherentAfter(run: seq<Source>, limit: Option<nat>) {
    Coherent(IndexAll(run, limit), SourcesAll(run, limit))
  }

  lemma FreshIfStillCoherent(before: seq<Source>, s: Source, run: seq<Source>, limit: Option<nat>)
    requires run == before + [s] && CoherentAfter(before, limit) && CoherentAfter(run, limit)
    ensures s.progress.height in IndexAll(before, limit).blocks || Fresh(IndexAll(before, limit), s)
  {
    assert run[..|run| - 1] == before;
    RetainsGreatestHeights(before, limit);
    if s.progress.height !in IndexAll(before, limit).blocks {
      SourcesStep(run, limit);
      CoherentExactlyWhenFresh(IndexAll(before, limit), SourcesAll(before, limit), s, limit);
    }
  }

  lemma HeightsStep(ix: Index, sources: map<nat, Source>, s: Source, after: Index)
    requires HeightsDescribed(ix, sources) && s.progress.height !in ix.blocks && OneStep(ix, s, after)
    ensures HeightsDescribed(after, Survivors(sources, s, after.blocks.Keys))
  {
    InsertedHeights(ix, sources, s);
    var grown, all := Inserted(ix, s), sources[s.progress.height := s];
    SurvivorsAre(sources, s, after.blocks.Keys);
    if after != grown {
      RemovedHeights(grown, all, Lowest(grown.blocks.Keys));
    }
  }

  lemma {:induction false} SourcesArrived(p: seq<Source>, limit: Option<nat>)
    ensures forall h :: h in SourcesAll(p, limit) ==> SourcesAll(p, limit)[h] in p && SourcesAll(p, limit)[h].progress.height == h
  {
    if p != [] {
      SourcesArrived(p[..|p| - 1], limit);
    }
  }

  /** Over any run each retained height is described by the block it was indexed from. */
  lemma {:induction false} RunDescribes(p: seq<Source>, limit: Option<nat>)
    ensures HeightsDescribed(IndexAll(p, limit), SourcesAll(p, limit))
  {
    if p != [] {
      var n := |p| - 1;
      RunDescribes(p[..n], limit);
      if p[n].progress.height !in IndexAll(p[..n], limit).blocks {
        RetainsGreatestHeights(p[..n], limit);
        SourcesStep(p, limit);
        IndexedShape(IndexAll(p[..n], limit), p[n], limit);
        HeightsStep(IndexAll(p[..n], limit), SourcesAll(p[..n], limit), p[n], IndexAll(p, limit));
      }
    }
  }

  /******* Pages *******/

  /** One page of a listing, and where the next one starts. */
  function Page<T>(all: seq<T>, offset: nat, limit: nat): (seq<T>, Option<nat>) {
    var from := Min(offset, |all|);
    var page := all[from..Min(from + limit, |all|)];
    (page, if offset + |page| < |all| then Some(offset + |page|) else None)
  }

  /** The pages read by following at most `n` links. */
  function Follow<T>(all: seq<T>, offset: nat, limit: nat, n: nat): seq<T>
    decreases n
  {
    if n == 0 then []
    else
      var (page, next) := Page(all, offset, limit);
      page + if next.Some? then Follow(all, next.value, limit, n - 1) else []
  }

  /** Following the links reads every remaining item once, in order, exactly when pages hold at least
      one item or nothing remains: a page size of zero links to itself. */
  lemma {:induction false} PagesTile<T>(all: seq<T>, offset: nat, limit: nat)
    requires offset <= |all|
    ensures (forall n :: n > |all| - offset ==> Follow(all, offset, limit, n) == all[offset..])
            <==> limit > 0 || offset == |all|
  {
    if limit > 0 || offset == |all| {
      forall n | n > |all| - offset
        ensures Follow(all, offset, limit, n) == all[offset..]
      {
        PagesReach(all, offset, limit, n);
      }
    } else {
      EmptyPages(all, offset, |all| - offset + 1);
    }
  }

  lemma {:induction false} PagesReach<T>(all: seq<T>, offset: nat, limit: nat, n: nat)
    requires offset <= |all| && n > |all| - offset && (limit > 0 || offset == |all|)
    ensures Follow(all, offset, limit, n) == all[offset..]
    decreases n
  {
    var (page, next) := Page(all, offset, limit);
    if next.Some? {
      PagesReach(all, next.value, limit, n - 1);
    }
  }

  lemma {:induction false} EmptyPages<T>(all: seq<T>, offset: nat, n: nat)
    requires offset < |all|
    ensures Follow(all, offset, 0, n) == []
  {
    if n > 0 {
      assert Page(all, offset, 0) == ([], Some(offset));
      EmptyPages(all, offset, n - 1);
    }
  }
}
