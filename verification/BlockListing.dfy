/** What the explorer's index says of each retained block and transaction, field by field, and how it lists
    blocks (simulator/src/explorer.rs:607-693 and 747-781). */
module BlockListing {
  import opened Prelude
  import opened Retention
  import opened BlockIndex

  /******* Blocks *******/

  /** The positions of a block's transactions among its operations, in order. */
  ghost predicate TransactionsAt(ops: seq<Op>, at: seq<nat>) {
    && (forall j :: 0 <= j < |at| ==> at[j] < |ops| && ops[at[j]].Transaction?)
    && (forall i, j :: 0 <= i < j < |at| ==> at[i] < at[j])
    && (forall i: nat :: i < |ops| && ops[i].Transaction? ==> i in at)
  }

  lemma AtMore(ops: seq<Op>, n: nat, at: seq<nat>)
    requires |ops| == n + 1 && TransactionsAt(ops[..n], at)
    ensures TransactionsAt(ops, if ops[n].Transaction? then at + [n] else at)
  {
    var more := if ops[n].Transaction? then at + [n] else at;
    forall i: nat | i < |ops| && ops[i].Transaction?
      ensures i in more
    {
      if i < n {
        assert ops[..n][i] == ops[i];
      } else {
        assert more[|at|] == n;
      }
    }
  }

  /** The digests listed for a block are those of its transactions, in order. */
  lemma {:induction false} DigestsByIndex(ops: seq<Op>) returns (at: seq<nat>)
    ensures TransactionsAt(ops, at) && |TxDigests(ops)| == |at|
    ensures forall j :: 0 <= j < |at| ==> TxDigests(ops)[j] == ops[at[j]].digest
  {
    if ops == [] {
      at := [];
    } else {
      var n := |ops| - 1;
      var front := DigestsByIndex(ops[..n]);
      AtMore(ops, n, front);
      at := if ops[n].Transaction? then front + [n] else front;
    }
  }

  /** The block says what it was indexed from: its height, view, digest and time, and the digests and the number
      of its transactions. */
  ghost predicate Tells(block: Block, s: Source, at: seq<nat>) {
    && block.height == s.progress.height && block.view == s.progress.view && block.digest == s.progress.digest
    && block.indexedAt == s.indexedAt
    && TransactionsAt(s.ops, at) && |block.txs| == |at| == block.txCount
    && forall j :: 0 <= j < |at| ==> block.txs[j] == s.ops[at[j]].digest
  }

  /** Over any run, whatever it repeats or shares, each retained height was indexed from a block that arrived for
      it, and its entries say so. */
  lemma BlockTells(run: seq<Source>, limit: Option<nat>, h: nat) returns (s: Source, at: seq<nat>)
    requires h in IndexAll(run, limit).blocks
    ensures
      var ix := IndexAll(run, limit);
      && s in run && s.progress.height == h && Tells(ix.blocks[h], s, at)
      && h in ix.byHeight && ix.byHeight[h] == s.progress.digest
      && h in ix.txsByHeight && ix.txsByHeight[h] == ix.blocks[h].txs
  {
    var ix, sources := IndexAll(run, limit), SourcesAll(run, limit);
    RunDescribes(run, limit);
    SourcesArrived(run, limit);
    assert Described(ix, sources, h);
    s := sources[h];
    at := DigestsByIndex(s.ops);
  }

  /** A new block's parent is the retained block one height below, and no other block changes. */
  lemma ParentOnArrival(ix: Index, s: Source, limit: Option<nat>, h: nat)
    requires Within(ix, limit) && s.progress.height !in ix.blocks && h in Indexed(ix, s, limit).blocks
    ensures
      var block := Indexed(ix, s, limit).blocks[h];
      if h == s.progress.height then
        block.parent == if h > 0 && h - 1 in ix.blocks then Some(ix.blocks[h - 1].digest) else None
      else h in ix.blocks && block == ix.blocks[h]
  {
    IndexedShape(ix, s, limit);
  }

  /******* Transactions *******/

  /** Transaction `i` of the block and no later one in it has the digest. */
  predicate LastWith(ops: seq<Op>, i: nat, d: Digest) {
    && i < |ops| && ops[i].Transaction? && ops[i].digest == d
    && forall j :: i < j < |ops| && ops[j].Transaction? ==> ops[j].digest != d
  }

  lemma DigestListed(ops: seq<Op>, i: nat)
    requires i < |ops| && ops[i].Transaction?
    ensures ops[i].digest in TxDigests(ops)
  {
    var at := DigestsByIndex(ops);
    assert i in at;
  }

  lemma LastIsLast(ops: seq<Op>, i: nat, d: Digest)
    requires LastWith(ops, i, d)
    ensures d in TxDigests(ops) && LastOp(ops, d) == i
  {
    DigestListed(ops, i);
  }

  /** Over a run of fresh blocks the entry of a digest that a retained block carries is that of the last
      transaction with it in that block, with its position modulo 2^32. */
  lemma TransactionTells(run: seq<Source>, limit: Option<nat>, d: Digest, h: nat, i: nat)
    requires FreshRun(run, limit) && h in SourcesAll(run, limit) && LastWith(SourcesAll(run, limit)[h].ops, i, d)
    ensures
      var ix, s := IndexAll(run, limit), SourcesAll(run, limit)[h];
      && d in ix.txs && s.progress.height == h
      && ix.txs[d] == TxEntry(d, h, s.progress.digest, i % 0x1_0000_0000, s.ops[i].public, s.ops[i].nonce)
  {
    FreshRunsStayCoherent(run, limit);
    EntryIs(IndexAll(run, limit), SourcesAll(run, limit), d, h, i);
  }

  /** And no other digest is found. */
  lemma TransactionFound(run: seq<Source>, limit: Option<nat>, d: Digest) returns (h: nat, i: nat)
    requires FreshRun(run, limit) && d in IndexAll(run, limit).txs
    ensures h in SourcesAll(run, limit) && LastWith(SourcesAll(run, limit)[h].ops, i, d)
  {
    FreshRunsStayCoherent(run, limit);
    h, i := FoundSomewhere(IndexAll(run, limit), SourcesAll(run, limit), d);
  }

  lemma FoundSomewhere(ix: Index, sources: map<nat, Source>, d: Digest) returns (h: nat, i: nat)
    requires TxsInvert(ix.txs, sources) && d in ix.txs
    ensures h in sources && LastWith(sources[h].ops, i, d)
  {
    assert Explained(ix.txs[d], sources, d);
    h := ix.txs[d].height;
    i := LastOp(sources[h].ops, d);
  }

  lemma EntryIs(ix: Index, sources: map<nat, Source>, d: Digest, h: nat, i: nat)
    requires Coherent(ix, sources) && h in sources && LastWith(sources[h].ops, i, d)
    ensures
      var op := sources[h].ops[i];
      && d in ix.txs && sources[h].progress.height == h
      && ix.txs[d] == TxEntry(d, h, sources[h].progress.digest, i % 0x1_0000_0000, op.public, op.nonce)
  {
    LastIsLast(sources[h].ops, i, d);
    Owner(ix.txs, sources, d, h);
    assert Explained(ix.txs[d], sources, d);
    assert Described(ix, sources, h);
  }

  /******* Listing *******/

  /** Every height once, the greatest first. */
  ghost predicate Descending(all: seq<nat>, heights: set<nat>) {
    && (forall i, j :: 0 <= i < j < |all| ==> all[i] > all[j])
    && (forall h :: h in all <==> h in heights)
  }

  method NewestFirst(heights: set<nat>) returns (all: seq<nat>)
    ensures Descending(all, heights) && |all| == |heights|
  {
    all := [];
    var left := heights;
    assert heights - left == {};
    while left != {}
      invariant left <= heights && Descending(all, heights - left) && |all| + |left| == |heights|
      invariant forall i, h :: 0 <= i < |all| && h in left ==> h < all[i]
      decreases left
    {
      var h := LastKey(left);
      OneLower(all, heights - left, h);
      OneLess(heights, left, h);
      all := all + [h];
      left := left - {h};
    }
    assert heights - left == heights;
  }

  lemma OneLower(all: seq<nat>, heights: set<nat>, h: nat)
    requires Descending(all, heights) && h !in heights && forall i :: 0 <= i < |all| ==> h < all[i]
    ensures Descending(all + [h], heights + {h})
  {
  }

  lemma OneLess(heights: set<nat>, left: set<nat>, h: nat)
    requires left <= heights && h in left
    ensures heights - (left - {h}) == heights - left + {h} && |left - {h}| == |left| - 1
  {
  }

  function Above(heights: set<nat>, h: nat): set<nat> {
    set g | g in heights && g > h
  }

  function Firsts(all: seq<nat>, k: nat): set<nat>
    requires k <= |all|
  {
    set i | 0 <= i < k :: all[i]
  }

  lemma {:induction false} FirstsSize(all: seq<nat>, k: nat)
    requires k <= |all| && forall i, j :: 0 <= i < j < |all| ==> all[i] > all[j]
    ensures |Firsts(all, k)| == k
  {
    if k > 0 {
      FirstsSize(all, k - 1);
      FirstsStep(all, k - 1);
    }
  }

  lemma FirstsStep(all: seq<nat>, k: nat)
    requires k < |all| && forall i, j :: 0 <= i < j < |all| ==> all[i] > all[j]
    ensures Firsts(all, k + 1) == Firsts(all, k) + {all[k]} && all[k] !in Firsts(all, k)
  {
  }

  /** As many heights are above the k-th one listed. */
  lemma RankIs(all: seq<nat>, heights: set<nat>, k: nat)
    requires Descending(all, heights) && k < |all|
    ensures |Above(heights, all[k])| == k
  {
    FirstsSize(all, k);
    forall g | g in Above(heights, all[k])
      ensures g in Firsts(all, k)
    {
      var i :| 0 <= i < |all| && all[i] == g;
    }
    assert Firsts(all, k) == Above(heights, all[k]);
  }

  function BlocksAt(blocks: map<nat, Block>, heights: seq<nat>): seq<Block>
    requires forall h :: h in heights ==> h in blocks
  {
    seq(|heights|, i requires 0 <= i < |heights| => blocks[heights[i]])
  }

  /** Block `i` of the page is the one with `from + i` newer ones. */
  ghost predicate Ranked(page: seq<Block>, blocks: map<nat, Block>, from: nat) {
    forall i :: 0 <= i < |page| ==>
      && page[i].height in blocks && blocks[page[i].height] == page[i]
      && |Above(blocks.Keys, page[i].height)| == from + i
  }

  lemma PageIsRanked(blocks: map<nat, Block>, all: seq<nat>, from: nat, size: nat)
    requires Descending(all, blocks.Keys) && forall h :: h in blocks ==> blocks[h].height == h
    ensures forall h :: h in Page(all, from, size).0 ==> h in blocks
    ensures Ranked(BlocksAt(blocks, Page(all, from, size).0), blocks, from)
  {
    var heights := Page(all, from, size).0;
    forall i | 0 <= i < |heights|
      ensures heights[i] in blocks && |Above(blocks.Keys, heights[i])| == from + i
    {
      assert heights[i] == all[from + i];
      RankIs(all, blocks.Keys, from + i);
    }
  }

  /** `list_blocks`: at most 200 blocks, 20 unless asked otherwise, newest first, from those with `offset` newer
      ones on; and the offset of the next page if any block is left after them. */
  method ListBlocks(explorer: ExplorerState, offset: Option<nat>, limit: Option<nat>)
    returns (page: seq<Block>, next: Option<nat>, total: nat)
    requires forall h :: h in explorer.blocks ==> explorer.blocks[h].height == h
    ensures total == |explorer.blocks|
    ensures
      var from, size := if offset.Some? then offset.value else 0, Min(if limit.Some? then limit.value else 20, 200);
      && |page| == Max(0, Min(size, total - from)) && Ranked(page, explorer.blocks, from)
      && next == if from + |page| < total then Some(from + |page|) else None
  {
    var from, size := if offset.Some? then offset.value else 0, Min(if limit.Some? then limit.value else 20, 200);
    var all := NewestFirst(explorer.blocks.Keys);
    total := |explorer.blocks|;
    assert total == |explorer.blocks.Keys|;
    PageIsRanked(explorer.blocks, all, from, size);
    var listed := Page(all, from, size);
    page, next := BlocksAt(explorer.blocks, listed.0), listed.1;
  }
}
