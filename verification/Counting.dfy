/** Maps of positive counts that stand for a multiset: reference counts, connections per address and
    subscriptions per filter are all kept this way. */
module Counting {

  /** Every stored count is positive and is the multiplicity of its key. */
  ghost predicate CountsOf<K(!new)>(counts: map<K, nat>, all: multiset<K>) {
    && (forall k :: k in counts <==> k in all)
    && (forall k :: k in counts ==> counts[k] == all[k])
  }

  function Bumped<K(==)>(counts: map<K, nat>, k: K): map<K, nat> {
    counts[k := (if k in counts then counts[k] else 0) + 1]
  }

  /** One less, and no entry at all once nothing is left. */
  function Dropped<K(==)>(counts: map<K, nat>, k: K): map<K, nat> {
    if k !in counts then counts
    else if counts[k] > 1 then counts[k := counts[k] - 1]
    else counts - {k}
  }

  lemma BumpCounts<K(!new)>(counts: map<K, nat>, all: multiset<K>, k: K)
    requires CountsOf(counts, all)
    ensures CountsOf(Bumped(counts, k), all + multiset{k})
  {
  }

  lemma DropCounts<K(!new)>(counts: map<K, nat>, all: multiset<K>, k: K)
    requires CountsOf(counts, all) && k in all
    ensures CountsOf(Dropped(counts, k), all - multiset{k})
  {
  }

  method SumValues<K(==, !new)>(counts: map<K, nat>, ghost all: multiset<K>) returns (sum: nat)
    requires CountsOf(counts, all)
    ensures sum == |all|
  {
    sum := 0;
    var left := counts.Keys;
    ghost var rest := all;
    while left != {}
      invariant left <= counts.Keys && sum + |rest| == |all|
      invariant forall k :: rest[k] == if k in left then counts[k] else 0
      decreases left
    {
      var k :| k in left;
      ghost var before := rest;
      rest := rest[k := 0];
      assert before == rest + multiset{}[k := counts[k]];
      sum := sum + counts[k];
      left := left - {k};
    }
    assert rest == multiset{};
  }
}
