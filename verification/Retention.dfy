/** Maps that keep only their greatest keys: the `BTreeMap` with a limit and `pop_first` that
    simulator/src/explorer.rs and simulator/src/state.rs use for blocks, versions, progress and seeds. */
module Retention {
  import opened Prelude

  ghost predicate IsLowest(keys: set<nat>, k: nat) {
    k in keys && forall other :: other in keys ==> k <= other
  }

  ghost predicate IsHighest(keys: set<nat>, k: nat) {
    k in keys && forall other :: other in keys ==> other <= k
  }

  lemma LowestExists(keys: set<nat>) returns (k: nat)
    requires keys != {}
    ensures IsLowest(keys, k)
  {
    k :| k in keys;
    var rest := keys - {k};
    if rest != {} {
      var low := LowestExists(rest);
      assert keys == rest + {k};
      k := if low < k then low else k;
    } else {
      assert keys == {k};
    }
  }

  ghost function Lowest(keys: set<nat>): (k: nat)
    requires keys != {}
    ensures IsLowest(keys, k)
  {
    assert exists k :: IsLowest(keys, k) by {
      var k := LowestExists(keys);
    }
    var k :| IsLowest(keys, k);
    k
  }

  method FirstKey(keys: set<nat>) returns (k: nat)
    requires keys != {}
    ensures IsLowest(keys, k)
  {
    k :| k in keys;
    var rest := keys - {k};
    while rest != {}
      invariant k in keys && rest <= keys
      invariant forall other :: other in keys && other !in rest ==> k <= other
      decreases rest
    {
      var other :| other in rest;
      rest := rest - {other};
      if other < k {
        k := other;
      }
    }
  }

  method LastKey(keys: set<nat>) returns (k: nat)
    requires keys != {}
    ensures IsHighest(keys, k)
  {
    k :| k in keys;
    var rest := keys - {k};
    while rest != {}
      invariant k in keys && rest <= keys
      invariant forall other :: other in keys && other !in rest ==> other <= k
      decreases rest
    {
      var other :| other in rest;
      rest := rest - {other};
      if other > k {
        k := other;
      }
    }
  }

  /** `kept` are the `limit` greatest of `all`. */
  ghost predicate Greatest(kept: set<nat>, all: set<nat>, limit: Option<nat>) {
    && Upper(kept, all)
    && (limit.Some? ==> |kept| <= limit.value)
    && ((limit.Some? ==> |kept| < limit.value) ==> kept == all)
  }

  /** Everything left out is below everything kept. */
  ghost predicate Upper(kept: set<nat>, all: set<nat>) {
    kept <= all && forall a, b :: a in kept && b in all && b !in kept ==> b < a
  }

  lemma GreatestGrown(kept: set<nat>, all: set<nat>, k: nat, limit: Option<nat>)
    requires Greatest(kept, all, limit) && k !in kept && (limit.Some? ==> |kept| + 1 <= limit.value)
    ensures Greatest(kept + {k}, all + {k}, limit)
  {
  }

  lemma GreatestFull(kept: set<nat>, all: set<nat>, k: nat, low: nat, limit: nat)
    requires Greatest(kept, all, Some(limit)) && |kept| == limit && k !in kept && IsLowest(kept + {k}, low)
    ensures Greatest(kept + {k} - {low}, all + {k}, Some(limit))
  {
    assert |kept + {k}| == limit + 1;
  }

  lemma {:induction false} GreatestExists(all: set<nat>, limit: Option<nat>)
    ensures exists kept :: Greatest(kept, all, limit)
    decreases |all|
  {
    if limit.None? || |all| <= limit.value {
      assert Greatest(all, all, limit);
    } else {
      var low := Lowest(all);
      GreatestExists(all - {low}, limit);
      var kept :| Greatest(kept, all - {low}, limit);
      NotFull(kept, all - {low}, limit.value);
      assert Greatest(kept, all, limit);
    }
  }

  /** At least `limit` are kept when there are that many. */
  lemma NotFull(kept: set<nat>, all: set<nat>, limit: nat)
    requires Greatest(kept, all, Some(limit)) && |all| >= limit
    ensures |kept| == limit
  {
  }

  lemma GreatestUnique(a: set<nat>, b: set<nat>, all: set<nat>, limit: Option<nat>)
    requires Greatest(a, all, limit) && Greatest(b, all, limit)
    ensures a == b
  {
    GreatestWithin(a, b, all, limit);
    GreatestWithin(b, a, all, limit);
  }

  lemma GreatestWithin(a: set<nat>, b: set<nat>, all: set<nat>, limit: Option<nat>)
    requires Greatest(a, all, limit) && Greatest(b, all, limit)
    ensures a <= b
  {
    if x :| x in a && x !in b {
      if y :| y in b && y !in a {
        assert false;
      } else {
        assert a == b + (a - b) && x in a - b;
      }
    }
  }

  /** The `limit` greatest of `all`. */
  ghost function GreatestOf(all: set<nat>, limit: Option<nat>): (kept: set<nat>)
    ensures Greatest(kept, all, limit)
  {
    GreatestExists(all, limit);
    var kept :| Greatest(kept, all, limit);
    kept
  }

  /** A bounded map holds the entries of the unbounded one at its `limit` greatest keys. */
  ghost predicate Bounded<V>(m: map<nat, V>, full: map<nat, V>, limit: Option<nat>) {
    Greatest(m.Keys, full.Keys, limit) && forall k :: k in m ==> m[k] == full[k]
  }

  lemma MapSize<V>(m: map<nat, V>, k: nat)
    requires k in m
    ensures |m| == |m.Keys| && |m - {k}| == |m| - 1 && (m - {k}).Keys == m.Keys - {k}
  {
    assert (m - {k}).Keys == m.Keys - {k};
    assert |m - {k}| == |(m - {k}).Keys| && |m| == |m.Keys|;
  }

  /** Insert, then pop the lowest key while there are too many. */
  method InsertBounded<V>(m: map<nat, V>, k: nat, v: V, limit: Option<nat>, ghost full: map<nat, V>)
    returns (r: map<nat, V>)
    requires Bounded(m, full, limit)
    ensures Bounded(r, full[k := v], limit)
  {
    r := m[k := v];
    PutSize(m, k, v);
    if limit.None? {
      return;
    }
    if |r| <= limit.value {
      PutWithRoom(m, k, v, limit, full);
    }
    while |r| > limit.value
      invariant (|r| <= limit.value && Bounded(r, full[k := v], limit)) || (r == m[k := v] && |r| > limit.value)
    {
      assert r.Keys != {} by {
        assert |r| == |r.Keys|;
      }
      var low := FirstKey(r.Keys);
      PutWithoutRoom(m, k, v, limit.value, full, low);
      r := r - {low};
    }
  }

  lemma PutSize<V>(m: map<nat, V>, k: nat, v: V)
    ensures m[k := v].Keys == m.Keys + {k} && |m[k := v]| == if k in m then |m| else |m| + 1
  {
    assert m[k := v].Keys == m.Keys + {k};
    assert |m[k := v]| == |m[k := v].Keys| && |m| == |m.Keys|;
    if k in m {
      assert m.Keys + {k} == m.Keys;
    }
  }

  lemma PutWithRoom<V>(m: map<nat, V>, k: nat, v: V, limit: Option<nat>, full: map<nat, V>)
    requires Bounded(m, full, limit) && (limit.Some? ==> |m[k := v]| <= limit.value)
    ensures Bounded(m[k := v], full[k := v], limit)
  {
    PutSize(m, k, v);
    assert full[k := v].Keys == full.Keys + {k} && |m| == |m.Keys|;
    if k in m {
      assert m.Keys + {k} == m.Keys && full.Keys + {k} == full.Keys;
    } else {
      GreatestGrown(m.Keys, full.Keys, k, limit);
    }
  }

  lemma PutWithoutRoom<V>(m: map<nat, V>, k: nat, v: V, limit: nat, full: map<nat, V>, low: nat)
    requires Bounded(m, full, Some(limit)) && |m[k := v]| > limit && IsLowest(m[k := v].Keys, low)
    ensures Bounded(m[k := v] - {low}, full[k := v], Some(limit)) && |m[k := v] - {low}| == limit
  {
    PutSize(m, k, v);
    MapSize(m[k := v], low);
    assert |m| == |m.Keys| && full[k := v].Keys == full.Keys + {k};
    GreatestFull(m.Keys, full.Keys, k, low, limit);
  }

  /******* What the greatest key holds *******/

  /** The map that a sequence of writes leaves, with no bound. */
  function Written<V>(writes: seq<(nat, V)>): map<nat, V> {
    if writes == [] then map[]
    else Written(writes[..|writes| - 1])[writes[|writes| - 1].0 := writes[|writes| - 1].1]
  }

  /** The last write to the greatest key written. */
  function Top<V>(writes: seq<(nat, V)>): Option<(nat, V)> {
    if writes == [] then None
    else
      var top, last := Top(writes[..|writes| - 1]), writes[|writes| - 1];
      if top.None? || top.value.0 <= last.0 then Some(last) else top
  }

  lemma {:induction false} TopIsHighest<V>(writes: seq<(nat, V)>)
    ensures match Top(writes)
            case None => writes == [] && Written(writes) == map[]
            case Some((k, v)) => IsHighest(Written(writes).Keys, k) && Written(writes)[k] == v
  {
    if writes != [] {
      TopIsHighest(writes[..|writes| - 1]);
    }
  }

  /** Bounding a map never loses its greatest entry, unless the bound is zero. */
  lemma BoundedKeepsTop<V>(m: map<nat, V>, writes: seq<(nat, V)>, limit: Option<nat>)
    requires Bounded(m, Written(writes), limit)
    ensures
      if limit == Some(0) then m == map[]
      else match Top(writes)
           case None => m == map[]
           case Some((k, v)) => IsHighest(m.Keys, k) && m[k] == v
  {
    TopIsHighest(writes);
    if limit == Some(0) {
      assert m.Keys == {};
    } else if writes != [] {
      assert m.Keys != {};
      var a :| a in m.Keys;
    }
  }

  /** The map holds, for each key written, what was written to it last. */
  lemma {:induction false} WrittenIsLast<V>(writes: seq<(nat, V)>, k: nat)
    ensures k in Written(writes) <==> exists i :: 0 <= i < |writes| && writes[i].0 == k
    ensures forall i :: 0 <= i < |writes| && writes[i].0 == k && (forall j :: i < j < |writes| ==> writes[j].0 != k) ==>
              k in Written(writes) && Written(writes)[k] == writes[i].1
  {
    if writes != [] {
      var n := |writes| - 1;
      WrittenIsLast(writes[..n], k);
      assert forall i :: 0 <= i < n ==> writes[..n][i] == writes[i];
      if k in Written(writes[..n]) {
        var i :| 0 <= i < n && writes[..n][i].0 == k;
        assert writes[i].0 == k;
      }
    }
  }

  /** The top write is the last one to a key that no write exceeds. */
  lemma {:induction false} TopIsLast<V>(writes: seq<(nat, V)>)
    ensures match Top(writes)
            case None => writes == []
            case Some(top) =>
              exists i :: 0 <= i < |writes| && writes[i] == top
                          && (forall j :: 0 <= j < |writes| ==> writes[j].0 <= top.0)
                          && (forall j :: i < j < |writes| ==> writes[j].0 < top.0)
  {
    if writes != [] {
      var n := |writes| - 1;
      TopIsLast(writes[..n]);
      var top := Top(writes[..n]);
      if top.Some? && top.value.0 > writes[n].0 {
        var i :| 0 <= i < n && writes[..n][i] == top.value && (forall j :: 0 <= j < n ==> writes[..n][j].0 <= top.value.0)
                 && (forall j :: i < j < n ==> writes[..n][j].0 < top.value.0);
        StillLast(writes, n, i);
      } else {
        NowLast(writes, n);
      }
    }
  }

  lemma StillLast<V>(writes: seq<(nat, V)>, n: nat, i: nat)
    requires |writes| == n + 1 && i < n && writes[n].0 < writes[i].0
    requires forall j :: 0 <= j < n ==> writes[..n][j].0 <= writes[i].0
    requires forall j :: i < j < n ==> writes[..n][j].0 < writes[i].0
    ensures forall j :: 0 <= j < |writes| ==> writes[j].0 <= writes[i].0
    ensures forall j :: i < j < |writes| ==> writes[j].0 < writes[i].0
  {
    assert forall j :: 0 <= j < n ==> writes[j] == writes[..n][j];
  }

  lemma NowLast<V>(writes: seq<(nat, V)>, n: nat)
    requires |writes| == n + 1 && (forall j :: 0 <= j < n ==> writes[..n][j].0 <= writes[n].0)
    ensures forall j :: 0 <= j < |writes| ==> writes[j].0 <= writes[n].0
  {
    assert forall j :: 0 <= j < n ==> writes[j] == writes[..n][j];
  }
}
