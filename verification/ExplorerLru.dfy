/** simulator/src/explorer.rs: the bounded account and game-event maps. Both use the same scheme, a
    queue of (key, token) pairs with stale entries that are skipped when popped and compacted when
    they pile up; `LruIndex` models it once. The reference is the full history of touches. */
module ExplorerLru {
  import opened Prelude

  /******* The k most recently touched keys *******/

  /** The position of the last touch of a key. */
  function LastTouch<K(==, !new)>(history: seq<K>, key: K): (i: nat)
    requires key in history
    ensures i < |history| && history[i] == key && forall m :: i < m < |history| ==> history[m] != key
  {
    if history[|history| - 1] == key then |history| - 1 else LastTouch(history[..|history| - 1], key)
  }

  /** `keys` are the `limit` most recently touched keys: all of the touched keys if there are no more
      than that, and otherwise `limit` of them, each touched later than every key left out. */
  ghost predicate MostRecent<K(!new)>(keys: set<K>, history: seq<K>, limit: Option<nat>) {
    && (forall k :: k in keys ==> k in history)
    && (limit.Some? ==> |keys| <= limit.value)
    && ((limit.Some? ==> |keys| < limit.value) ==> forall k :: k in history ==> k in keys)
    && LaterThanTheRest(keys, history)
  }

  ghost predicate LaterThanTheRest<K(!new)>(keys: set<K>, history: seq<K>)
    requires forall k :: k in keys ==> k in history
  {
    forall kept, out :: kept in keys && out in history && out !in keys ==>
      LastTouch(history, out) < LastTouch(history, kept)
  }

  /** `MostRecent` leaves no choice. */
  lemma MostRecentIsUnique<K(!new)>(a: set<K>, b: set<K>, history: seq<K>, limit: Option<nat>)
    requires MostRecent(a, history, limit) && MostRecent(b, history, limit)
    ensures a == b
  {
    MostRecentWithin(a, b, history, limit);
    MostRecentWithin(b, a, history, limit);
  }

  lemma MostRecentWithin<K(!new)>(a: set<K>, b: set<K>, history: seq<K>, limit: Option<nat>)
    requires MostRecent(a, history, limit) && MostRecent(b, history, limit)
    ensures a <= b
  {
    if x :| x in a && x !in b {
      if y :| y in b && y !in a {
        assert false;
      } else {
        SmallerThan(b, a, x);
      }
    }
  }

  lemma SmallerThan<K>(a: set<K>, b: set<K>, x: K)
    requires a <= b && x in b && x !in a
    ensures |a| < |b|
  {
    assert b == a + (b - a) && x in b - a;
  }

  lemma TouchedLast<K(!new)>(history: seq<K>, key: K, k: K)
    requires k in history || k == key
    ensures LastTouch(history + [key], k) == if k == key then |history| else LastTouch(history, k)
  {
    assert (history + [key])[..|history|] == history;
  }

  /******* Keys, tokens and queue *******/

  /** The key's token says when it was last touched, and is still in the queue. */
  ghost predicate Stamped<K(!new)>(k: K, history: seq<K>, tokens: map<K, nat>, queue: seq<(K, nat)>) {
    k in tokens && k in history && tokens[k] == LastTouch(history, k) + 1 && (k, tokens[k]) in queue
  }

  /** Every key's token says when it was last touched, and is still in the queue; the queue is sorted. */
  ghost predicate Agree<K(!new)>(keys: set<K>, history: seq<K>, tokens: map<K, nat>, queue: seq<(K, nat)>) {
    && tokens.Keys == keys
    && (forall k :: k in keys ==> k in history)
    && (forall k {:trigger Stamped(k, history, tokens, queue)} :: k in keys ==> Stamped(k, history, tokens, queue))
    && Increasing(queue)
    && (forall i :: 0 <= i < |queue| ==> queue[i].1 <= |history|)
  }

  ghost predicate Increasing<K>(queue: seq<(K, nat)>) {
    forall i, j :: 0 <= i < j < |queue| ==> queue[i].1 < queue[j].1
  }

  lemma AgreeAfterTouch<K(!new)>(keys: set<K>, history: seq<K>, tokens: map<K, nat>, queue: seq<(K, nat)>, key: K)
    requires Agree(keys, history, tokens, queue)
    ensures
      var token := |history| + 1;
      Agree(keys + {key}, history + [key], tokens[key := token], queue + [(key, token)])
  {
    var q := queue + [(key, |history| + 1)];
    assert q[|queue|] == (key, |history| + 1);
    assert (history + [key])[|history|] == key;
    forall k | k in keys + {key}
      ensures k in history + [key] && Stamped(k, history + [key], tokens[key := |history| + 1], q)
    {
      assert k in keys ==> Stamped(k, history, tokens, queue);
      TouchedLast(history, key, k);
    }
  }

  /** Touching a key adds it and leaves the order of the others alone. */
  lemma LaterAfterTouch<K(!new)>(keys: set<K>, history: seq<K>, key: K)
    requires (forall k :: k in keys ==> k in history) && LaterThanTheRest(keys, history)
    ensures forall k :: k in keys + {key} ==> k in history + [key]
    ensures LaterThanTheRest(keys + {key}, history + [key])
  {
    assert (history + [key])[|history|] == key;
    forall kept, out | kept in keys + {key} && out in history + [key] && out !in keys + {key}
      ensures LastTouch(history + [key], out) < LastTouch(history + [key], kept)
    {
      TouchedLast(history, key, kept);
      TouchedLast(history, key, out);
    }
  }

  /** A popped pair that is not current is forgotten without loss. */
  lemma AgreeAfterStale<K(!new)>(keys: set<K>, history: seq<K>, tokens: map<K, nat>, queue: seq<(K, nat)>)
    requires Agree(keys, history, tokens, queue) && queue != []
    requires queue[0].0 !in tokens || tokens[queue[0].0] != queue[0].1
    ensures Agree(keys, history, tokens, queue[1..])
  {
    forall k | k in keys
      ensures Stamped(k, history, tokens, queue[1..])
    {
      assert Stamped(k, history, tokens, queue);
      var i :| 0 <= i < |queue| && queue[i] == (k, tokens[k]);
      assert queue[1..][i - 1] == queue[i];
    }
  }

  /** A popped pair that is current belongs to the key touched longest ago. */
  lemma CurrentIsOldest<K(!new)>(keys: set<K>, history: seq<K>, tokens: map<K, nat>, queue: seq<(K, nat)>)
    requires Agree(keys, history, tokens, queue) && queue != []
    requires queue[0].0 in tokens && tokens[queue[0].0] == queue[0].1
    ensures forall k :: k in keys && k != queue[0].0 ==> LastTouch(history, queue[0].0) < LastTouch(history, k)
    ensures Agree(keys - {queue[0].0}, history, tokens - {queue[0].0}, queue[1..])
  {
    assert Stamped(queue[0].0, history, tokens, queue);
    forall k | k in keys && k != queue[0].0
      ensures LastTouch(history, queue[0].0) < LastTouch(history, k)
      ensures Stamped(k, history, tokens - {queue[0].0}, queue[1..])
    {
      assert Stamped(k, history, tokens, queue);
      var i :| 0 <= i < |queue| && queue[i] == (k, tokens[k]);
      assert queue[1..][i - 1] == queue[i];
    }
  }

  lemma NothingLeft<K(!new)>(keys: set<K>, history: seq<K>, tokens: map<K, nat>, queue: seq<(K, nat)>)
    requires Agree(keys, history, tokens, queue)
    ensures queue == [] ==> keys == {}
  {
    if k :| k in keys {
      assert Stamped(k, history, tokens, queue);
    }
  }

  /** A queue rebuilt from the tokens alone serves as well. */
  lemma AgreeAfterCompaction<K(!new)>(keys: set<K>, history: seq<K>, tokens: map<K, nat>, queue: seq<(K, nat)>, rebuilt: seq<(K, nat)>)
    requires Agree(keys, history, tokens, queue) && Increasing(rebuilt)
    requires forall i :: 0 <= i < |rebuilt| ==> rebuilt[i].0 in tokens && tokens[rebuilt[i].0] == rebuilt[i].1
    requires forall k :: k in tokens ==> (k, tokens[k]) in rebuilt
    ensures Agree(keys, history, tokens, rebuilt)
  {
    forall k | k in keys
      ensures Stamped(k, history, tokens, rebuilt)
    {
      assert Stamped(k, history, tokens, queue);
    }
    forall i | 0 <= i < |rebuilt|
      ensures rebuilt[i].1 <= |history|
    {
      assert Stamped(rebuilt[i].0, history, tokens, queue);
    }
  }

  lemma TokensDiffer<K(!new)>(keys: set<K>, history: seq<K>, tokens: map<K, nat>, queue: seq<(K, nat)>)
    requires Agree(keys, history, tokens, queue)
    ensures forall a, b :: a in tokens && b in tokens && a != b ==> tokens[a] != tokens[b]
  {
    forall a, b | a in tokens && b in tokens && a != b
      ensures tokens[a] != tokens[b]
    {
      assert Stamped(a, history, tokens, queue) && Stamped(b, history, tokens, queue);
    }
  }

  lemma LaterAfterEviction<K(!new)>(keys: set<K>, history: seq<K>, key: K)
    requires (forall k :: k in keys ==> k in history) && LaterThanTheRest(keys, history) && key in keys
    requires forall k :: k in keys && k != key ==> LastTouch(history, key) < LastTouch(history, k)
    ensures LaterThanTheRest(keys - {key}, history)
  {
  }

  lemma MostRecentAfterTouch<K(!new)>(
    before: set<K>, kept: set<K>, history: seq<K>, key: K, limit: nat)
    requires |before| < limit ==> forall k :: k in history ==> k in before
    requires if |before + {key}| <= limit then kept == before + {key} else |kept| == limit
    requires (forall k :: k in kept ==> k in history + [key]) && LaterThanTheRest(kept, history + [key])
    ensures MostRecent(kept, history + [key], Some(limit))
  {
    if |kept| < limit {
      if key in before {
        assert before == before + {key};
      } else {
        SmallerThan(before, before + {key}, key);
      }
    }
  }

  lemma SmallerMap<K, V>(m: map<K, V>, key: K)
    requires key in m
    ensures |m - {key}| == |m| - 1 && (m - {key}).Keys == m.Keys - {key}
  {
    assert (m - {key}).Keys == m.Keys - {key};
    assert |m - {key}| == |(m - {key}).Keys| && |m| == |m.Keys|;
  }

  lemma GrownMap<K, V>(m: map<K, V>, n: map<K, nat>, key: K)
    requires m.Keys == n.Keys + {key}
    ensures |n| <= |m| <= |n| + 1 && (|m| == |n| <==> key in n)
  {
    assert |m| == |m.Keys| && |n| == |n.Keys|;
    if key in n {
      assert m.Keys == n.Keys;
    }
  }

  /******* The index *******/

  class LruIndex<K(==, !new), V> {
    const limit: Option<nat>
    var entries: map<K, V>
    var lastSeen: map<K, nat>
    var queue: seq<(K, nat)>
    var counter: nat
    ghost var history: seq<K>

    ghost predicate Valid()
      reads this
    {
      && MostRecent(entries.Keys, history, limit)
      && (limit.Some? ==>
            && Agree(entries.Keys, history, lastSeen, queue)
            && counter == |history|
            && |queue| <= Max(2 * limit.value, 1))
    }

    constructor (limit: Option<nat>)
      ensures Valid() && history == [] && entries == map[] && this.limit == limit
    {
      this.limit := limit;
      entries, lastSeen, queue, counter := map[], map[], [], 0;
      history := [];
    }

    /** Update (or create) a key's entry and count it as just touched. Afterwards exactly the `limit`
        most recently touched keys have entries (`Valid`), the touched key's entry is the updated one,
        and the others' are unchanged. */
    method Record(key: K, initial: V, update: V -> V)
      requires Valid() && |history| < U64_MAX
      modifies this
      ensures Valid() && history == old(history) + [key]
      ensures forall k :: k in entries ==>
                if k == key then entries[k] == update(if key in old(entries) then old(entries)[key] else initial)
                else k in old(entries) && entries[k] == old(entries)[k]
    {
      LaterAfterTouch(entries.Keys, history, key);
      var value := if key in entries then entries[key] else initial;
      entries := entries[key := update(value)];
      Touch(key);
    }

    /** `touch_account_lru` and `touch_game_events_lru`. */
    method Touch(key: K)
      requires key in entries && |history| < U64_MAX
      requires forall k :: k in entries ==> k in history + [key]
      requires LaterThanTheRest(entries.Keys, history + [key])
      requires limit.None? ==> forall k :: k in history ==> k in entries
      requires limit.Some? ==>
                 && entries.Keys == lastSeen.Keys + {key}
                 && Agree(lastSeen.Keys, history, lastSeen, queue)
                 && |lastSeen| <= limit.value && |queue| <= Max(2 * limit.value, 1) && counter == |history|
                 && (|lastSeen| < limit.value ==> forall k :: k in history ==> k in lastSeen)
      modifies this
      ensures Valid() && history == old(history) + [key]
      ensures forall k :: k in entries ==> k in old(entries) && entries[k] == old(entries)[k]
    {
      if limit.None? {
        history := history + [key];
        return;
      }
      StampAndEvict(key);
      Compact();
    }

    method StampAndEvict(key: K)
      requires limit.Some? && entries.Keys == lastSeen.Keys + {key} && counter == |history| < U64_MAX
      requires Agree(lastSeen.Keys, history, lastSeen, queue)
      requires forall k :: k in entries ==> k in history + [key]
      requires LaterThanTheRest(entries.Keys, history + [key])
      requires |lastSeen| <= limit.value && (|lastSeen| < limit.value ==> forall k :: k in history ==> k in lastSeen)
      modifies this
      ensures history == old(history) + [key] && counter == |history|
      ensures MostRecent(entries.Keys, history, limit) && Agree(entries.Keys, history, lastSeen, queue)
      ensures forall k :: k in entries ==> k in old(entries) && entries[k] == old(entries)[k]
    {
      ghost var before := lastSeen.Keys;
      GrownMap(entries, lastSeen, key);
      assert |before + {key}| == |entries| && |before| == |lastSeen|;
      Stamp(key);
      Enforce();
      assert |entries.Keys| == |entries|;
      MostRecentAfterTouch(before, entries.Keys, old(history), key, limit.value);
    }

    /** Give the key the next token. */
    method Stamp(key: K)
      requires Agree(lastSeen.Keys, history, lastSeen, queue) && counter == |history| < U64_MAX
      modifies this`history, this`counter, this`lastSeen, this`queue
      ensures history == old(history) + [key] && counter == |history|
      ensures lastSeen.Keys == old(lastSeen).Keys + {key} && Agree(lastSeen.Keys, history, lastSeen, queue)
      ensures |queue| == old(|queue|) + 1
    {
      ghost var keys, touches, tokens, pairs := lastSeen.Keys, history, lastSeen, queue;
      counter := (counter + 1) % (U64_MAX + 1);
      assert counter == |touches| + 1;
      lastSeen := lastSeen[key := counter];
      queue := queue + [(key, counter)];
      history := history + [key];
      assert lastSeen.Keys == keys + {key};
      AgreeAfterTouch(keys, touches, tokens, pairs, key);
    }

    /** Pop the queue until few enough entries are left, removing the keys whose pair is current. */
    method Enforce()
      requires limit.Some? && Agree(entries.Keys, history, lastSeen, queue)
      requires LaterThanTheRest(entries.Keys, history)
      modifies this`entries, this`lastSeen, this`queue
      ensures Agree(entries.Keys, history, lastSeen, queue) && LaterThanTheRest(entries.Keys, history)
      ensures if old(|entries|) <= limit.value then entries == old(entries) else |entries| == limit.value
      ensures forall k :: k in entries ==> k in old(entries) && entries[k] == old(entries)[k]
      ensures |queue| <= old(|queue|)
    {
      while |entries| > limit.value
        invariant Agree(entries.Keys, history, lastSeen, queue) && LaterThanTheRest(entries.Keys, history)
        invariant |entries| >= limit.value || entries == old(entries)
        invariant entries == old(entries) || old(|entries|) > limit.value
        invariant entries.Keys <= old(entries).Keys && forall k :: k in entries ==> entries[k] == old(entries)[k]
        invariant |queue| <= old(|queue|)
        decreases |queue|
      {
        if queue == [] {
          break;
        }
        PopOne();
      }
      NothingLeft(entries.Keys, history, lastSeen, queue);
    }

    /** Drop the front pair, and its key too if the pair is current. */
    method PopOne()
      requires queue != [] && Agree(entries.Keys, history, lastSeen, queue) && LaterThanTheRest(entries.Keys, history)
      modifies this`entries, this`lastSeen, this`queue
      ensures Agree(entries.Keys, history, lastSeen, queue) && LaterThanTheRest(entries.Keys, history)
      ensures queue == old(queue)[1..]
      ensures entries == old(entries)
              || (old(queue)[0].0 in old(entries) && entries == old(entries) - {old(queue)[0].0} && |entries| == old(|entries|) - 1)
    {
      var (key, token) := queue[0];
      if key in lastSeen && lastSeen[key] == token {
        CurrentIsOldest(entries.Keys, history, lastSeen, queue);
        LaterAfterEviction(entries.Keys, history, key);
        SmallerMap(entries, key);
        SmallerMap(lastSeen, key);
        lastSeen := lastSeen - {key};
        entries := entries - {key};
      } else {
        AgreeAfterStale(entries.Keys, history, lastSeen, queue);
      }
      queue := queue[1..];
    }

    /** Once the queue is twice the limit, rebuild it from the current pairs alone. */
    method Compact()
      requires limit.Some? && |entries| <= limit.value && Agree(entries.Keys, history, lastSeen, queue)
      modifies this`queue
      ensures Agree(entries.Keys, history, lastSeen, queue) && |queue| <= Max(2 * limit.value, 1)
    {
      if |queue| <= Max(2 * limit.value, 1) {
        return;
      }
      assert |lastSeen| == |lastSeen.Keys| == |entries|;
      TokensDiffer(entries.Keys, history, lastSeen, queue);
      var rebuilt := SortedByToken(lastSeen);
      AgreeAfterCompaction(entries.Keys, history, lastSeen, queue, rebuilt);
      queue := rebuilt;
    }
  }

  /** Collect a map's pairs in whatever order it yields them and sort them by token. */
  method SortedByToken<K(==, !new)>(tokens: map<K, nat>) returns (q: seq<(K, nat)>)
    requires forall a, b :: a in tokens && b in tokens && a != b ==> tokens[a] != tokens[b]
    ensures |q| == |tokens| && Increasing(q)
    ensures forall i :: 0 <= i < |q| ==> q[i].0 in tokens && tokens[q[i].0] == q[i].1
    ensures forall k :: k in tokens ==> (k, tokens[k]) in q
  {
    q := [];
    var left := tokens.Keys;
    while left != {}
      invariant left <= tokens.Keys && |q| + |left| == |tokens.Keys| && Increasing(q)
      invariant forall i :: 0 <= i < |q| ==> q[i].0 in tokens && q[i].0 !in left && tokens[q[i].0] == q[i].1
      invariant forall k :: k in tokens && k !in left ==> (k, tokens[k]) in q
      decreases left
    {
      var key :| key in left;
      q := Inserted(q, (key, tokens[key]));
      left := left - {key};
    }
    assert |tokens| == |tokens.Keys|;
  }

  method Inserted<K(==, !new)>(q: seq<(K, nat)>, pair: (K, nat)) returns (r: seq<(K, nat)>)
    requires Increasing(q) && forall i :: 0 <= i < |q| ==> q[i].1 != pair.1
    ensures Increasing(r) && |r| == |q| + 1
    ensures forall p :: p in r <==> p in q || p == pair
    ensures forall i :: 0 <= i < |r| ==> r[i] in q || r[i] == pair
  {
    var i := 0;
    while i < |q| && q[i].1 < pair.1
      invariant i <= |q| && forall j :: 0 <= j < i ==> q[j].1 < pair.1
    {
      i := i + 1;
    }
    r := q[..i] + [pair] + q[i..];
    assert r[i] == pair;
    forall p | p in q
      ensures p in r
    {
      var j :| 0 <= j < |q| && q[j] == p;
      assert r[if j < i then j else j + 1] == p;
    }
  }
}
