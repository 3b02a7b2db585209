/** website/convex/http.ts: the fixed-window limiter of the webhook route, with pruning and a cap on the
    number of buckets. A JavaScript `Map` iterates in insertion order, so it is a sequence of entries. */
module RateLimiter {
  import opened Prelude

  type Key = string

  datatype Bucket = Bucket(count: nat, resetAt: int)

  datatype Entry = Entry(key: Key, bucket: Bucket)

  datatype Config = Config(window: nat, max: nat, bucketMax: nat, cleanupEvery: nat)

  datatype State = State(entries: seq<Entry>, lastCleanup: int)

  predicate Expired(b: Bucket, now: int) {
    now > b.resetAt
  }

  /** The entries that have not expired, in order. */
  function Live(entries: seq<Entry>, now: int): (r: seq<Entry>)
    ensures |r| <= |entries|
  {
    if entries == [] then [] else
      var last := entries[|entries| - 1];
      Live(entries[..|entries| - 1], now) + if Expired(last.bucket, now) then [] else [last]
  }

  lemma LiveStep(entries: seq<Entry>, k: nat, now: int)
    requires k < |entries|
    ensures Live(entries[..k + 1], now) ==
              Live(entries[..k], now) + if Expired(entries[k].bucket, now) then [] else [entries[k]]
  {
    assert entries[..k + 1][..k] == entries[..k];
  }

  predicate CleanupDue(c: Config, s: State, now: int) {
    s.entries != [] && !(now - s.lastCleanup < c.cleanupEvery && |s.entries| <= c.bucketMax)
  }

  function Newest(entries: seq<Entry>, n: nat): seq<Entry> {
    if |entries| > n then entries[|entries| - n..] else entries
  }

  function Cleaned(c: Config, s: State, now: int): State {
    if CleanupDue(c, s, now) then State(Newest(Live(s.entries, now), c.bucketMax), now) else s
  }

  function IndexOf(entries: seq<Entry>, key: Key): (r: Option<nat>)
    ensures r.Some? ==> r.value < |entries| && entries[r.value].key == key
    ensures r.None? ==> forall e :: e in entries ==> e.key != key
  {
    if entries == [] then None
    else if entries[|entries| - 1].key == key then Some(|entries| - 1)
    else IndexOf(entries[..|entries| - 1], key)
  }

  function Put(entries: seq<Entry>, key: Key, bucket: Bucket): seq<Entry> {
    var i := IndexOf(entries, key);
    if i.Some? then entries[i.value := Entry(key, bucket)] else entries + [Entry(key, bucket)]
  }

  /** One key's own window: what a request does to its bucket, and whether it is accepted. */
  function Step(c: Config, b: Option<Bucket>, now: int): (Option<Bucket>, bool) {
    if b.None? || Expired(b.value, now) then (Some(Bucket(1, now + c.window)), true)
    else if b.value.count >= c.max then (b, false)
    else (Some(b.value.(count := b.value.count + 1)), true)
  }

  function BucketOf(entries: seq<Entry>, key: Key): Option<Bucket> {
    var i := IndexOf(entries, key);
    if i.Some? then Some(entries[i.value].bucket) else None
  }

  function Enforced(c: Config, s: State, key: Key, now: int): (State, bool) {
    var cleaned := Cleaned(c, s, now);
    var step := Step(c, BucketOf(cleaned.entries, key), now);
    (if step.1 then cleaned.(entries := Put(cleaned.entries, key, step.0.value)) else cleaned, step.1)
  }

  class Limiter {
    const config: Config
    var entries: seq<Entry>
    var lastCleanup: int

    function Value(): State
      reads this
    {
      State(entries, lastCleanup)
    }

    constructor (config: Config)
      ensures this.config == config && Value() == State([], 0)
    {
      this.config := config;
      entries, lastCleanup := [], 0;
    }

    method DeleteExpired(now: int)
      modifies `entries
      ensures entries == Live(old(entries), now)
    {
      ghost var all, kept, seen := entries, [], 0;
      var i := 0;
      while i < |entries|
        invariant 0 <= seen <= |all| && kept == Live(all[..seen], now) && i == |kept|
        invariant entries == kept + all[seen..]
        decreases |entries| - i
      {
        LiveStep(all, seen, now);
        Next(kept, all, seen);
        if now > entries[i].bucket.resetAt {
          entries := entries[..i] + entries[i + 1..];
        } else {
          kept, i := kept + [all[seen]], i + 1;
        }
        seen := seen + 1;
      }
      assert all[..seen] == all;
    }

    static lemma Next<T>(kept: seq<T>, all: seq<T>, seen: nat)
      requires seen < |all|
      ensures
        var left := kept + all[seen..];
        && left[|kept|] == all[seen]
        && left[..|kept|] + left[|kept| + 1..] == kept + all[seen + 1..]
        && left == (kept + [all[seen]]) + all[seen + 1..]
    {
    }

    method DeleteOldest(toRemove: nat)
      requires 0 < toRemove <= |entries|
      modifies `entries
      ensures entries == old(entries)[toRemove..]
    {
      var removed := 0;
      while true
        invariant removed < toRemove
        invariant entries == old(entries)[removed..]
        decreases toRemove - removed
      {
        entries := entries[1..];
        removed := removed + 1;
        if removed >= toRemove {
          break;
        }
      }
    }

    method Shrink()
      modifies `entries
      ensures entries == Newest(old(entries), config.bucketMax)
    {
      if |entries| > config.bucketMax {
        DeleteOldest(|entries| - config.bucketMax);
      }
    }

    method CleanupRateBuckets(now: int)
      modifies this
      ensures Value() == Cleaned(config, old(Value()), now)
    {
      if |entries| == 0 {
        return;
      }
      if now - lastCleanup < config.cleanupEvery && |entries| <= config.bucketMax {
        return;
      }
      assert CleanupDue(config, old(Value()), now);
      lastCleanup := now;
      DeleteExpired(now);
      Shrink();
    }

    method EnforceRateLimit(key: Key, now: int) returns (accepted: bool)
      modifies this
      ensures (Value(), accepted) == Enforced(config, old(Value()), key, now)
    {
      CleanupRateBuckets(now);
      var i := IndexOf(entries, key);
      if i.None? || now > entries[i.value].bucket.resetAt {
        entries := Put(entries, key, Bucket(1, now + config.window));
        return true;
      }
      var bucket := entries[i.value].bucket;
      if bucket.count >= config.max {
        return false;
      }
      entries := entries[i.value := Entry(key, bucket.(count := bucket.count + 1))];
      accepted := true;
    }
  }

  /******* Runs *******/

  datatype Request = Request(key: Key, at: int)

  function After(c: Config, reqs: seq<Request>): State {
    if reqs == [] then State([], 0) else
      var last := reqs[|reqs| - 1];
      Enforced(c, After(c, reqs[..|reqs| - 1]), last.key, last.at).0
  }

  predicate Accepted(c: Config, reqs: seq<Request>, k: nat)
    requires k < |reqs|
  {
    Enforced(c, After(c, reqs[..k]), reqs[k].key, reqs[k].at).1
  }

  ghost predicate Monotone(reqs: seq<Request>) {
    forall i, j :: 0 <= i < j < |reqs| ==> reqs[i].at <= reqs[j].at
  }

  /******* The map stays a map, and stays small *******/

  ghost predicate Distinct(entries: seq<Entry>) {
    forall i, j :: 0 <= i < j < |entries| ==> entries[i].key != entries[j].key
  }

  lemma {:induction false} LiveIsFilter(entries: seq<Entry>, now: int)
    requires Distinct(entries)
    ensures Distinct(Live(entries, now))
    ensures forall e :: e in Live(entries, now) <==> e in entries && !Expired(e.bucket, now)
  {
    if entries != [] {
      var front, last := entries[..|entries| - 1], entries[|entries| - 1];
      assert entries == front + [last];
      LiveIsFilter(front, now);
      forall e | e in Live(front, now)
        ensures e.key != last.key
      {
        var i :| 0 <= i < |front| && front[i] == e;
      }
    }
  }

  lemma PutStaysDistinct(entries: seq<Entry>, key: Key, bucket: Bucket)
    requires Distinct(entries)
    ensures Distinct(Put(entries, key, bucket))
  {
  }

  lemma CleanedDistinct(c: Config, s: State, now: int)
    requires Distinct(s.entries)
    ensures Distinct(Cleaned(c, s, now).entries)
  {
    LiveIsFilter(s.entries, now);
  }

  /** Never two buckets for one key, and never more than one bucket over the configured maximum. */
  lemma {:induction false} MapStaysSmall(c: Config, reqs: seq<Request>)
    ensures Distinct(After(c, reqs).entries) && |After(c, reqs).entries| <= c.bucketMax + 1
  {
    if reqs != [] {
      var s, last := After(c, reqs[..|reqs| - 1]), reqs[|reqs| - 1];
      MapStaysSmall(c, reqs[..|reqs| - 1]);
      CleanedDistinct(c, s, last.at);
      var cleaned := Cleaned(c, s, last.at).entries;
      assert |cleaned| <= c.bucketMax;
      forall b: Bucket
        ensures Distinct(Put(cleaned, last.key, b))
      {
        PutStaysDistinct(cleaned, last.key, b);
      }
    }
  }

  /******* Cleanups *******/

  /** A cleanup comes when there are buckets and either there are too many or the last cleanup is long enough
      ago. It removes the expired buckets, and of the others the ones that stand first if they are too many. */
  ghost predicate CleanedUp(c: Config, s: State, now: int, after: State) {
    if s.entries == [] || (now - s.lastCleanup < c.cleanupEvery && |s.entries| <= c.bucketMax) then after == s
    else
      && after.lastCleanup == now && |after.entries| <= c.bucketMax
      && (forall e :: e in after.entries ==> e in s.entries && now <= e.bucket.resetAt)
      && (forall i {:trigger s.entries[i]} :: 0 <= i < |s.entries| && now <= s.entries[i].bucket.resetAt ==>
            s.entries[i] in after.entries || |after.entries| == c.bucketMax)
      && (forall i, j {:trigger s.entries[i], s.entries[j]} ::
            0 <= i < j < |s.entries| && s.entries[i] in after.entries && now <= s.entries[j].bucket.resetAt ==>
              s.entries[j] in after.entries)
  }

  lemma CleanupIs(c: Config, s: State, now: int)
    requires Distinct(s.entries)
    ensures CleanedUp(c, s, now, Cleaned(c, s, now))
  {
    if CleanupDue(c, s, now) {
      LiveIsFilter(s.entries, now);
      forall i, j | 0 <= i < j < |s.entries| && s.entries[i] in Cleaned(c, s, now).entries && now <= s.entries[j].bucket.resetAt
        ensures s.entries[j] in Cleaned(c, s, now).entries
      {
        LiveInOrder(s.entries, now, i, j);
        LaterIsKept(Live(s.entries, now), c.bucketMax, s.entries[i], s.entries[j]);
      }
    }
  }

  /** What has not expired keeps its order. */
  lemma {:induction false} LiveInOrder(entries: seq<Entry>, now: int, i: nat, j: nat)
    requires Distinct(entries) && i < j < |entries|
    requires !Expired(entries[i].bucket, now) && !Expired(entries[j].bucket, now)
    ensures exists p, q :: 0 <= p < q < |Live(entries, now)| && Live(entries, now)[p] == entries[i] && Live(entries, now)[q] == entries[j]
  {
    var n := |entries| - 1;
    var front := Live(entries[..n], now);
    if j < n {
      LiveInOrder(entries[..n], now, i, j);
      var p, q :| 0 <= p < q < |front| && front[p] == entries[..n][i] && front[q] == entries[..n][j];
      assert Live(entries, now)[p] == entries[i] && Live(entries, now)[q] == entries[j];
    } else {
      LiveIsFilter(entries[..n], now);
      assert entries[..n][i] in front;
      var p :| 0 <= p < |front| && front[p] == entries[i];
      assert Live(entries, now)[p] == entries[i] && Live(entries, now)[|front|] == entries[j];
    }
  }

  lemma LaterIsKept(live: seq<Entry>, n: nat, a: Entry, b: Entry)
    requires Distinct(live) && a in Newest(live, n)
    requires exists p, q :: 0 <= p < q < |live| && live[p] == a && live[q] == b
    ensures b in Newest(live, n)
  {
    if |live| > n {
      var p, q :| 0 <= p < q < |live| && live[p] == a && live[q] == b;
      var k :| 0 <= k < n && live[|live| - n..][k] == a;
      assert live[|live| - n + k] == a;
      assert live[|live| - n..][q - (|live| - n)] == b;
    }
  }

  /** A request moves no bucket: its own is renewed where it stands, or put last if there is none. */
  lemma PlacesKept(c: Config, s: State, key: Key, now: int)
    requires Distinct(s.entries)
    ensures
      var cleaned, after := Cleaned(c, s, now).entries, Enforced(c, s, key, now).0.entries;
      && |cleaned| <= |after| <= |cleaned| + 1
      && (forall i :: 0 <= i < |cleaned| ==> after[i].key == cleaned[i].key && (cleaned[i].key != key ==> after[i] == cleaned[i]))
      && (|after| == |cleaned| <==> exists i :: 0 <= i < |cleaned| && cleaned[i].key == key)
      && (|after| > |cleaned| ==> after[|cleaned|] == Entry(key, Bucket(1, now + c.window)))
  {
    CleanedDistinct(c, s, now);
    var cleaned := Cleaned(c, s, now).entries;
    var i := IndexOf(cleaned, key);
    if i.None? {
      forall k | 0 <= k < |cleaned|
        ensures cleaned[k].key != key
      {
        assert cleaned[k] in cleaned;
      }
    }
  }

  /** Nothing stored expired before the last cleanup. */
  ghost predicate Swept(s: State, now: int) {
    s.lastCleanup <= now && forall e :: e in s.entries ==> e.bucket.resetAt >= s.lastCleanup
  }

  lemma CleanedIsSwept(c: Config, s: State, now: int)
    requires Distinct(s.entries) && Swept(s, now)
    ensures Swept(Cleaned(c, s, now), now)
    ensures forall e :: e in Cleaned(c, s, now).entries ==> e.bucket.resetAt >= now || e.bucket.resetAt > now - c.cleanupEvery
  {
    CleanupIs(c, s, now);
  }

  lemma PutMembers(entries: seq<Entry>, key: Key, bucket: Bucket)
    ensures forall e :: e in Put(entries, key, bucket) ==> e in entries || e == Entry(key, bucket)
  {
  }

  lemma SweptStep(c: Config, s: State, key: Key, now: int)
    requires Distinct(s.entries) && Swept(s, now)
    ensures Swept(Enforced(c, s, key, now).0, now)
    ensures forall e :: e in Enforced(c, s, key, now).0.entries ==> e.bucket.resetAt >= now || e.bucket.resetAt > now - c.cleanupEvery
  {
    CleanedIsSwept(c, s, now);
    var cleaned := Cleaned(c, s, now);
    var step := Step(c, BucketOf(cleaned.entries, key), now);
    if step.1 {
      PutMembers(cleaned.entries, key, step.0.value);
    }
  }

  lemma {:induction false} AlwaysSwept(c: Config, reqs: seq<Request>, now: int)
    requires Monotone(reqs) && (reqs != [] ==> 0 <= reqs[0].at && reqs[|reqs| - 1].at <= now) && 0 <= now
    ensures Swept(After(c, reqs), now)
  {
    if reqs != [] {
      var n := |reqs| - 1;
      AlwaysSwept(c, reqs[..n], reqs[n].at);
      MapStaysSmall(c, reqs[..n]);
      SweptStep(c, After(c, reqs[..n]), reqs[n].key, reqs[n].at);
    }
  }

  /** With a clock that runs from zero on, no bucket outlives its window by the cleanup interval: what a request
      leaves stored expired less than that long ago, if at all. */
  lemma StaleBucketsGo(c: Config, reqs: seq<Request>)
    requires Monotone(reqs) && reqs != [] && reqs[0].at >= 0
    ensures
      var now := reqs[|reqs| - 1].at;
      forall e :: e in After(c, reqs).entries ==> e.bucket.resetAt >= now || e.bucket.resetAt > now - c.cleanupEvery
  {
    var n := |reqs| - 1;
    AlwaysSwept(c, reqs[..n], reqs[n].at);
    MapStaysSmall(c, reqs[..n]);
    SweptStep(c, After(c, reqs[..n]), reqs[n].key, reqs[n].at);
  }

  /******* A key's decisions depend on its own requests alone *******/

  /** The cleanup takes a bucket that is still running, because there are too many. */
  ghost predicate EvictsLive(c: Config, s: State, key: Key, now: int) {
    var b := BucketOf(s.entries, key);
    b.Some? && !Expired(b.value, now) && BucketOf(Cleaned(c, s, now).entries, key).None?
  }

  ghost predicate NeverEvicted(c: Config, reqs: seq<Request>, key: Key) {
    forall k {:trigger reqs[k]} :: 0 <= k < |reqs| ==> !EvictsLive(c, After(c, reqs[..k]), key, reqs[k].at)
  }

  /** The bucket the key's own requests would lead to, with no pruning and no other keys. */
  function OwnBucket(c: Config, reqs: seq<Request>, key: Key): Option<Bucket> {
    if reqs == [] then None else
      var before, last := OwnBucket(c, reqs[..|reqs| - 1], key), reqs[|reqs| - 1];
      if last.key == key then Step(c, before, last.at).0 else before
  }

  /** The stored bucket is the key's own, or it is gone and the own one has expired. */
  ghost predicate Agree(stored: Option<Bucket>, own: Option<Bucket>, now: int) {
    stored == own || (stored.None? && Expired(own.value, now))
  }

  lemma BucketIs(entries: seq<Entry>, e: Entry)
    requires Distinct(entries) && e in entries
    ensures BucketOf(entries, e.key) == Some(e.bucket)
  {
    var i :| 0 <= i < |entries| && entries[i] == e;
  }

  lemma CleanupKeepsBucket(c: Config, s: State, key: Key, now: int)
    requires Distinct(s.entries) && !EvictsLive(c, s, key, now)
    ensures
      var kept := BucketOf(Cleaned(c, s, now).entries, key);
      kept == BucketOf(s.entries, key) || (kept.None? && Expired(BucketOf(s.entries, key).value, now))
  {
    LiveIsFilter(s.entries, now);
    CleanedDistinct(c, s, now);
    var cleaned := Cleaned(c, s, now).entries;
    var i := IndexOf(cleaned, key);
    if i.Some? {
      assert cleaned[i.value] in s.entries;
      BucketIs(s.entries, cleaned[i.value]);
    }
  }

  lemma PutSetsBucket(entries: seq<Entry>, key: Key, bucket: Bucket, other: Key)
    requires Distinct(entries)
    ensures BucketOf(Put(entries, key, bucket), other) ==
              if other == key then Some(bucket) else BucketOf(entries, other)
  {
    var after := Put(entries, key, bucket);
    PutStaysDistinct(entries, key, bucket);
    if other == key {
      var at := IndexOf(entries, key);
      assert after[if at.Some? then at.value else |entries|] == Entry(key, bucket);
      BucketIs(after, Entry(key, bucket));
    } else {
      var i := IndexOf(entries, other);
      if i.Some? {
        assert after[i.value] == entries[i.value];
        BucketIs(after, entries[i.value]);
      }
    }
  }

  lemma AgreementSteps(c: Config, s: State, own: Option<Bucket>, req: Request, key: Key)
    requires Distinct(s.entries) && !EvictsLive(c, s, key, req.at)
    requires Agree(BucketOf(s.entries, key), own, req.at)
    ensures
      var next := if req.key == key then Step(c, own, req.at).0 else own;
      && Agree(BucketOf(Enforced(c, s, req.key, req.at).0.entries, key), next, req.at)
      && (req.key == key ==> Enforced(c, s, key, req.at).1 == Step(c, own, req.at).1)
  {
    CleanupKeepsBucket(c, s, key, req.at);
    CleanedDistinct(c, s, req.at);
    var cleaned := Cleaned(c, s, req.at).entries;
    var step := Step(c, BucketOf(cleaned, req.key), req.at);
    if step.1 {
      PutSetsBucket(cleaned, req.key, step.0.value, key);
    }
  }

  lemma {:induction false} StoredAgreesWithOwn(c: Config, reqs: seq<Request>, key: Key, now: int)
    requires Monotone(reqs) && NeverEvicted(c, reqs, key)
    requires reqs != [] ==> reqs[|reqs| - 1].at <= now
    ensures Agree(BucketOf(After(c, reqs).entries, key), OwnBucket(c, reqs, key), now)
  {
    if reqs != [] {
      var front, last := reqs[..|reqs| - 1], reqs[|reqs| - 1];
      FrontNeverEvicted(c, reqs, |reqs| - 1, key);
      StoredAgreesWithOwn(c, front, key, last.at);
      MapStaysSmall(c, front);
      assert !EvictsLive(c, After(c, front), key, last.at);
      AgreementSteps(c, After(c, front), OwnBucket(c, front, key), last, key);
    }
  }

  lemma FrontNeverEvicted(c: Config, reqs: seq<Request>, n: nat, key: Key)
    requires n <= |reqs| && NeverEvicted(c, reqs, key)
    ensures NeverEvicted(c, reqs[..n], key)
  {
    forall k | 0 <= k < n
      ensures !EvictsLive(c, After(c, reqs[..n][..k]), key, reqs[..n][k].at)
    {
      assert reqs[..n][..k] == reqs[..k] && reqs[..n][k] == reqs[k];
    }
  }

  /** Pruning expired buckets never changes a decision: as long as the clock is monotone and the key's
      running bucket is not evicted for capacity, each of its requests is decided as if the key were alone
      and nothing were ever pruned. */
  lemma PruningNeverChangesADecision(c: Config, reqs: seq<Request>, k: nat)
    requires k < |reqs| && Monotone(reqs) && NeverEvicted(c, reqs, reqs[k].key)
    ensures Accepted(c, reqs, k) == Step(c, OwnBucket(c, reqs[..k], reqs[k].key), reqs[k].at).1
  {
    FrontNeverEvicted(c, reqs, k, reqs[k].key);
    StoredAgreesWithOwn(c, reqs[..k], reqs[k].key, reqs[k].at);
    MapStaysSmall(c, reqs[..k]);
    AgreementSteps(c, After(c, reqs[..k]), OwnBucket(c, reqs[..k], reqs[k].key), reqs[k], reqs[k].key);
  }

  /******* When a request is rejected *******/

  /** The request that opened the key's window before request `n`: the first one does, and then each first one
      made later than the window's length after the one before. */
  function Opener(c: Config, reqs: seq<Request>, key: Key, n: nat): (r: Option<nat>)
    requires n <= |reqs|
    ensures r.Some? ==> r.value < n && reqs[r.value].key == key
  {
    if n == 0 then None
    else
      var before, last := Opener(c, reqs, key, n - 1), reqs[n - 1];
      if last.key == key && (before.None? || last.at > reqs[before.value].at + c.window) then Some(n - 1) else before
  }

  /** Before the first request of a key there is no window; afterwards every request since the opener is within
      the window, and the opener itself is the first request or came after the window before. */
  lemma {:induction false} OpenerIs(c: Config, reqs: seq<Request>, key: Key, n: nat)
    requires n <= |reqs|
    ensures match Opener(c, reqs, key, n)
            case None => forall j :: 0 <= j < n ==> reqs[j].key != key
            case Some(w) =>
              && (forall j :: w < j < n && reqs[j].key == key ==> reqs[j].at <= reqs[w].at + c.window)
              && match Opener(c, reqs, key, w)
                 case None => forall j :: 0 <= j < w ==> reqs[j].key != key
                 case Some(v) => reqs[w].at > reqs[v].at + c.window
  {
    if n > 0 {
      OpenerIs(c, reqs, key, n - 1);
    }
  }

  /** The decisions, request by request. */
  function Decisions(c: Config, reqs: seq<Request>): (r: seq<bool>)
    ensures |r| == |reqs| && forall k :: 0 <= k < |r| ==> r[k] == Accepted(c, reqs, k)
  {
    seq(|reqs|, k requires 0 <= k < |reqs| => Accepted(c, reqs, k))
  }

  /** The key's requests from `w` on and before `n` that were accepted. */
  function AcceptedFrom(reqs: seq<Request>, decisions: seq<bool>, key: Key, w: nat, n: nat): set<nat>
    requires n <= |reqs| == |decisions|
  {
    set j: nat | w <= j < n && reqs[j].key == key && decisions[j]
  }

  lemma OneMoreAccepted(reqs: seq<Request>, decisions: seq<bool>, key: Key, w: nat, n: nat)
    requires w <= n < |reqs| == |decisions|
    ensures |AcceptedFrom(reqs, decisions, key, w, n + 1)|
         == |AcceptedFrom(reqs, decisions, key, w, n)| + if reqs[n].key == key && decisions[n] then 1 else 0
  {
    var before := AcceptedFrom(reqs, decisions, key, w, n);
    assert AcceptedFrom(reqs, decisions, key, w, n + 1) == before + if reqs[n].key == key && decisions[n] then {n} else {};
  }

  /** The key's own bucket says when its window opened and how many requests that took. */
  ghost predicate Counts(c: Config, reqs: seq<Request>, decisions: seq<bool>, key: Key, n: nat, b: Option<Bucket>)
    requires n <= |reqs| == |decisions|
  {
    match Opener(c, reqs, key, n)
    case None => b == None
    case Some(w) =>
      var count := |AcceptedFrom(reqs, decisions, key, w, n)|;
      b == Some(Bucket(count, reqs[w].at + c.window)) && 1 <= count <= Max(c.max, 1)
  }

  lemma CountsStep(c: Config, reqs: seq<Request>, decisions: seq<bool>, key: Key, n: nat, b: Option<Bucket>)
    requires n < |reqs| == |decisions| && Counts(c, reqs, decisions, key, n, b)
    requires reqs[n].key == key ==> decisions[n] == Step(c, b, reqs[n].at).1
    ensures Counts(c, reqs, decisions, key, n + 1, if reqs[n].key == key then Step(c, b, reqs[n].at).0 else b)
  {
    var w := Opener(c, reqs, key, n);
    if w.Some? {
      OneMoreAccepted(reqs, decisions, key, w.value, n);
    }
    OneMoreAccepted(reqs, decisions, key, n, n);
    assert AcceptedFrom(reqs, decisions, key, n, n) == {};
  }

  /** The key's requests are decided by its own bucket. */
  ghost predicate Decided(c: Config, reqs: seq<Request>, decisions: seq<bool>, key: Key)
    requires |reqs| == |decisions|
  {
    forall k :: 0 <= k < |reqs| && reqs[k].key == key ==> decisions[k] == Step(c, OwnBucket(c, reqs[..k], key), reqs[k].at).1
  }

  lemma OwnDecision(c: Config, reqs: seq<Request>, k: nat, key: Key)
    requires k < |reqs| && reqs[k].key == key && Monotone(reqs) && NeverEvicted(c, reqs, key)
    ensures Decisions(c, reqs)[k] == Step(c, OwnBucket(c, reqs[..k], key), reqs[k].at).1
  {
    PruningNeverChangesADecision(c, reqs, k);
  }

  lemma OwnDecisions(c: Config, reqs: seq<Request>, key: Key)
    requires Monotone(reqs) && NeverEvicted(c, reqs, key)
    ensures Decided(c, reqs, Decisions(c, reqs), key)
  {
    forall k | 0 <= k < |reqs| && reqs[k].key == key
      ensures Decisions(c, reqs)[k] == Step(c, OwnBucket(c, reqs[..k], key), reqs[k].at).1
    {
      OwnDecision(c, reqs, k, key);
    }
  }

  lemma {:induction false} OwnBucketCounts(c: Config, reqs: seq<Request>, decisions: seq<bool>, key: Key, n: nat)
    requires n <= |reqs| == |decisions| && Decided(c, reqs, decisions, key)
    ensures Counts(c, reqs, decisions, key, n, OwnBucket(c, reqs[..n], key))
  {
    if n > 0 {
      OwnBucketCounts(c, reqs, decisions, key, n - 1);
      OwnBucketStep(c, reqs, n, key);
      CountsStep(c, reqs, decisions, key, n - 1, OwnBucket(c, reqs[..n - 1], key));
    }
  }

  /** A request is rejected exactly when it comes within its key's window and that has already accepted its
      quota, which is never less than one. */
  lemma RejectedIff(c: Config, reqs: seq<Request>, k: nat)
    requires k < |reqs| && Monotone(reqs) && NeverEvicted(c, reqs, reqs[k].key)
    ensures
      var key := reqs[k].key;
      var w := Opener(c, reqs, key, k);
      !Accepted(c, reqs, k) <==>
        w.Some? && reqs[k].at <= reqs[w.value].at + c.window
        && |AcceptedFrom(reqs, Decisions(c, reqs), key, w.value, k)| >= Max(c.max, 1)
  {
    OwnDecisions(c, reqs, reqs[k].key);
    OwnBucketCounts(c, reqs, Decisions(c, reqs), reqs[k].key, k);
    QuotaDecides(c, reqs, Decisions(c, reqs), k, OwnBucket(c, reqs[..k], reqs[k].key));
  }

  lemma QuotaDecides(c: Config, reqs: seq<Request>, decisions: seq<bool>, k: nat, b: Option<Bucket>)
    requires k < |reqs| == |decisions| && Counts(c, reqs, decisions, reqs[k].key, k, b)
    ensures
      var key := reqs[k].key;
      var w := Opener(c, reqs, key, k);
      !Step(c, b, reqs[k].at).1 <==>
        w.Some? && reqs[k].at <= reqs[w.value].at + c.window
        && |AcceptedFrom(reqs, decisions, key, w.value, k)| >= Max(c.max, 1)
  {
  }

  /** The run without request `i`. */
  function Skipping(reqs: seq<Request>, i: nat): seq<Request>
    requires i < |reqs|
  {
    reqs[..i] + reqs[i + 1..]
  }

  lemma {:induction false} SameBucketWithout(c: Config, reqs: seq<Request>, i: nat, n: nat, key: Key)
    requires i < n <= |reqs| && OwnBucket(c, reqs[..i + 1], key) == OwnBucket(c, reqs[..i], key)
    ensures OwnBucket(c, reqs[..n], key) == OwnBucket(c, Skipping(reqs, i)[..n - 1], key)
  {
    SkippingAt(reqs, i, n);
    if n > i + 1 {
      OwnBucketStep(c, reqs, n, key);
      SameBucketWithout(c, reqs, i, n - 1, key);
      OwnBucketStep(c, Skipping(reqs, i), n - 1, key);
    }
  }

  lemma RejectionKeepsBucket(c: Config, reqs: seq<Request>, i: nat, key: Key)
    requires i < |reqs| && Monotone(reqs) && NeverEvicted(c, reqs, key) && !Accepted(c, reqs, i)
    ensures OwnBucket(c, reqs[..i + 1], key) == OwnBucket(c, reqs[..i], key)
  {
    OwnBucketStep(c, reqs, i + 1, key);
    if reqs[i].key == key {
      PruningNeverChangesADecision(c, reqs, i);
    }
  }

  lemma OwnBucketStep(c: Config, reqs: seq<Request>, n: nat, key: Key)
    requires 0 < n <= |reqs|
    ensures
      var before := OwnBucket(c, reqs[..n - 1], key);
      OwnBucket(c, reqs[..n], key) == if reqs[n - 1].key == key then Step(c, before, reqs[n - 1].at).0 else before
  {
    assert reqs[..n][..n - 1] == reqs[..n - 1];
  }

  lemma SkippingAt(reqs: seq<Request>, i: nat, n: nat)
    requires i < n <= |reqs|
    ensures n == i + 1 ==> Skipping(reqs, i)[..n - 1] == reqs[..n - 1]
    ensures n > i + 1 ==> Skipping(reqs, i)[n - 2] == reqs[n - 1]
  {
  }

  lemma BucketWithout(c: Config, reqs: seq<Request>, i: nat, k: nat, key: Key)
    requires i < k < |reqs| && Monotone(reqs) && NeverEvicted(c, reqs, key) && !Accepted(c, reqs, i)
    ensures OwnBucket(c, Skipping(reqs, i)[..k - 1], key) == OwnBucket(c, reqs[..k], key)
  {
    RejectionKeepsBucket(c, reqs, i, key);
    SameBucketWithout(c, reqs, i, k, key);
  }

  lemma SkippingIsMonotone(reqs: seq<Request>, i: nat)
    requires i < |reqs| && Monotone(reqs)
    ensures Monotone(Skipping(reqs, i))
  {
  }

  lemma DecisionWithout(c: Config, reqs: seq<Request>, i: nat, k: nat, skipped: seq<Request>)
    requires i < k < |reqs| && Monotone(reqs) && skipped == Skipping(reqs, i) && NeverEvicted(c, skipped, reqs[k].key)
    ensures skipped[k - 1] == reqs[k]
    ensures Decisions(c, skipped)[k - 1] == Step(c, OwnBucket(c, skipped[..k - 1], reqs[k].key), reqs[k].at).1
  {
    SkippingAt(reqs, i, k + 1);
    SkippingIsMonotone(reqs, i);
    OwnDecision(c, skipped, k - 1, reqs[k].key);
  }

  /** A rejected request changes no later decision: without it each would be the same. */
  lemma {:induction false} RejectionChangesNothing(c: Config, reqs: seq<Request>, i: nat, k: nat)
    requires i < k < |reqs| && Monotone(reqs) && !Accepted(c, reqs, i)
    requires NeverEvicted(c, reqs, reqs[k].key) && NeverEvicted(c, Skipping(reqs, i), reqs[k].key)
    ensures Skipping(reqs, i)[k - 1] == reqs[k] && Decisions(c, Skipping(reqs, i))[k - 1] == Decisions(c, reqs)[k]
  {
    OwnDecision(c, reqs, k, reqs[k].key);
    DecisionWithout(c, reqs, i, k, Skipping(reqs, i));
    BucketWithout(c, reqs, i, k, reqs[k].key);
  }

  /******* How many requests an interval accepts *******/

  predicate Within(c: Config, at: int, lo: int) {
    lo <= at <= lo + c.window
  }

  /** How many of the key's requests in `[lo, lo + window]` are accepted. */
  function AcceptedIn(c: Config, reqs: seq<Request>, key: Key, lo: int): nat {
    if reqs == [] then 0 else
      var n := |reqs| - 1;
      AcceptedIn(c, reqs[..n], key, lo)
      + if reqs[n].key == key && Within(c, reqs[n].at, lo) && Accepted(c, reqs, n) then 1 else 0
  }

  /** What the accepted requests so far say about the current bucket `b`: those of a bucket begun before
      `lo` leave its first request outside the interval, and at most one bucket begins inside. */
  ghost predicate Accounted(c: Config, b: Option<Bucket>, accepted: nat, lo: int, now: int) {
    var most := Max(c.max, 1);
    && (now < lo ==> accepted == 0)
    && (b.None? ==> accepted == 0)
    && (b.Some? ==>
          var start := b.value.resetAt - c.window;
          && 1 <= b.value.count <= most && start <= now
          && (start < lo ==> accepted <= b.value.count - 1)
          && (Within(c, start, lo) ==> accepted <= most - 1 + b.value.count)
          && accepted <= 2 * most - 1)
  }

  lemma AccountedSteps(c: Config, b: Option<Bucket>, accepted: nat, lo: int, before: int, now: int)
    requires Accounted(c, b, accepted, lo, before) && before <= now
    ensures
      var step := Step(c, b, now);
      Accounted(c, step.0, accepted + if step.1 && Within(c, now, lo) then 1 else 0, lo, now)
  {
  }

  lemma {:induction false} AccountedAlways(c: Config, reqs: seq<Request>, key: Key, lo: int, now: int)
    requires Monotone(reqs) && NeverEvicted(c, reqs, key)
    requires reqs != [] ==> reqs[|reqs| - 1].at <= now
    ensures Accounted(c, OwnBucket(c, reqs, key), AcceptedIn(c, reqs, key, lo), lo, now)
  {
    if reqs != [] {
      var n := |reqs| - 1;
      FrontNeverEvicted(c, reqs, n, key);
      AccountedAlways(c, reqs[..n], key, lo, reqs[n].at);
      if reqs[n].key == key {
        PruningNeverChangesADecision(c, reqs, n);
        AccountedSteps(c, OwnBucket(c, reqs[..n], key), AcceptedIn(c, reqs[..n], key, lo), lo, reqs[n].at, reqs[n].at);
      }
    }
  }

  /** Any interval as long as the window accepts at most one request less than twice the maximum. */
  lemma IntervalBound(c: Config, reqs: seq<Request>, key: Key, lo: int)
    requires Monotone(reqs) && NeverEvicted(c, reqs, key)
    ensures AcceptedIn(c, reqs, key, lo) <= 2 * Max(c.max, 1) - 1
  {
    AccountedAlways(c, reqs, key, lo, if reqs == [] then 0 else reqs[|reqs| - 1].at);
  }

  /******* When nothing is evicted, and the bound is reached *******/

  function Keys(entries: seq<Entry>): set<Key> {
    set e | e in entries :: e.key
  }

  lemma {:induction false} KeysCounted(entries: seq<Entry>, keys: set<Key>)
    requires Distinct(entries) && Keys(entries) <= keys
    ensures |entries| <= |keys|
  {
    if entries != [] {
      var front, last := entries[..|entries| - 1], entries[|entries| - 1];
      assert last in entries;
      forall k | k in Keys(front)
        ensures k in keys - {last.key}
      {
        var i :| 0 <= i < |front| && front[i].key == k;
        assert entries[i] in entries;
      }
      KeysCounted(front, keys - {last.key});
    }
  }

  lemma {:induction false} EntriesComeFromRequests(c: Config, reqs: seq<Request>, keys: set<Key>)
    requires forall r :: r in reqs ==> r.key in keys
    ensures Keys(After(c, reqs).entries) <= keys
  {
    if reqs != [] {
      var n := |reqs| - 1;
      var s := After(c, reqs[..n]);
      EntriesComeFromRequests(c, reqs[..n], keys);
      MapStaysSmall(c, reqs[..n]);
      LiveIsFilter(s.entries, reqs[n].at);
      var cleaned := Cleaned(c, s, reqs[n].at).entries;
      forall e | e in cleaned
        ensures e.key in keys
      {
        assert e in s.entries;
        assert e.key in Keys(s.entries);
      }
    }
  }

  lemma RoomMeansNoEviction(c: Config, s: State, key: Key, now: int)
    requires Distinct(s.entries) && |s.entries| <= c.bucketMax
    ensures !EvictsLive(c, s, key, now)
  {
    LiveIsFilter(s.entries, now);
    var i := IndexOf(s.entries, key);
    if i.Some? && !Expired(s.entries[i.value].bucket, now) {
      assert s.entries[i.value] in Cleaned(c, s, now).entries;
    }
  }

  /** A run with no more distinct keys than the configured maximum evicts no running bucket. */
  lemma FewKeysNeverEvict(c: Config, reqs: seq<Request>, keys: set<Key>, key: Key)
    requires (forall r :: r in reqs ==> r.key in keys) && |keys| <= c.bucketMax
    ensures NeverEvicted(c, reqs, key)
  {
    forall k | 0 <= k < |reqs|
      ensures !EvictsLive(c, After(c, reqs[..k]), key, reqs[k].at)
    {
      MapStaysSmall(c, reqs[..k]);
      EntriesComeFromRequests(c, reqs[..k], keys);
      KeysCounted(After(c, reqs[..k]).entries, keys);
      RoomMeansNoEviction(c, After(c, reqs[..k]), key, reqs[k].at);
    }
  }

  /** One request opens a window, the rest of its quota comes at its end, a full quota right after it. */
  function BurstTime(c: Config, i: nat): int {
    if i == 0 then 0 else if i < c.max then c.window else c.window + 1
  }

  ghost predicate IsBurst(c: Config, reqs: seq<Request>, key: Key) {
    |reqs| <= c.max + c.max && forall i :: 0 <= i < |reqs| ==> reqs[i] == Request(key, BurstTime(c, i))
  }

  function BurstBucket(c: Config, k: nat): Option<Bucket> {
    if k == 0 then None
    else if k <= c.max then Some(Bucket(k, c.window))
    else Some(Bucket(k - c.max, c.window + 1 + c.window))
  }

  lemma BurstIsAdmissible(c: Config, reqs: seq<Request>, key: Key)
    requires IsBurst(c, reqs, key) && c.bucketMax >= 1
    ensures Monotone(reqs) && NeverEvicted(c, reqs, key)
  {
    FewKeysNeverEvict(c, reqs, {key}, key);
  }

  lemma BurstStep(c: Config, k: nat)
    requires k < c.max + c.max && c.window >= 1
    ensures Step(c, BurstBucket(c, k), BurstTime(c, k)) == (BurstBucket(c, k + 1), true)
  {
  }

  lemma {:induction false} BurstAccepted(c: Config, reqs: seq<Request>, key: Key)
    requires IsBurst(c, reqs, key) && c.window >= 1 && c.bucketMax >= 1
    ensures OwnBucket(c, reqs, key) == BurstBucket(c, |reqs|)
    ensures AcceptedIn(c, reqs, key, 1) == if reqs == [] then 0 else |reqs| - 1
  {
    if reqs != [] {
      var n := |reqs| - 1;
      BurstAccepted(c, reqs[..n], key);
      BurstIsAdmissible(c, reqs, key);
      PruningNeverChangesADecision(c, reqs, n);
      BurstStep(c, n);
    }
  }

  ghost predicate ReachesBound(c: Config, reqs: seq<Request>, key: Key) {
    Monotone(reqs) && NeverEvicted(c, reqs, key) && AcceptedIn(c, reqs, key, 1) == 2 * Max(c.max, 1) - 1
  }

  /** The interval bound is exact: for every configuration with a window, a quota and a bucket, some run
      reaches it. */
  lemma BoundIsReached(c: Config, key: Key)
    requires c.max >= 1 && c.window >= 1 && c.bucketMax >= 1
    ensures exists reqs :: ReachesBound(c, reqs, key)
  {
    var reqs := seq(c.max + c.max, i requires 0 <= i => Request(key, BurstTime(c, i)));
    BurstIsAdmissible(c, reqs, key);
    BurstAccepted(c, reqs, key);
    assert ReachesBound(c, reqs, key);
  }

  /******* The bound needs a bucket for every key *******/

  /** One running bucket with one request for each key, in order. */
  function Full(c: Config, keys: seq<Key>): seq<Entry> {
    seq(|keys|, i requires 0 <= i < |keys| => Entry(keys[i], Bucket(1, c.window)))
  }

  ghost predicate AllDifferent(keys: seq<Key>) {
    forall i, j :: 0 <= i < j < |keys| ==> keys[i] != keys[j]
  }

  lemma FrontAndLast<T>(s: seq<T>)
    requires s != []
    ensures s == s[..|s| - 1] + [s[|s| - 1]] && forall x :: x in s[..|s| - 1] ==> x in s
  {
  }

  lemma {:induction false} NothingExpired(entries: seq<Entry>, now: int)
    requires forall e :: e in entries ==> !Expired(e.bucket, now)
    ensures Live(entries, now) == entries
  {
    if entries != [] {
      var front, last := entries[..|entries| - 1], entries[|entries| - 1];
      FrontAndLast(entries);
      assert last in entries;
      NothingExpired(front, now);
    }
  }

  lemma UnknownKey(entries: seq<Entry>, key: Key)
    requires forall e :: e in entries ==> e.key != key
    ensures IndexOf(entries, key) == None
  {
  }

  /** While there is room, a new key's request is accepted and its bucket goes last. */
  lemma NewKeyJoins(c: Config, keys: seq<Key>, key: Key)
    requires key !in keys && |keys| <= c.bucketMax
    ensures Enforced(c, State(Full(c, keys), 0), key, 0) == (State(Full(c, keys + [key]), 0), true)
  {
    NothingExpired(Full(c, keys), 0);
    UnknownKey(Full(c, keys), key);
    assert Full(c, keys) + [Entry(key, Bucket(1, c.window))] == Full(c, keys + [key]);
  }

  /** With one bucket too many, the oldest goes just before its own key's next request, which is then
      accepted as a first one. */
  lemma OldestIsReplaced(c: Config, keys: seq<Key>)
    requires AllDifferent(keys) && |keys| == c.bucketMax + 1
    ensures Enforced(c, State(Full(c, keys), 0), keys[0], 0) == (State(Full(c, keys[1..] + [keys[0]]), 0), true)
    ensures EvictsLive(c, State(Full(c, keys), 0), keys[0], 0)
  {
    var full, rest := Full(c, keys), Full(c, keys[1..]);
    NothingExpired(full, 0);
    assert Newest(full, c.bucketMax) == rest;
    UnknownKey(rest, keys[0]);
    assert rest + [Entry(keys[0], Bucket(1, c.window))] == Full(c, keys[1..] + [keys[0]]);
    assert full[0] in full;
    BucketIs(full, full[0]);
  }

  /** `r` rounds of one request for each key and then one more for each of the first `i`, at one instant. */
  function Rotation(keys: seq<Key>, r: nat, i: nat): seq<Request>
    requires i <= |keys|
    decreases r, i
  {
    if i > 0 then Rotation(keys, r, i - 1) + [Request(keys[i - 1], 0)]
    else if r > 0 then Rotation(keys, r - 1, |keys|)
    else []
  }

  lemma {:induction false} RotationRequests(keys: seq<Key>, r: nat, i: nat, all: set<Key>)
    requires i <= |keys| && forall k :: k in keys ==> k in all
    ensures forall q :: q in Rotation(keys, r, i) ==> q.at == 0 && q.key in all
    decreases r, i
  {
    if i > 0 {
      RotationRequests(keys, r, i - 1, all);
    } else if r > 0 {
      RotationRequests(keys, r - 1, |keys|, all);
    }
  }

  /** The buckets after a rotation: the keys by their last request. */
  function LastKeys(keys: seq<Key>, r: nat, i: nat): seq<Key>
    requires i <= |keys|
  {
    if r == 0 then keys[..i] else keys[i..] + keys[..i]
  }

  lemma OneMoreTurn(c: Config, reqs: seq<Request>, key: Key, counted: Key, before: State, after: State)
    requires After(c, reqs) == before && Enforced(c, before, key, 0) == (after, true)
    ensures After(c, reqs + [Request(key, 0)]) == after
    ensures AcceptedIn(c, reqs + [Request(key, 0)], counted, 0)
         == AcceptedIn(c, reqs, counted, 0) + if key == counted then 1 else 0
  {
    assert (reqs + [Request(key, 0)])[..|reqs|] == reqs;
  }

  /** One key more than there are buckets: every request of a rotation is accepted. */
  lemma {:induction false} RotationAccepted(c: Config, keys: seq<Key>, r: nat, i: nat)
    requires AllDifferent(keys) && |keys| == c.bucketMax + 1 && i <= |keys|
    ensures After(c, Rotation(keys, r, i)) == State(Full(c, LastKeys(keys, r, i)), 0)
    ensures AcceptedIn(c, Rotation(keys, r, i), keys[0], 0) == r + if i > 0 then 1 else 0
    decreases r, i
  {
    if i > 0 {
      RotationAccepted(c, keys, r, i - 1);
      RotationStep(c, keys, r, i - 1);
      assert keys[i - 1] == keys[0] <==> i == 1;
      OneMoreTurn(c, Rotation(keys, r, i - 1), keys[i - 1], keys[0],
                  State(Full(c, LastKeys(keys, r, i - 1)), 0), State(Full(c, LastKeys(keys, r, i)), 0));
    } else if r > 0 {
      RotationAccepted(c, keys, r - 1, |keys|);
      WholeRound(keys, r);
    } else {
      assert Full(c, LastKeys(keys, 0, 0)) == [];
    }
  }

  lemma RotationStep(c: Config, keys: seq<Key>, r: nat, i: nat)
    requires AllDifferent(keys) && |keys| == c.bucketMax + 1 && i < |keys|
    ensures Enforced(c, State(Full(c, LastKeys(keys, r, i)), 0), keys[i], 0)
         == (State(Full(c, LastKeys(keys, r, i + 1)), 0), true)
  {
    if r == 0 {
      FirstRoundGrows(keys, i);
      NewKeyJoins(c, LastKeys(keys, r, i), keys[i]);
    } else {
      LaterRoundTurns(keys, r, i);
      OldestIsReplaced(c, LastKeys(keys, r, i));
    }
  }

  lemma FirstRoundGrows(keys: seq<Key>, i: nat)
    requires AllDifferent(keys) && i < |keys|
    ensures keys[i] !in LastKeys(keys, 0, i) && LastKeys(keys, 0, i) + [keys[i]] == LastKeys(keys, 0, i + 1)
  {
  }

  lemma LaterRoundTurns(keys: seq<Key>, r: nat, i: nat)
    requires AllDifferent(keys) && i < |keys| && r > 0
    ensures
      var last := LastKeys(keys, r, i);
      && AllDifferent(last) && |last| == |keys| && last[0] == keys[i]
      && last[1..] + [last[0]] == LastKeys(keys, r, i + 1)
  {
    Turned(keys[..i], keys[i], keys[i + 1..]);
    assert keys[..i + 1] == keys[..i] + [keys[i]] && keys[i..] == [keys[i]] + keys[i + 1..];
    SwapStaysDifferent(keys[..i], keys[i..]);
    assert keys[..i] + keys[i..] == keys;
  }

  lemma Turned(a: seq<Key>, k: Key, b: seq<Key>)
    ensures ([k] + b + a)[1..] + [([k] + b + a)[0]] == b + (a + [k])
  {
  }

  lemma SwapStaysDifferent(a: seq<Key>, b: seq<Key>)
    requires AllDifferent(a + b)
    ensures AllDifferent(b + a)
  {
    var s, t := a + b, b + a;
    forall i, j | 0 <= i < j < |t|
      ensures t[i] != t[j]
    {
      var p, q := if i < |b| then i + |a| else i - |b|, if j < |b| then j + |a| else j - |b|;
      assert t[i] == s[p] && t[j] == s[q] && p != q;
    }
  }

  lemma WholeRound(keys: seq<Key>, r: nat)
    requires r > 0
    ensures LastKeys(keys, r - 1, |keys|) == LastKeys(keys, r, 0)
  {
    assert keys[..|keys|] == keys == keys[0..] + keys[..0];
  }

  /** A key and as many others as wanted, in some order. */
  lemma {:induction false} KeysInOrder(keys: set<Key>, key: Key, n: nat) returns (order: seq<Key>)
    requires key in keys && n < |keys|
    ensures AllDifferent(order) && |order| == n + 1 && order[0] == key
    ensures forall k :: k in order ==> k in keys
  {
    if n == 0 {
      order := [key];
    } else {
      var rest := keys - {key};
      assert |rest| == |keys| - 1;
      var next :| next in rest;
      var tail := KeysInOrder(rest, next, n - 1);
      order := [key] + tail;
    }
  }

  ghost predicate From(reqs: seq<Request>, keys: set<Key>) {
    forall r :: r in reqs ==> r.key in keys
  }

  /** No run of these keys with a monotone clock takes `key` over the interval bound. */
  ghost predicate BoundHolds(c: Config, keys: set<Key>, key: Key) {
    forall reqs, lo :: Monotone(reqs) && From(reqs, keys) ==> AcceptedIn(c, reqs, key, lo) <= 2 * Max(c.max, 1) - 1
  }

  lemma ExceedsBound(c: Config, keys: set<Key>, key: Key) returns (reqs: seq<Request>)
    requires key in keys && |keys| > c.bucketMax
    ensures Monotone(reqs) && From(reqs, keys) && AcceptedIn(c, reqs, key, 0) > 2 * Max(c.max, 1) - 1
  {
    var order := KeysInOrder(keys, key, c.bucketMax);
    var rounds := 2 * Max(c.max, 1);
    reqs := Rotation(order, rounds, 0);
    RotationRequests(order, rounds, 0, keys);
    RotationAccepted(c, order, rounds, 0);
  }

  /** The interval bound holds for every run of a set of keys exactly when there is a bucket for each of
      them: with one key more, requests in rotation are each accepted just after their own bucket went. */
  lemma BoundHoldsIff(c: Config, keys: set<Key>, key: Key)
    requires key in keys
    ensures BoundHolds(c, keys, key) <==> |keys| <= c.bucketMax
  {
    if |keys| <= c.bucketMax {
      forall reqs, lo | Monotone(reqs) && From(reqs, keys)
        ensures AcceptedIn(c, reqs, key, lo) <= 2 * Max(c.max, 1) - 1
      {
        FewKeysNeverEvict(c, reqs, keys, key);
        IntervalBound(c, reqs, key, lo);
      }
    } else {
      var reqs := ExceedsBound(c, keys, key);
    }
  }

  /** The smallest case: with room for one bucket, a second key's request pushes the first key's bucket
      out, and a window meant for one request accepts two. */
  lemma EvictionVoidsTheBound(c: Config, a: Key, b: Key)
    requires a != b && c.bucketMax == 1 && c.max <= 1
    ensures AcceptedIn(c, Rotation([a, b], 1, 1), a, 0) > 2 * Max(c.max, 1) - 1
    ensures EvictsLive(c, After(c, Rotation([a, b], 0, 2)), a, 0)
    ensures Rotation([a, b], 0, 2) == [Request(a, 0), Request(b, 0)]
    ensures Rotation([a, b], 1, 1) == [Request(a, 0), Request(b, 0), Request(a, 0)]
  {
    var keys := [a, b];
    RotationAccepted(c, keys, 1, 1);
    RotationAccepted(c, keys, 0, 2);
    OldestIsReplaced(c, keys);
    assert LastKeys(keys, 0, 2) == keys;
    SmallRotation(a, b);
  }

  lemma SmallRotation(a: Key, b: Key)
    ensures
      var reqs := [Request(a, 0), Request(b, 0), Request(a, 0)];
      && Rotation([a, b], 1, 1) == reqs && Rotation([a, b], 0, 2) == reqs[..2]
  {
    assert Rotation([a, b], 0, 1) == [Request(a, 0)];
    assert Rotation([a, b], 0, 2) == [Request(a, 0), Request(b, 0)] == Rotation([a, b], 1, 0);
  }
}
