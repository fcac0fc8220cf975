/**
 The login throttle while only failures count (`allow_request` with `failures_only`, and
 `note_failed_login`). Times come from a clock that never goes back.
 */
module LoginThrottle {
  import opened ByteStrings

  type Key = string

  /** What the cache holds for an address, until `expires`. */
  datatype Entry = Entry(history: seq<int>, expires: int)

  type Cache = map<Key, Entry>

  /** `cache.get(key, [])` */
  function Cached(cache: Cache, key: Key, now: int): seq<int> {
    if key in cache && now < cache[key].expires then cache[key].history else []
  }

  /** `[t for t in history if t > now - duration]` */
  function Counting(history: seq<int>, now: int, duration: int): seq<int> {
    if history == [] then []
    else (if history[0] > now - duration then [history[0]] else []) + Counting(history[1..], now, duration)
  }

  function Allows(cache: Cache, key: Key, now: int, duration: int, limit: nat): bool {
    |Counting(Cached(cache, key, now), now, duration)| < limit
  }

  function Noted(cache: Cache, key: Key, now: int, duration: int): Cache {
    cache[key := Entry([now] + Counting(Cached(cache, key, now), now, duration), now + duration)]
  }

  class Throttle {
    var cache: Cache
    const duration: nat
    const limit: nat

    constructor (limit: nat, duration: nat)
      ensures cache == map[] && this.limit == limit && this.duration == duration
    {
      cache, this.limit, this.duration := map[], limit, duration;
    }

    method Recent(key: Key, now: int) returns (history: seq<int>)
      ensures history == Counting(Cached(cache, key, now), now, duration)
    {
      var stored := Cached(cache, key, now);
      history := [];
      for n := 0 to |stored|
        invariant history + Counting(stored[n..], now, duration) == Counting(stored, now, duration)
      {
        var rest := Counting(stored[n + 1..], now, duration);
        assert stored[n..][1..] == stored[n + 1..];
        if stored[n] > now - duration {
          assert history + ([stored[n]] + rest) == history + [stored[n]] + rest;
          history := history + [stored[n]];
        } else {
          assert [] + rest == rest;
        }
      }
    }

    /** A successful login only ever gets this far, and this writes nothing. */
    method AllowRequest(key: Key, now: int) returns (allowed: bool)
      ensures allowed == Allows(cache, key, now, duration, limit)
    {
      var history := Recent(key, now);
      allowed := |history| < limit;
    }

    method NoteFailedLogin(key: Key, now: int)
      modifies this
      ensures cache == Noted(old(cache), key, now, duration)
    {
      var history := Recent(key, now);
      history := [now] + history;
      cache := cache[key := Entry(history, now + duration)];
    }
  }

  // ----- runs

  /** One login attempt: asked about at one time and, if it failed, noted at another, not earlier. */
  datatype Attempt = Attempt(key: Key, asked: int, fails: bool, noted: int)

  /** One after the other, on a clock that never goes back. */
  predicate Sequential(attempts: seq<Attempt>) {
    && (forall i :: 0 <= i < |attempts| ==> attempts[i].asked <= attempts[i].noted)
    && (forall i, j :: 0 <= i < j < |attempts| ==> attempts[i].noted <= attempts[j].asked)
  }

  predicate Admitted(cache: Cache, a: Attempt, duration: nat, limit: nat) {
    Allows(cache, a.key, a.asked, duration, limit)
  }

  function After(cache: Cache, a: Attempt, duration: nat, limit: nat): Cache {
    if Admitted(cache, a, duration, limit) && a.fails then Noted(cache, a.key, a.noted, duration) else cache
  }

  function CacheAfter(attempts: seq<Attempt>, duration: nat, limit: nat): Cache {
    if attempts == [] then map[]
    else
      var n := |attempts| - 1;
      After(CacheAfter(attempts[..n], duration, limit), attempts[n], duration, limit)
  }

  /** The times of every failed login let through for an address, the latest first. */
  function Failures(attempts: seq<Attempt>, key: Key, duration: nat, limit: nat): seq<int> {
    if attempts == [] then []
    else
      var n, last := |attempts| - 1, attempts[|attempts| - 1];
      var before := Failures(attempts[..n], key, duration, limit);
      if last.key == key && last.fails && Admitted(CacheAfter(attempts[..n], duration, limit), last, duration, limit)
      then [last.noted] + before else before
  }

  predicate Descending(history: seq<int>) {
    forall i, j :: 0 <= i < j < |history| ==> history[i] >= history[j]
  }

  /** In a descending list, what still counts at `now` is its first part. */
  lemma {:induction false} CountingIsAPrefix(history: seq<int>, now: int, duration: nat) returns (n: nat)
    requires Descending(history)
    ensures n <= |history| && Counting(history, now, duration) == history[..n]
    ensures n < |history| ==> history[n] <= now - duration
    ensures n > 0 ==> history[n - 1] > now - duration
  {
    if history == [] {
      n := 0;
    } else {
      var m := CountingIsAPrefix(history[1..], now, duration);
      if history[0] > now - duration {
        n := m + 1;
        assert history[..n] == [history[0]] + history[1..][..m];
      } else {
        n := 0;
        assert m == 0;
      }
    }
  }

  lemma {:induction false} CountingAgain(history: seq<int>, earlier: int, now: int, duration: nat)
    requires earlier <= now
    ensures Counting(Counting(history, earlier, duration), now, duration) == Counting(history, now, duration)
  {
    if history != [] {
      CountingAgain(history[1..], earlier, now, duration);
      var kept := Counting(history, earlier, duration);
      if history[0] > earlier - duration {
        assert kept[1..] == Counting(history[1..], earlier, duration);
      } else {
        assert kept == Counting(history[1..], earlier, duration);
        assert Counting(history, now, duration) == Counting(history[1..], now, duration);
      }
    }
  }

  lemma {:induction false} FailuresDescend(attempts: seq<Attempt>, key: Key, duration: nat, limit: nat)
    requires Sequential(attempts)
    ensures var f := Failures(attempts, key, duration, limit);
            && Descending(f)
            && (f != [] ==> attempts != [] && f[0] <= attempts[|attempts| - 1].noted)
  {
    if attempts != [] {
      var n := |attempts| - 1;
      FailuresDescend(attempts[..n], key, duration, limit);
      if n > 0 {
        assert attempts[..n][n - 1] == attempts[n - 1];
      }
    }
  }

  /** What is remembered of an address: a filter of its failures, kept for as long as any can count. */
  ghost predicate Remembers(cache: Cache, key: Key, failures: seq<int>, duration: nat, since: int) {
    && (key !in cache ==> failures == [])
    && (key in cache ==>
          && failures != [] && cache[key].expires == failures[0] + duration
          && failures[0] <= since
          && cache[key].history == Counting(failures, failures[0], duration))
  }

  lemma {:induction false} CacheRemembers(attempts: seq<Attempt>, key: Key, duration: nat, limit: nat)
    requires Sequential(attempts) && attempts != [] && duration > 0
    ensures Remembers(CacheAfter(attempts, duration, limit), key, Failures(attempts, key, duration, limit), duration,
                      attempts[|attempts| - 1].noted)
  {
    var n, last := |attempts| - 1, attempts[|attempts| - 1];
    var before, was := CacheAfter(attempts[..n], duration, limit), Failures(attempts[..n], key, duration, limit);
    if n > 0 {
      CacheRemembers(attempts[..n], key, duration, limit);
      assert attempts[..n][n - 1] == attempts[n - 1];
    }
    if last.key == key && last.fails && Admitted(before, last, duration, limit) {
      FailuresDescend(attempts[..n], key, duration, limit);
      NothingForgotten(before, key, was, duration, if n > 0 then attempts[n - 1].noted else last.noted, last.noted);
    }
  }

  /** The cache entry's expiry and the filtering forget no failure that still counts. */
  lemma NothingForgotten(cache: Cache, key: Key, failures: seq<int>, duration: nat, since: int, now: int)
    requires Remembers(cache, key, failures, duration, since) && since <= now && Descending(failures)
    ensures Counting(Cached(cache, key, now), now, duration) == Counting(failures, now, duration)
  {
    if key in cache {
      if now < cache[key].expires {
        CountingAgain(failures, failures[0], now, duration);
      } else {
        var n := CountingIsAPrefix(failures, now, duration);
        assert n == 0;
      }
    }
  }

  /** Those of these failures that are less than `duration` old. */
  function StillCounting(failures: seq<int>, now: int, duration: nat): set<nat> {
    set i: nat | 0 <= i < |failures| && now - failures[i] < duration
  }

  function Below(n: nat): (s: set<nat>)
    ensures |s| == n && forall i: nat :: i in s <==> i < n
  {
    if n == 0 then {} else Below(n - 1) + {n - 1}
  }

  lemma CountingIsRecent(failures: seq<int>, now: int, duration: nat)
    requires Descending(failures)
    ensures |Counting(failures, now, duration)| == |StillCounting(failures, now, duration)|
  {
    var n := CountingIsAPrefix(failures, now, duration);
    forall i: nat ensures i in StillCounting(failures, now, duration) <==> i < n {
      if i < |failures| && n > 0 {
        assert i < n - 1 ==> failures[i] >= failures[n - 1];
      }
      if i < |failures| {
        assert n < i ==> failures[n] >= failures[i];
      }
    }
    assert StillCounting(failures, now, duration) == Below(n);
  }

  /** At any attempt, the failures counted are exactly those of the last `duration`. */
  lemma AskedAboutTheRealFailures(attempts: seq<Attempt>, next: Attempt, duration: nat, limit: nat)
    requires Sequential(attempts + [next]) && duration > 0
    ensures var f := Failures(attempts, next.key, duration, limit);
            Admitted(CacheAfter(attempts, duration, limit), next, duration, limit)
            <==> |StillCounting(f, next.asked, duration)| < limit
  {
    AskedOfTheCache(attempts, next, duration, limit);
    assert Sequential(attempts) by {
      assert forall i :: 0 <= i < |attempts| ==> attempts[i] == (attempts + [next])[i];
    }
    FailuresDescend(attempts, next.key, duration, limit);
    CountingIsRecent(Failures(attempts, next.key, duration, limit), next.asked, duration);
  }

  lemma AskedOfTheCache(attempts: seq<Attempt>, next: Attempt, duration: nat, limit: nat)
    requires Sequential(attempts + [next]) && duration > 0
    ensures var f := Failures(attempts, next.key, duration, limit);
            Admitted(CacheAfter(attempts, duration, limit), next, duration, limit)
            <==> |Counting(f, next.asked, duration)| < limit
  {
    assert Sequential(attempts) by {
      assert forall i :: 0 <= i < |attempts| ==> attempts[i] == (attempts + [next])[i];
    }
    if attempts != [] {
      CacheRemembers(attempts, next.key, duration, limit);
      FailuresDescend(attempts, next.key, duration, limit);
      var last := attempts[|attempts| - 1];
      assert (attempts + [next])[|attempts| - 1] == last && (attempts + [next])[|attempts|] == next;
      NothingForgotten(CacheAfter(attempts, duration, limit), next.key,
                       Failures(attempts, next.key, duration, limit), duration, last.noted, next.asked);
    }
  }

  /** If fewer than `limit` of them count, the one in place `limit` is old enough. */
  lemma OldEnough(history: seq<int>, now: int, duration: nat, limit: nat)
    requires Descending(history) && |Counting(history, now, duration)| < limit <= |history|
    ensures history[limit - 1] <= now - duration
  {
    var k := CountingIsAPrefix(history, now, duration);
    assert k <= limit - 1;
  }

  /** A failure let through comes at least `duration` after the one `limit` places before it. */
  lemma LetThroughLate(attempts: seq<Attempt>, last: Attempt, duration: nat, limit: nat)
    requires Sequential(attempts) && Sequential(attempts + [last]) && last.asked <= last.noted && duration > 0
    requires Admitted(CacheAfter(attempts, duration, limit), last, duration, limit)
    requires limit <= |Failures(attempts, last.key, duration, limit)|
    ensures limit > 0 && last.noted - Failures(attempts, last.key, duration, limit)[limit - 1] >= duration
  {
    AskedOfTheCache(attempts, last, duration, limit);
    FailuresDescend(attempts, last.key, duration, limit);
    OldEnough(Failures(attempts, last.key, duration, limit), last.asked, duration, limit);
  }

  /** No more than `limit` failed logins of an address are let through in any window of the duration. */
  lemma {:induction false} AtMostLimitFailures(attempts: seq<Attempt>, key: Key, duration: nat, limit: nat, i: nat)
    requires Sequential(attempts) && duration > 0
    requires i + limit < |Failures(attempts, key, duration, limit)|
    ensures var f := Failures(attempts, key, duration, limit); f[i] - f[i + limit] >= duration
    decreases |attempts|
  {
    var n, last := |attempts| - 1, attempts[|attempts| - 1];
    var front := attempts[..n];
    var was, f := Failures(front, key, duration, limit), Failures(attempts, key, duration, limit);
    assert attempts == front + [last];
    if last.key == key && last.fails && Admitted(CacheAfter(front, duration, limit), last, duration, limit) {
      assert f == [last.noted] + was;
      if i > 0 {
        AtMostLimitFailures(front, key, duration, limit, i - 1);
      } else {
        LetThroughLate(front, last, duration, limit);
      }
    } else {
      AtMostLimitFailures(front, key, duration, limit, i);
    }
  }
}
