/** `IPRateLimiter` of server/internal/auth/ratelimit.go, against a limiter that never forgets. Times are nanoseconds. */
module RateLimit {

  /** The hits after a cutoff, in order. */
  function Recent(times: seq<int>, cutoff: int): (r: seq<int>)
    ensures |r| <= |times|
  {
    if times == [] then []
    else if times[0] > cutoff then [times[0]] + Recent(times[1..], cutoff)
    else Recent(times[1..], cutoff)
  }

  lemma {:induction false} RecentCons(x: int, xs: seq<int>, cutoff: int)
    ensures Recent([x] + xs, cutoff) == (if x > cutoff then [x] else []) + Recent(xs, cutoff)
  {
    var all := [x] + xs;
    assert all[1..] == xs;
    assert [] + Recent(xs, cutoff) == Recent(xs, cutoff);
  }

  lemma {:induction false} RecentConcat(a: seq<int>, b: seq<int>, cutoff: int)
    ensures Recent(a + b, cutoff) == Recent(a, cutoff) + Recent(b, cutoff)
  {
    if a == [] {
      assert a + b == b && Recent(a, cutoff) + Recent(b, cutoff) == Recent(b, cutoff);
    } else {
      var x, rest := a[0], a[1..];
      var head, tail := if x > cutoff then [x] else [], Recent(b, cutoff);
      RecentConcat(rest, b, cutoff);
      RecentCons(x, rest, cutoff);
      RecentCons(x, rest + b, cutoff);
      assert a == [x] + rest && a + b == [x] + (rest + b);
      assert head + (Recent(rest, cutoff) + tail) == (head + Recent(rest, cutoff)) + tail;
    }
  }

  /** Pruning early and again later is pruning later. */
  lemma {:induction false} RecentTwice(times: seq<int>, early: int, late: int)
    requires early <= late
    ensures Recent(Recent(times, early), late) == Recent(times, late)
  {
    if times != [] {
      RecentTwice(times[1..], early, late);
      if times[0] > early {
        assert ([times[0]] + Recent(times[1..], early))[1..] == Recent(times[1..], early);
      }
    }
  }

  /** The compaction loop: kept hits slide to the front of the same array. */
  method Compact(a: array<int>, cutoff: int) returns (n: nat)
    modifies a
    ensures n <= a.Length
    ensures a[..n] == Recent(old(a[..]), cutoff)
  {
    n := 0;
    ghost var was := a[..];
    for i := 0 to a.Length
      invariant n <= i
      invariant a[..n] + Recent(was[i..], cutoff) == Recent(was, cutoff)
      invariant a[i..] == was[i..]
    {
      assert was[i..][1..] == was[i + 1..] && a[i] == was[i];
      if a[i] > cutoff {
        ghost var kept := a[..n];
        var t := a[i];
        a[n] := t;
        n := n + 1;
        assert a[..n] == kept + [t];
      }
      assert a[i + 1..] == was[i + 1..];
    }
    assert was[a.Length..] == [];
  }

  // ---------------------------------------------------------------- the limiter's state

  datatype Limiter = Limiter(hits: map<string, seq<int>>, cleanup: int)

  function HitsOf(hits: map<string, seq<int>>, key: string): seq<int> {
    if key in hits then hits[key] else []
  }

  function Named(key: string): string {
    if key == "" then "unknown" else key
  }

  function Pruned(hits: map<string, seq<int>>, cutoff: int): map<string, seq<int>> {
    map k | k in hits && Recent(hits[k], cutoff) != [] :: Recent(hits[k], cutoff)
  }

  /** The occasional cleanup. */
  function Swept(l: Limiter, window: int, now: int): Limiter {
    if now > l.cleanup then Limiter(Pruned(l.hits, now - window), now + window) else l
  }

  function Allowed(l: Limiter, limit: nat, window: int, key: string, now: int): (Limiter, bool) {
    var k := Named(key);
    var m := Swept(l, window, now);
    var times := Recent(HitsOf(m.hits, k), now - window);
    if |times| >= limit then (m.(hits := m.hits[k := times]), false)
    else (m.(hits := m.hits[k := times + [now]]), true)
  }

  // ---------------------------------------------------------------- the limiter that keeps everything

  /** An allowed event. */
  datatype Hit = Hit(key: string, at: int)

  function TimesOf(log: seq<Hit>, key: string): seq<int> {
    if log == [] then []
    else TimesOf(log[..|log| - 1], key) + (if log[|log| - 1].key == key then [log[|log| - 1].at] else [])
  }

  predicate AllowedByLog(log: seq<Hit>, limit: nat, window: int, key: string, now: int) {
    |Recent(TimesOf(log, Named(key)), now - window)| < limit
  }

  function Logged(log: seq<Hit>, limit: nat, window: int, key: string, now: int): seq<Hit> {
    if AllowedByLog(log, limit, window, key, now) then log + [Hit(Named(key), now)] else log
  }

  /** From time t on, nobody can tell the limiter's list from the log. */
  ghost predicate Agrees(l: Limiter, log: seq<Hit>, window: int, t: int) {
    forall k, cutoff :: cutoff >= t - window ==> Recent(HitsOf(l.hits, k), cutoff) == Recent(TimesOf(log, k), cutoff)
  }

  lemma {:induction false} PruneAgrees(l: Limiter, log: seq<Hit>, window: int, t: int, now: int, cleanup: int)
    requires Agrees(l, log, window, t) && t <= now
    ensures Agrees(Limiter(Pruned(l.hits, now - window), cleanup), log, window, now)
  {
    var m := Limiter(Pruned(l.hits, now - window), cleanup);
    forall k, cutoff | cutoff >= now - window
      ensures Recent(HitsOf(m.hits, k), cutoff) == Recent(TimesOf(log, k), cutoff) {
      RecentTwice(HitsOf(l.hits, k), now - window, cutoff);
    }
  }

  lemma {:induction false} SweepAgrees(l: Limiter, log: seq<Hit>, window: int, t: int, now: int)
    requires Agrees(l, log, window, t) && t <= now
    ensures Agrees(Swept(l, window, now), log, window, now)
  {
    if now > l.cleanup {
      PruneAgrees(l, log, window, t, now, now + window);
    }
  }

  /** One call gives the log's answer and keeps the agreement. */
  lemma {:induction false} CallAgrees(l: Limiter, log: seq<Hit>, limit: nat, window: int, t: int, key: string, now: int)
    requires Agrees(l, log, window, t) && t <= now
    ensures Allowed(l, limit, window, key, now).1 == AllowedByLog(log, limit, window, key, now)
    ensures Agrees(Allowed(l, limit, window, key, now).0, Logged(log, limit, window, key, now), window, now)
  {
    SweepAgrees(l, log, window, t, now);
    var m, name := Swept(l, window, now), Named(key);
    assert Recent(HitsOf(m.hits, name), now - window) == Recent(TimesOf(log, name), now - window);
    var after := Allowed(l, limit, window, key, now).0;
    var log' := Logged(log, limit, window, key, now);
    forall k, cutoff | cutoff >= now - window
      ensures Recent(HitsOf(after.hits, k), cutoff) == Recent(TimesOf(log', k), cutoff) {
      assert Recent(HitsOf(m.hits, k), cutoff) == Recent(TimesOf(log, k), cutoff);
      ListAgrees(m.hits, log, limit, window, name, now, k, cutoff);
    }
  }

  /** What one call does to the list of any key. */
  lemma {:induction false} ListAgrees(
    hits: map<string, seq<int>>, log: seq<Hit>, limit: nat, window: int, name: string, now: int, k: string, cutoff: int)
    requires now - window <= cutoff && Recent(HitsOf(hits, k), cutoff) == Recent(TimesOf(log, k), cutoff)
    ensures var times := Recent(HitsOf(hits, name), now - window);
            && Recent(HitsOf(hits[name := times], k), cutoff) == Recent(TimesOf(log, k), cutoff)
            && Recent(HitsOf(hits[name := times + [now]], k), cutoff)
               == Recent(TimesOf(log + [Hit(name, now)], k), cutoff)
  {
    assert (log + [Hit(name, now)])[..|log|] == log;
    if k == name {
      TouchedListAgrees(HitsOf(hits, k), TimesOf(log, k), now, now - window, cutoff);
    } else {
      assert TimesOf(log, k) + [] == TimesOf(log, k);
    }
  }

  /** The list of the key that was asked about, with and without the new hit. */
  lemma {:induction false} TouchedListAgrees(mine: seq<int>, all: seq<int>, now: int, early: int, cutoff: int)
    requires early <= cutoff && Recent(mine, cutoff) == Recent(all, cutoff)
    ensures Recent(Recent(mine, early), cutoff) == Recent(all, cutoff)
    ensures Recent(Recent(mine, early) + [now], cutoff) == Recent(all + [now], cutoff)
  {
    RecentTwice(mine, early, cutoff);
    RecentConcat(Recent(mine, early), [now], cutoff);
    RecentConcat(all, [now], cutoff);
  }

  /** Every list stays within the limit. */
  ghost predicate Within(hits: map<string, seq<int>>, limit: nat) {
    forall k :: k in hits ==> |hits[k]| <= limit
  }

  lemma {:induction false} CallKeepsWithin(l: Limiter, limit: nat, window: int, key: string, now: int)
    requires Within(l.hits, limit)
    ensures Within(Allowed(l, limit, window, key, now).0.hits, limit)
  {
    var m := Swept(l, window, now);
    assert Within(m.hits, limit);
    assert |Recent(HitsOf(m.hits, Named(key)), now - window)| <= limit;
  }

  // ---------------------------------------------------------------- whole runs

  datatype Call = Call(key: string, now: int)

  ghost predicate Nondecreasing(calls: seq<Call>, from: int) {
    forall i :: 0 <= i < |calls| ==> from <= calls[i].now && (i > 0 ==> calls[i - 1].now <= calls[i].now)
  }

  function Answers(l: Limiter, limit: nat, window: int, calls: seq<Call>): seq<bool>
    decreases |calls|
  {
    if calls == [] then []
    else
      var (m, ok) := Allowed(l, limit, window, calls[0].key, calls[0].now);
      [ok] + Answers(m, limit, window, calls[1..])
  }

  function LogAnswers(log: seq<Hit>, limit: nat, window: int, calls: seq<Call>): seq<bool>
    decreases |calls|
  {
    if calls == [] then []
    else
      [AllowedByLog(log, limit, window, calls[0].key, calls[0].now)]
      + LogAnswers(Logged(log, limit, window, calls[0].key, calls[0].now), limit, window, calls[1..])
  }

  function FinalLog(log: seq<Hit>, limit: nat, window: int, calls: seq<Call>): seq<Hit>
    decreases |calls|
  {
    if calls == [] then log
    else FinalLog(Logged(log, limit, window, calls[0].key, calls[0].now), limit, window, calls[1..])
  }

  /** With a clock that never runs back, the pruning limiter answers every call as the full-history one does. */
  lemma {:induction false} SameAnswers(l: Limiter, log: seq<Hit>, limit: nat, window: int, t: int, calls: seq<Call>)
    requires Agrees(l, log, window, t) && Nondecreasing(calls, t)
    ensures Answers(l, limit, window, calls) == LogAnswers(log, limit, window, calls)
    decreases |calls|
  {
    if calls != [] {
      var c := calls[0];
      CallAgrees(l, log, limit, window, t, c.key, c.now);
      var rest := calls[1..];
      assert forall i :: 0 <= i < |rest| ==> rest[i] == calls[i + 1];
      NondecreasingTail(calls, t);
      SameAnswers(Allowed(l, limit, window, c.key, c.now).0, Logged(log, limit, window, c.key, c.now),
                  limit, window, c.now, rest);
    }
  }

  lemma {:induction false} NondecreasingTail(calls: seq<Call>, t: int)
    requires calls != [] && Nondecreasing(calls, t)
    ensures Nondecreasing(calls[1..], calls[0].now)
  {
    var rest := calls[1..];
    var i := 0;
    while i < |rest|
      invariant 0 <= i <= |rest|
      invariant forall k :: 0 <= k < i ==> calls[0].now <= rest[k].now && (k > 0 ==> rest[k - 1].now <= rest[k].now)
    {
      assert calls[i].now <= calls[i + 1].now;
      assert i > 0 ==> rest[i - 1] == calls[i];
      i := i + 1;
    }
  }

  // ---------------------------------------------------------------- the bound

  /** How many events of a key fall into the half-open window (end - window, end]. */
  function InWindow(log: seq<Hit>, key: string, window: int, end: int): nat {
    if log == [] then 0
    else
      var h := log[|log| - 1];
      InWindow(log[..|log| - 1], key, window, end)
      + (if h.key == key && end - window < h.at <= end then 1 else 0)
  }

  lemma {:induction false} InWindowIsRecent(log: seq<Hit>, key: string, window: int, end: int, cutoff: int)
    requires cutoff <= end - window
    ensures InWindow(log, key, window, end) <= |Recent(TimesOf(log, key), cutoff)|
  {
    if log != [] {
      var h := log[|log| - 1];
      InWindowIsRecent(log[..|log| - 1], key, window, end, cutoff);
      RecentConcat(TimesOf(log[..|log| - 1], key), if h.key == key then [h.at] else [], cutoff);
    }
  }

  ghost predicate WithinLimit(log: seq<Hit>, limit: nat, window: int) {
    forall key, end :: InWindow(log, key, window, end) <= limit
  }

  lemma {:induction false} CallKeepsLimit(log: seq<Hit>, limit: nat, window: int, key: string, now: int)
    requires WithinLimit(log, limit, window)
    ensures WithinLimit(Logged(log, limit, window, key, now), limit, window)
  {
    var log' := Logged(log, limit, window, key, now);
    if log' != log {
      assert log'[..|log'| - 1] == log;
      forall k, end ensures InWindow(log', k, window, end) <= limit {
        assert InWindow(log, k, window, end) <= limit;
        if k == Named(key) && end - window < now <= end {
          InWindowIsRecent(log, k, window, end, now - window);
        }
      }
    }
  }

  /** No key is ever allowed more than `limit` times in any half-open window, whatever the calls. */
  lemma {:induction false} RunKeepsLimit(log: seq<Hit>, limit: nat, window: int, calls: seq<Call>)
    requires WithinLimit(log, limit, window)
    ensures WithinLimit(FinalLog(log, limit, window, calls), limit, window)
    decreases |calls|
  {
    if calls != [] {
      CallKeepsLimit(log, limit, window, calls[0].key, calls[0].now);
      RunKeepsLimit(Logged(log, limit, window, calls[0].key, calls[0].now), limit, window, calls[1..]);
    }
  }

  /** Both together, from a new limiter: the real answers are those of a history that respects the limit. */
  lemma {:induction false} LimiterHolds(limit: nat, window: int, cleanup: int, start: int, calls: seq<Call>)
    requires Nondecreasing(calls, start)
    ensures Answers(Limiter(map[], cleanup), limit, window, calls) == LogAnswers([], limit, window, calls)
    ensures WithinLimit(FinalLog([], limit, window, calls), limit, window)
  {
    SameAnswers(Limiter(map[], cleanup), [], limit, window, start, calls);
    RunKeepsLimit([], limit, window, calls);
  }

  // ---------------------------------------------------------------- the answers, from the calls alone

  /** Callers without an address share one allowance with the address "unknown". */
  predicate SameClient(a: string, b: string) {
    a == b || (a == "" && b == "unknown") || (a == "unknown" && b == "")
  }

  /** How many of the first n calls came from this client after the cutoff and were allowed. */
  function AllowedSince(calls: seq<Call>, answers: seq<bool>, n: nat, key: string, cutoff: int): nat
    requires n <= |calls| && n <= |answers|
  {
    if n == 0 then 0
    else
      AllowedSince(calls, answers, n - 1, key, cutoff)
      + (if answers[n - 1] && SameClient(calls[n - 1].key, key) && calls[n - 1].now > cutoff then 1 else 0)
  }

  lemma {:induction false} SinceDependsOnPrefix(
    calls: seq<Call>, xs: seq<bool>, ys: seq<bool>, n: nat, key: string, cutoff: int)
    requires n <= |calls| && n <= |xs| && n <= |ys| && xs[..n] == ys[..n]
    ensures AllowedSince(calls, xs, n, key, cutoff) == AllowedSince(calls, ys, n, key, cutoff)
  {
    if n > 0 {
      assert xs[..n][n - 1] == ys[..n][n - 1] && xs[..n - 1] == xs[..n][..n - 1] && ys[..n - 1] == ys[..n][..n - 1];
      SinceDependsOnPrefix(calls, xs, ys, n - 1, key, cutoff);
    }
  }

  /** The log counts what the first n calls were allowed. */
  ghost predicate LogFits(log: seq<Hit>, calls: seq<Call>, answers: seq<bool>, n: nat)
    requires n <= |calls| && n <= |answers|
  {
    forall key, cutoff :: |Recent(TimesOf(log, Named(key)), cutoff)| == AllowedSince(calls, answers, n, key, cutoff)
  }

  lemma {:induction false} LogStep(
    log: seq<Hit>, calls: seq<Call>, done: seq<bool>, n: nat, limit: nat, window: int)
    requires n < |calls| && |done| == n && LogFits(log, calls, done, n)
    ensures var c := calls[n];
            var ok := AllowedByLog(log, limit, window, c.key, c.now);
            && (ok <==> AllowedSince(calls, done, n, c.key, c.now - window) < limit)
            && LogFits(Logged(log, limit, window, c.key, c.now), calls, done + [ok], n + 1)
  {
    var c := calls[n];
    var ok := AllowedByLog(log, limit, window, c.key, c.now);
    var log', done' := Logged(log, limit, window, c.key, c.now), done + [ok];
    assert |Recent(TimesOf(log, Named(c.key)), c.now - window)| == AllowedSince(calls, done, n, c.key, c.now - window);
    forall key, cutoff
      ensures |Recent(TimesOf(log', Named(key)), cutoff)| == AllowedSince(calls, done', n + 1, key, cutoff) {
      assert |Recent(TimesOf(log, Named(key)), cutoff)| == AllowedSince(calls, done, n, key, cutoff);
      assert done'[..n] == done[..n];
      SinceDependsOnPrefix(calls, done, done', n, key, cutoff);
      assert Named(c.key) == Named(key) <==> SameClient(c.key, key);
      if ok {
        assert log'[..|log|] == log;
        var last := if SameClient(c.key, key) then [c.now] else [];
        assert TimesOf(log', Named(key)) == TimesOf(log, Named(key)) + last;
        RecentConcat(TimesOf(log, Named(key)), last, cutoff);
        assert |Recent(last, cutoff)| == if SameClient(c.key, key) && c.now > cutoff then 1 else 0 by {
          if last != [] {
            RecentCons(c.now, [], cutoff);
            assert [c.now] + [] == [c.now];
          }
        }
      }
    }
  }

  /** The i-th call is allowed exactly when its client still has allowance. */
  ghost predicate AnswerFits(calls: seq<Call>, answers: seq<bool>, i: nat, limit: nat, window: int)
    requires i < |calls| == |answers|
  {
    answers[i] <==> AllowedSince(calls, answers, i, calls[i].key, calls[i].now - window) < limit
  }

  lemma {:induction false} LogMeans(
    log: seq<Hit>, calls: seq<Call>, done: seq<bool>, n: nat, limit: nat, window: int)
    requires n <= |calls| && |done| == n && LogFits(log, calls, done, n)
    ensures var answers := done + LogAnswers(log, limit, window, calls[n..]);
            |answers| == |calls| && forall i :: n <= i < |calls| ==> AnswerFits(calls, answers, i, limit, window)
    decreases |calls| - n
  {
    if n < |calls| {
      var c := calls[n];
      var ok := AllowedByLog(log, limit, window, c.key, c.now);
      var log' := Logged(log, limit, window, c.key, c.now);
      var tail := LogAnswers(log', limit, window, calls[n + 1..]);
      var answers := done + [ok] + tail;
      LogAnswersStep(log, calls, n, limit, window);
      assert done + ([ok] + tail) == answers;
      LogStep(log, calls, done, n, limit, window);
      LogMeans(log', calls, done + [ok], n + 1, limit, window);
      assert answers[..n] == done && answers[n] == ok;
      PrefixFits(calls, done, answers, ok, limit, window);
    }
  }

  lemma {:induction false} PrefixFits(
    calls: seq<Call>, done: seq<bool>, answers: seq<bool>, ok: bool, limit: nat, window: int)
    requires |done| < |calls| == |answers| && answers[..|done|] == done && answers[|done|] == ok
    requires var c := calls[|done|]; ok <==> AllowedSince(calls, done, |done|, c.key, c.now - window) < limit
    ensures AnswerFits(calls, answers, |done|, limit, window)
  {
    var c := calls[|done|];
    assert done[..|done|] == done;
    SinceDependsOnPrefix(calls, done, answers, |done|, c.key, c.now - window);
  }

  lemma {:induction false} LogAnswersStep(log: seq<Hit>, calls: seq<Call>, n: nat, limit: nat, window: int)
    requires n < |calls|
    ensures var c := calls[n];
            LogAnswers(log, limit, window, calls[n..])
            == [AllowedByLog(log, limit, window, c.key, c.now)]
               + LogAnswers(Logged(log, limit, window, c.key, c.now), limit, window, calls[n + 1..])
  {
    assert calls[n..][0] == calls[n] && calls[n..][1..] == calls[n + 1..];
  }

  /**
    * From a new limiter and with a clock that never runs back: a call is allowed exactly when fewer than `limit` calls of
    * the same client were allowed in the window before it.
    */
  lemma {:induction false} AnswersMean(limit: nat, window: int, cleanup: int, start: int, calls: seq<Call>)
    requires Nondecreasing(calls, start)
    ensures var answers := Answers(Limiter(map[], cleanup), limit, window, calls);
            |answers| == |calls| && forall i :: 0 <= i < |calls| ==> AnswerFits(calls, answers, i, limit, window)
  {
    SameAnswers(Limiter(map[], cleanup), [], limit, window, start, calls);
    assert calls[0..] == calls && [] + LogAnswers([], limit, window, calls) == LogAnswers([], limit, window, calls);
    LogMeans([], calls, [], 0, limit, window);
  }

  // ---------------------------------------------------------------- clocks that come out of order

  /** Concurrent calls read the clock before they take the lock: a reading may lag behind by up to `skew`. */
  ghost predicate Skewed(calls: seq<Call>, t: int, skew: nat)
    decreases |calls|
  {
    calls != [] ==> calls[0].now >= t - skew && Skewed(calls[1..], Later(t, calls[0].now), skew)
  }

  function Later(a: int, b: int): int {
    if a < b then b else a
  }

  /** The history of what the pruning limiter allows. */
  function AllowedLog(l: Limiter, log: seq<Hit>, limit: nat, window: int, calls: seq<Call>): seq<Hit>
    decreases |calls|
  {
    if calls == [] then log
    else
      var (m, ok) := Allowed(l, limit, window, calls[0].key, calls[0].now);
      AllowedLog(m, if ok then log + [Hit(Named(calls[0].key), calls[0].now)] else log, limit, window, calls[1..])
  }

  lemma {:induction false} LateSweepAgrees(l: Limiter, log: seq<Hit>, window: int, t: int, now: int)
    requires Agrees(l, log, window, t)
    ensures Agrees(Swept(l, window, now), log, window, Later(t, now))
  {
    var m := Swept(l, window, now);
    forall k, cutoff | cutoff >= Later(t, now) - window
      ensures Recent(HitsOf(m.hits, k), cutoff) == Recent(TimesOf(log, k), cutoff) {
      RecentTwice(HitsOf(l.hits, k), now - window, cutoff);
    }
  }

  lemma {:induction false} LateCallAgrees(l: Limiter, log: seq<Hit>, limit: nat, window: int, t: int, key: string, now: int)
    requires Agrees(l, log, window, t)
    ensures var (m, ok) := Allowed(l, limit, window, key, now);
            var latest := Later(t, now);
            && Agrees(m, if ok then log + [Hit(Named(key), now)] else log, window, latest)
            && (ok ==> |Recent(TimesOf(log, Named(key)), latest - window)| < limit)
  {
    LateSweepAgrees(l, log, window, t, now);
    var m, name, latest := Swept(l, window, now), Named(key), Later(t, now);
    var (after, ok) := Allowed(l, limit, window, key, now);
    RecentTwice(HitsOf(m.hits, name), now - window, latest - window);
    forall k, cutoff | cutoff >= latest - window
      ensures Recent(HitsOf(after.hits, k), cutoff)
              == Recent(TimesOf(if ok then log + [Hit(name, now)] else log, k), cutoff) {
      assert Recent(HitsOf(m.hits, k), cutoff) == Recent(TimesOf(log, k), cutoff);
      ListAgrees(m.hits, log, limit, window, name, now, k, cutoff);
    }
  }

  /** A hit that is allowed late still leaves every window that is shorter by the skew within the limit. */
  lemma {:induction false} LateHitKeepsLimit(log: seq<Hit>, limit: nat, window: int, skew: nat, key: string, now: int, latest: int)
    requires WithinLimit(log, limit, window - skew) && latest <= now + skew
    requires |Recent(TimesOf(log, key), latest - window)| < limit
    ensures WithinLimit(log + [Hit(key, now)], limit, window - skew)
  {
    var log' := log + [Hit(key, now)];
    assert log'[..|log'| - 1] == log;
    var short := window - skew;
    forall k, end ensures InWindow(log', k, short, end) <= limit {
      assert InWindow(log, k, short, end) <= limit;
      if k == key && end - short < now <= end {
        InWindowIsRecent(log, k, short, end, latest - window);
      }
    }
  }

  lemma {:induction false} LateRunKeepsLimit(
    l: Limiter, log: seq<Hit>, limit: nat, window: int, skew: nat, t: int, calls: seq<Call>)
    requires Agrees(l, log, window, t) && WithinLimit(log, limit, window - skew) && Skewed(calls, t, skew)
    ensures WithinLimit(AllowedLog(l, log, limit, window, calls), limit, window - skew)
    decreases |calls|
  {
    if calls != [] {
      var c := calls[0];
      var (m, ok) := Allowed(l, limit, window, c.key, c.now);
      LateCallAgrees(l, log, limit, window, t, c.key, c.now);
      if ok {
        LateHitKeepsLimit(log, limit, window, skew, Named(c.key), c.now, Later(t, c.now));
      }
      LateRunKeepsLimit(
        m, if ok then log + [Hit(Named(c.key), c.now)] else log, limit, window, skew, Later(t, c.now), calls[1..]);
    }
  }

  /**
    * From a new limiter, with clock readings that lag behind by up to `skew`: no key is allowed more than `limit` times
    * in any half-open window that is shorter by `skew`.
    */
  lemma {:induction false} SkewedLimiterHolds(
    limit: nat, window: int, cleanup: int, start: int, skew: nat, calls: seq<Call>)
    requires Skewed(calls, start, skew)
    ensures WithinLimit(AllowedLog(Limiter(map[], cleanup), [], limit, window, calls), limit, window - skew)
  {
    LateRunKeepsLimit(Limiter(map[], cleanup), [], limit, window, skew, start, calls);
  }

  // ---------------------------------------------------------------- the object

  const ZERO_TIME: int := -62_135_596_800_000_000_000

  class IPRateLimiter {
    var hits: map<string, seq<int>>
    var limit: nat
    var window: int
    var cleanup: int

    ghost predicate Valid()
      reads this
    {
      limit > 0 && window > 0 && Within(hits, limit)
    }

    ghost function State(): Limiter
      reads this
    {
      Limiter(hits, cleanup)
    }

    constructor (wanted: int, span: int)
      ensures Valid() && State() == Limiter(map[], ZERO_TIME)
      ensures limit == (if wanted <= 0 then 10 else wanted)
      ensures window == (if span <= 0 then 60_000_000_000 else span)
    {
      hits := map[];
      limit := if wanted <= 0 then 10 else wanted;
      window := if span <= 0 then 60_000_000_000 else span;
      cleanup := ZERO_TIME;
    }

    /** `Allow`, with the clock as a parameter. Every list stays within the limit. */
    method Allow(key: string, now: int) returns (ok: bool)
      requires Valid()
      modifies this
      ensures Valid() && limit == old(limit) && window == old(window)
      ensures (State(), ok) == Allowed(old(State()), limit, window, key, now)
      ensures cleanup == if now > old(cleanup) then now + window else old(cleanup)
    {
      CallKeepsWithin(State(), limit, window, key, now);
      var k := if key == "" then "unknown" else key;
      if now > cleanup {
        hits := PruneHits(hits, now - window);
        cleanup := now + window;
      }
      assert State() == Swept(old(State()), window, now);
      var times := Trimmed(HitsOf(hits, k), now - window);
      if |times| >= limit {
        hits := hits[k := times];
        return false;
      }
      hits := hits[k := times + [now]];
      ok := true;
    }

    method Trimmed(times: seq<int>, cutoff: int) returns (kept: seq<int>)
      ensures kept == Recent(times, cutoff)
    {
      var a := new int[|times|](i requires 0 <= i < |times| => times[i]);
      assert a[..] == times;
      var n := Compact(a, cutoff);
      kept := a[..n];
    }

    /** `pruneLocked`: trims every list and forgets the keys left with none. */
    method PruneHits(all: map<string, seq<int>>, cutoff: int) returns (kept: map<string, seq<int>>)
      ensures kept == Pruned(all, cutoff)
    {
      kept := all;
      var left := all.Keys;
      while left != {}
        invariant left <= all.Keys && kept.Keys <= all.Keys
        invariant forall k :: k in left ==> k in kept && kept[k] == all[k]
        invariant forall k :: k in all && k !in left ==> PrunedAt(all, kept, cutoff, k)
        decreases |left|
      {
        var k :| k in left;
        var times := Trimmed(kept[k], cutoff);
        if times == [] {
          kept := kept - {k};
        } else {
          kept := kept[k := times];
        }
        left := left - {k};
      }
      assert forall k :: k in all ==> PrunedAt(all, kept, cutoff, k);
    }
  }

  ghost predicate PrunedAt(all: map<string, seq<int>>, kept: map<string, seq<int>>, cutoff: int, k: string)
    requires k in all
  {
    if Recent(all[k], cutoff) == [] then k !in kept else k in kept && kept[k] == Recent(all[k], cutoff)
  }
}
