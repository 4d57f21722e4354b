/** The in-memory rate limiter (backend/src/ade_api/common/rate_limit.py). */
module RateLimiting {
  import opened Wrappers

  datatype RateLimit = RateLimit(maxRequests: int, windowSeconds: int)

  /** How many of these times lie in the closed interval. */
  function CountIn(times: seq<real>, from: real, to: real): (n: nat)
    ensures n <= |times|
  {
    if times == [] then 0
    else CountIn(times[..|times| - 1], from, to) + if from <= times[|times| - 1] <= to then 1 else 0
  }

  /** The answer of a limiter that remembers every allowed request. */
  predicate Naive(limit: RateLimit, allowed: seq<real>, now: real) {
    CountIn(allowed, now - Window(limit), now) < limit.maxRequests
  }

  predicate Ordered(times: seq<real>) {
    forall i, j :: 0 <= i < j < |times| ==> times[i] <= times[j]
  }

  predicate NoneAfter(times: seq<real>, t: real) {
    forall i :: 0 <= i < |times| ==> times[i] <= t
  }

  predicate NoneFrom(times: seq<real>, t: real) {
    forall i :: 0 <= i < |times| ==> times[i] < t
  }

  lemma {:induction false} CountOfAppend(a: seq<real>, b: seq<real>, from: real, to: real)
    ensures CountIn(a + b, from, to) == CountIn(a, from, to) + CountIn(b, from, to)
  {
    if b == [] {
      assert a + b == a;
    } else {
      assert (a + b)[..|a + b| - 1] == a + b[..|b| - 1];
      CountOfAppend(a, b[..|b| - 1], from, to);
    }
  }

  lemma {:induction false} CountNone(times: seq<real>, from: real, to: real)
    requires NoneFrom(times, from)
    ensures CountIn(times, from, to) == 0
  {
    if times != [] {
      CountNone(times[..|times| - 1], from, to);
    }
  }

  lemma {:induction false} CountAll(times: seq<real>, from: real, to: real)
    requires forall i :: 0 <= i < |times| ==> from <= times[i] <= to
    ensures CountIn(times, from, to) == |times|
  {
    if times != [] {
      CountAll(times[..|times| - 1], from, to);
    }
  }

  function Window(limit: RateLimit): real {
    limit.windowSeconds as real
  }

  // ----- The deque

  /** What is left after `popleft` while the head is before `start`. */
  function Pruned(events: seq<real>, start: real): (kept: seq<real>)
    ensures |kept| <= |events|
  {
    if events != [] && events[0] < start then Pruned(events[1..], start) else events
  }

  /** Only the front goes, and only what is before the start. */
  lemma {:induction false} PrunedSplits(events: seq<real>, start: real) returns (front: seq<real>)
    ensures events == front + Pruned(events, start) && NoneFrom(front, start)
    ensures Pruned(events, start) == [] || Pruned(events, start)[0] >= start
  {
    front := [];
    if events != [] && events[0] < start {
      var more := PrunedSplits(events[1..], start);
      front := [events[0]] + more;
    }
  }

  lemma {:induction false} PrunedAway(events: seq<real>, start: real)
    requires NoneFrom(events, start)
    ensures Pruned(events, start) == []
  {
    if events != [] {
      PrunedAway(events[1..], start);
    }
  }

  /** One key: its deque, and all that was ever allowed to it. */
  datatype Served = Served(events: seq<real>, allowed: seq<real>)

  function ServeOne(limit: RateLimit, s: Served, now: real): Served {
    var kept := Pruned(s.events, now - Window(limit));
    if |kept| < limit.maxRequests then Served(kept + [now], s.allowed + [now]) else Served(kept, s.allowed)
  }

  /** Requests at these times, in the order they get the lock. */
  function Run(limit: RateLimit, times: seq<real>): Served {
    if times == [] then Served([], [])
    else ServeOne(limit, Run(limit, times[..|times| - 1]), times[|times| - 1])
  }

  /** Whether a request that follows these is allowed. */
  predicate Admits(limit: RateLimit, times: seq<real>, now: real) {
    |Pruned(Run(limit, times).events, now - Window(limit))| < limit.maxRequests
  }

  lemma RunOneMore(limit: RateLimit, times: seq<real>, now: real)
    ensures Run(limit, times + [now]) == ServeOne(limit, Run(limit, times), now)
  {
    assert (times + [now])[..|times|] == times;
  }

  // ----- The limiter

  type Times = map<string, seq<real>>

  function Get(m: Times, key: string): seq<real> {
    if key in m then m[key] else []
  }

  /** The deque of a key is what its requests, in their order, leave. */
  ghost predicate KeyServed(limit: RateLimit, events: Times, asked: Times, key: string) {
    Get(events, key) == Run(limit, Get(asked, key)).events
  }

  ghost predicate AllServed(limit: RateLimit, events: Times, asked: Times) {
    forall key {:trigger KeyServed(limit, events, asked, key)} :: KeyServed(limit, events, asked, key)
  }

  lemma AllServedOneMore(limit: RateLimit, events: Times, asked: Times, key: string, now: real, kept: seq<real>)
    requires AllServed(limit, events, asked) && kept == ServeOne(limit, Run(limit, Get(asked, key)), now).events
    ensures AllServed(limit, events[key := kept], asked[key := Get(asked, key) + [now]])
  {
    var events', asked' := events[key := kept], asked[key := Get(asked, key) + [now]];
    RunOneMore(limit, Get(asked, key), now);
    forall k
      ensures KeyServed(limit, events', asked', k)
    {
      assert KeyServed(limit, events, asked, k);
    }
  }

  class InMemoryRateLimiter {
    const limit: RateLimit
    var events: Times
    /** All the requests ever made. */
    ghost var asked: Times

    ghost predicate Valid()
      reads this
    {
      AllServed(limit, events, asked)
    }

    constructor (limit: RateLimit)
      ensures Valid() && this.limit == limit && asked == map[]
    {
      this.limit, events, asked := limit, map[], map[];
    }

    /** `allow`, at any time: the time is read before the lock is taken, so it may be before
        that of the call before.  Other keys are as they were. */
    method Allow(key: string, now: real) returns (ok: bool)
      requires Valid()
      modifies this
      ensures Valid() && asked == old(asked)[key := Get(old(asked), key) + [now]]
      ensures ok == Admits(limit, Get(old(asked), key), now)
      ensures events - {key} == old(events) - {key}
    {
      assert KeyServed(limit, events, asked, key);
      var start := now - limit.windowSeconds as real;
      var kept := Get(events, key);
      while kept != [] && kept[0] < start
        invariant Pruned(kept, start) == Pruned(Get(events, key), start)
        decreases |kept|
      {
        kept := kept[1..];
      }
      ok := |kept| < limit.maxRequests;
      if ok {
        kept := kept + [now];
      }
      AllServedOneMore(limit, events, asked, key, now, kept);
      events, asked := events[key := kept], asked[key := Get(asked, key) + [now]];
    }
  }

  datatype Request = Request(key: string, at: real)

  function TimesOf(requests: seq<Request>, key: string): seq<real> {
    if requests == [] then []
    else
      var last := requests[|requests| - 1];
      TimesOf(requests[..|requests| - 1], key) + if last.key == key then [last.at] else []
  }

  ghost predicate KeyAsked(asked: Times, requests: seq<Request>, key: string) {
    Get(asked, key) == TimesOf(requests, key)
  }

  ghost predicate AllAsked(asked: Times, requests: seq<Request>) {
    forall key {:trigger KeyAsked(asked, requests, key)} :: KeyAsked(asked, requests, key)
  }

  predicate Expected(limit: RateLimit, requests: seq<Request>, i: nat)
    requires i < |requests|
  {
    Admits(limit, TimesOf(requests[..i], requests[i].key), requests[i].at)
  }

  lemma AllAskedOneMore(asked: Times, requests: seq<Request>, n: nat, after: Times)
    requires n < |requests| && AllAsked(asked, requests[..n])
    requires after == asked[requests[n].key := Get(asked, requests[n].key) + [requests[n].at]]
    ensures AllAsked(after, requests[..n + 1]) && KeyAsked(asked, requests[..n], requests[n].key)
  {
    var served := requests[..n + 1];
    assert served[..n] == requests[..n];
    assert KeyAsked(asked, requests[..n], requests[n].key);
    forall key
      ensures KeyAsked(after, served, key)
    {
      assert KeyAsked(asked, requests[..n], key);
    }
  }

  /** Requests of any keys, at any times: each is answered by the requests of its own key. */
  method Serve(limiter: InMemoryRateLimiter, requests: seq<Request>) returns (answers: seq<bool>)
    requires limiter.Valid() && limiter.asked == map[]
    modifies limiter
    ensures |answers| == |requests| && limiter.Valid() && AllAsked(limiter.asked, requests)
    ensures forall i :: 0 <= i < |requests| ==> answers[i] == Expected(limiter.limit, requests, i)
  {
    answers := [];
    for n := 0 to |requests|
      invariant limiter.Valid() && |answers| == n && AllAsked(limiter.asked, requests[..n])
      invariant forall i :: 0 <= i < n ==> answers[i] == Expected(limiter.limit, requests, i)
    {
      ghost var before := limiter.asked;
      var ok := limiter.Allow(requests[n].key, requests[n].at);
      AllAskedOneMore(before, requests, n, limiter.asked);
      answers := answers + [ok];
    }
    assert requests[..|requests|] == requests;
  }

  // ----- What a run drops

  /** The deque is the end of what was allowed, and what was dropped before it is out of every
      window that ends at the highest time so far. */
  ghost predicate Splits(s: Served, gone: seq<real>, bound: real) {
    s.allowed == gone + s.events && NoneFrom(gone, bound)
  }

  lemma PruneKeepsSplit(s: Served, gone: seq<real>, start: real, bound: real, kept: seq<real>) returns (more: seq<real>)
    requires Splits(s, gone, bound) && start <= bound && kept == Pruned(s.events, start)
    ensures Splits(Served(kept, s.allowed), more, bound)
  {
    var front := PrunedSplits(s.events, start);
    more := gone + front;
  }

  lemma AdmitKeepsSplit(events: seq<real>, allowed: seq<real>, gone: seq<real>, now: real, bound: real)
    requires Splits(Served(events, allowed), gone, bound)
    ensures Splits(Served(events + [now], allowed + [now]), gone, bound)
  {
  }

  lemma ServeSplits(limit: RateLimit, s: Served, gone: seq<real>, now: real, bound: real) returns (more: seq<real>)
    requires Splits(s, gone, bound) && now - Window(limit) <= bound
    ensures Splits(ServeOne(limit, s, now), more, bound)
  {
    var kept := Pruned(s.events, now - Window(limit));
    more := PruneKeepsSplit(s, gone, now - Window(limit), bound, kept);
    AdmitKeepsSplit(kept, s.allowed, more, now, bound);
  }

  lemma RunLast(limit: RateLimit, times: seq<real>, s: Served)
    requires times != [] && s == Run(limit, times)
    ensures s == ServeOne(limit, Run(limit, times[..|times| - 1]), times[|times| - 1])
  {
  }

  lemma {:induction false} RunSplits(limit: RateLimit, times: seq<real>, s: Served, high: real) returns (gone: seq<real>)
    requires NoneAfter(times, high) && s == Run(limit, times)
    ensures Splits(s, gone, high - Window(limit)) && NoneAfter(s.allowed, high)
    decreases |times|
  {
    gone := [];
    if times != [] {
      var earlier, now := times[..|times| - 1], times[|times| - 1];
      var before := Run(limit, earlier);
      gone := RunSplits(limit, earlier, before, high);
      RunLast(limit, times, s);
      gone := ServeSplits(limit, before, gone, now, high - Window(limit));
    }
  }

  /** No more requests than the limit are all allowed. */
  lemma {:induction false} FirstOnesPass(limit: RateLimit, times: seq<real>)
    requires |times| <= limit.maxRequests
    ensures Run(limit, times).allowed == times && |Run(limit, times).events| <= |times|
  {
    if times != [] {
      var earlier, now := times[..|times| - 1], times[|times| - 1];
      FirstOnesPass(limit, earlier);
      RunOneMore(limit, earlier, now);
      assert times == earlier + [now];
    }
  }

  // ----- How many requests a window can hold

  /** No time is more than `slack` below an earlier one. */
  ghost predicate Drifts(times: seq<real>, slack: real) {
    forall i, j :: 0 <= i < j < |times| ==> times[i] <= times[j] + slack
  }

  predicate WindowHolds(limit: RateLimit, times: seq<real>, a: real, length: real) {
    CountIn(Run(limit, times).allowed, a, a + length) <= Max(0, limit.maxRequests)
  }

  /** Of a window after what was dropped only the deque counts. */
  lemma OnlyDequeCounts(s: Served, gone: seq<real>, bound: real, from: real, to: real)
    requires Splits(s, gone, bound) && bound <= from
    ensures CountIn(s.allowed, from, to) == CountIn(s.events, from, to)
  {
    CountOfAppend(gone, s.events, from, to);
    CountNone(gone, from, to);
  }

  /** An admission within the window finds everything of the window in the deque. */
  lemma AdmissionFits(limit: RateLimit, s: Served, gone: seq<real>, now: real, slack: real, a: real, length: real, kept: seq<real>)
    requires kept == Pruned(s.events, now - Window(limit)) && |kept| < limit.maxRequests
    requires 0.0 <= slack && length + slack <= Window(limit) && Splits(s, gone, now + slack - Window(limit)) && a <= now <= a + length
    ensures CountIn(s.allowed, a, a + length) < limit.maxRequests
  {
    var bound := now + slack - Window(limit);
    var more := PruneKeepsSplit(s, gone, now - Window(limit), bound, kept);
    OnlyDequeCounts(Served(kept, s.allowed), more, bound, a, a + length);
  }

  lemma CountOneMore(times: seq<real>, now: real, from: real, to: real)
    ensures CountIn(times + [now], from, to) == CountIn(times, from, to) + if from <= now <= to then 1 else 0
  {
    assert (times + [now])[..|times|] == times;
  }

  lemma {:induction false} DriftingWindow(limit: RateLimit, times: seq<real>, s: Served, slack: real, a: real, length: real)
    requires Drifts(times, slack) && 0.0 <= slack && length + slack <= Window(limit) && s == Run(limit, times)
    ensures CountIn(s.allowed, a, a + length) <= Max(0, limit.maxRequests)
    decreases |times|
  {
    if times != [] {
      var earlier, now := times[..|times| - 1], times[|times| - 1];
      var before := Run(limit, earlier);
      DriftingWindow(limit, earlier, before, slack, a, length);
      RunLast(limit, times, s);
      var gone := RunSplits(limit, earlier, before, now + slack);
      WindowStep(limit, before, gone, now, slack, a, length);
    }
  }

  lemma WindowStep(limit: RateLimit, s: Served, gone: seq<real>, now: real, slack: real, a: real, length: real)
    requires 0.0 <= slack && length + slack <= Window(limit) && Splits(s, gone, now + slack - Window(limit))
    requires CountIn(s.allowed, a, a + length) <= Max(0, limit.maxRequests)
    ensures CountIn(ServeOne(limit, s, now).allowed, a, a + length) <= Max(0, limit.maxRequests)
  {
    var kept := Pruned(s.events, now - Window(limit));
    if |kept| < limit.maxRequests {
      CountOneMore(s.allowed, now, a, a + length);
      if a <= now <= a + length {
        AdmissionFits(limit, s, gone, now, slack, a, length, kept);
      }
    }
  }

  /** With a limit of one the deque is the last admission, and the next is later by more than
      the window, whatever times come in between. */
  ghost predicate LastOnly(s: Served) {
    if s.allowed == [] then s.events == []
    else s.events == [s.allowed[|s.allowed| - 1]] && NoneAfter(s.allowed, s.allowed[|s.allowed| - 1])
  }

  lemma SingleKept(limit: RateLimit, s: Served, now: real, kept: seq<real>)
    requires limit.maxRequests == 1 && 0.0 <= Window(limit) && LastOnly(s) && kept == Pruned(s.events, now - Window(limit))
    ensures kept == [] ==> NoneFrom(s.allowed, now - Window(limit))
    ensures kept != [] ==> kept == s.events
  {
  }

  lemma SingleStays(limit: RateLimit, s: Served, now: real, kept: seq<real>)
    requires limit.maxRequests == 1 && 0.0 <= Window(limit) && LastOnly(s) && kept == Pruned(s.events, now - Window(limit))
    ensures LastOnly(if kept == [] then Served(kept + [now], s.allowed + [now]) else Served(kept, s.allowed))
  {
    SingleKept(limit, s, now, kept);
  }

  lemma SingleCount(limit: RateLimit, s: Served, now: real, a: real, length: real, kept: seq<real>)
    requires limit.maxRequests == 1 && 0.0 <= length <= Window(limit) && LastOnly(s) && kept == Pruned(s.events, now - Window(limit))
    requires kept == []
    ensures CountIn(s.allowed + [now], a, a + length) <= Max(1, CountIn(s.allowed, a, a + length))
  {
    SingleKept(limit, s, now, kept);
    CountOneMore(s.allowed, now, a, a + length);
    if a <= now <= a + length {
      CountNone(s.allowed, a, a + length);
    }
  }

  lemma SingleStep(limit: RateLimit, s: Served, now: real, a: real, length: real)
    requires limit.maxRequests == 1 && 0.0 <= length <= Window(limit) && LastOnly(s)
    requires CountIn(s.allowed, a, a + length) <= 1
    ensures LastOnly(ServeOne(limit, s, now)) && CountIn(ServeOne(limit, s, now).allowed, a, a + length) <= 1
  {
    var kept := Pruned(s.events, now - Window(limit));
    SingleStays(limit, s, now, kept);
    if kept == [] {
      SingleCount(limit, s, now, a, length, kept);
    }
  }

  lemma {:induction false} SingleWindow(limit: RateLimit, times: seq<real>, s: Served, a: real, length: real)
    requires limit.maxRequests == 1 && 0.0 <= length <= Window(limit) && s == Run(limit, times)
    ensures LastOnly(s) && CountIn(s.allowed, a, a + length) <= 1
    decreases |times|
  {
    if times != [] {
      var earlier := times[..|times| - 1];
      SingleWindow(limit, earlier, Run(limit, earlier), a, length);
      RunLast(limit, times, s);
      SingleStep(limit, Run(limit, earlier), times[|times| - 1], a, length);
    }
  }

  lemma {:induction false} NoneAllowed(limit: RateLimit, times: seq<real>)
    requires limit.maxRequests <= 0
    ensures Run(limit, times).allowed == []
  {
    if times != [] {
      NoneAllowed(limit, times[..|times| - 1]);
    }
  }

  function Copies(n: nat, t: real): (times: seq<real>)
    ensures |times| == n && forall i :: 0 <= i < n ==> times[i] == t
  {
    seq(n, _ => t)
  }

  /** A full window at 0, then one request late enough to drop it, then one that goes back. */
  function TooMany(limit: RateLimit, slack: real, length: real): seq<real>
    requires 0 <= limit.maxRequests
  {
    Copies(limit.maxRequests, 0.0) + [length + slack] + [length]
  }

  lemma EndBelow(gone: seq<real>, events: seq<real>, high: real)
    requires NoneAfter(gone + events, high)
    ensures NoneAfter(events, high)
  {
    assert forall i :: 0 <= i < |events| ==> events[i] == (gone + events)[|gone| + i];
  }

  lemma LatePrunesAll(limit: RateLimit, first: seq<real>, s: Served, late: real)
    requires |first| <= limit.maxRequests && 0 < limit.maxRequests && NoneAfter(first, 0.0) && Window(limit) < late
    requires s == Run(limit, first)
    ensures ServeOne(limit, s, late) == Served([late], first + [late])
  {
    FirstOnesPass(limit, first);
    var gone := RunSplits(limit, first, s, 0.0);
    EndBelow(gone, s.events, 0.0);
    PrunedAway(s.events, late - Window(limit));
  }

  lemma TooManyPass(limit: RateLimit, first: seq<real>, late: real, now: real)
    requires 2 <= limit.maxRequests && |first| <= limit.maxRequests && NoneAfter(first, 0.0) && Window(limit) < late
    ensures Run(limit, first + [late] + [now]).allowed == first + [late] + [now]
  {
    LatePrunesAll(limit, first, Run(limit, first), late);
    RunOneMore(limit, first, late);
    RunOneMore(limit, first + [late], now);
  }

  lemma TooManyCount(first: seq<real>, late: real, now: real)
    requires 0.0 <= now && forall i :: 0 <= i < |first| ==> first[i] == 0.0
    ensures CountIn(first + [late] + [now], 0.0, 0.0 + now) > |first|
  {
    CountAll(first, 0.0, 0.0 + now);
    CountOneMore(first, late, 0.0, 0.0 + now);
    CountOneMore(first + [late], now, 0.0, 0.0 + now);
  }

  lemma TooManyDrift(first: seq<real>, slack: real, length: real)
    requires 0.0 <= slack && 0.0 <= length && forall i :: 0 <= i < |first| ==> first[i] == 0.0
    ensures Drifts(first + [length + slack] + [length], slack)
  {
  }

  lemma TooManyInWindow(limit: RateLimit, slack: real, length: real, first: seq<real>, times: seq<real>)
    requires 2 <= limit.maxRequests && 0.0 <= slack && 0.0 <= length && Window(limit) < length + slack
    requires first == Copies(limit.maxRequests, 0.0) && times == first + [length + slack] + [length]
    ensures !WindowHolds(limit, times, 0.0, length)
  {
    TooManyPass(limit, first, length + slack, length);
    TooManyCount(first, length + slack, length);
  }

  lemma TwoInWindow(limit: RateLimit, slack: real, length: real)
    requires limit.maxRequests == 1 && 0.0 <= slack && 0.0 <= length && Window(limit) < length
    ensures Drifts([0.0, length], slack) && !WindowHolds(limit, [0.0, length], 0.0, length)
  {
    RunOneMore(limit, [], 0.0);
    RunOneMore(limit, [0.0], length);
    assert [] + [0.0] == [0.0] && [0.0] + [length] == [0.0, length];
    PrunedAway([0.0], length - Window(limit));
    CountOneMore([], 0.0, 0.0, 0.0 + length);
    CountOneMore([0.0], length, 0.0, 0.0 + length);
  }

  /** Over all requests whose times go back by at most `slack`: every closed window of some
      length holds at most the limit exactly when the slack and the length fit in the
      configured window.  A limit of one does not depend on the slack. */
  predicate Fits(limit: RateLimit, slack: real, length: real) {
    limit.maxRequests <= 0 || (if limit.maxRequests == 1 then length else length + slack) <= Window(limit)
  }

  lemma WindowsHoldIff(limit: RateLimit, slack: real, length: real)
    requires 0.0 <= slack && 0.0 <= length
    ensures (forall times, a :: Drifts(times, slack) ==> WindowHolds(limit, times, a, length)) <==> Fits(limit, slack, length)
  {
    if Fits(limit, slack, length) {
      forall times: seq<real>, a: real | Drifts(times, slack)
        ensures WindowHolds(limit, times, a, length)
      {
        if limit.maxRequests <= 0 {
          NoneAllowed(limit, times);
        } else if limit.maxRequests == 1 {
          SingleWindow(limit, times, Run(limit, times), a, length);
        } else {
          DriftingWindow(limit, times, Run(limit, times), slack, a, length);
        }
      }
    } else if limit.maxRequests == 1 {
      TwoInWindow(limit, slack, length);
    } else {
      TooManyDrift(Copies(limit.maxRequests, 0.0), slack, length);
      TooManyInWindow(limit, slack, length, Copies(limit.maxRequests, 0.0), TooMany(limit, slack, length));
    }
  }

  lemma {:induction false} EmptyInterval(times: seq<real>, from: real, to: real)
    requires to < from
    ensures CountIn(times, from, to) == 0
  {
    if times != [] {
      EmptyInterval(times[..|times| - 1], from, to);
    }
  }

  /** With times in order every window of the configured length is safe. */
  lemma WindowsHoldAtMost(limit: RateLimit, times: seq<real>, a: real)
    requires Ordered(times)
    ensures WindowHolds(limit, times, a, Window(limit))
  {
    if Window(limit) < 0.0 {
      EmptyInterval(Run(limit, times).allowed, a, a + Window(limit));
    } else {
      WindowsHoldIff(limit, 0.0, Window(limit));
      assert Drifts(times, 0.0);
    }
  }

  /** A run of the limiter in which a window of ten seconds holds three requests of two. */
  lemma TimesMustNotGoBack()
    ensures var limit, times := RateLimit(2, 10), [0.0, 0.0, 15.0, 5.0];
            Run(limit, times).allowed == times && CountIn(times, -5.0, 5.0) == 3
  {
    var limit := RateLimit(2, 10);
    var first := Copies(2, 0.0);
    assert first + [15.0] + [5.0] == [0.0, 0.0, 15.0, 5.0];
    TooManyPass(limit, first, 15.0, 5.0);
    CountAll(first, -5.0, 5.0);
    CountOneMore(first, 15.0, -5.0, 5.0);
    CountOneMore(first + [15.0], 5.0, -5.0, 5.0);
  }

  // ----- Against a limiter that remembers everything

  predicate AnswersNaively(limit: RateLimit, times: seq<real>, now: real) {
    Admits(limit, times, now) <==> Naive(limit, Run(limit, times).allowed, now)
  }

  lemma {:induction false} AllowedInOrder(limit: RateLimit, times: seq<real>, s: Served)
    requires Ordered(times) && s == Run(limit, times)
    ensures Ordered(s.allowed)
    decreases |times|
  {
    if times != [] {
      var earlier, now := times[..|times| - 1], times[|times| - 1];
      var before := Run(limit, earlier);
      AllowedInOrder(limit, earlier, before);
      var gone := RunSplits(limit, earlier, before, now);
      RunLast(limit, times, s);
    }
  }

  lemma TailIsIn(gone: seq<real>, kept: seq<real>, start: real, now: real)
    requires Ordered(gone + kept) && NoneAfter(gone + kept, now)
    requires kept == [] || kept[0] >= start
    ensures forall i :: 0 <= i < |kept| ==> start <= kept[i] <= now
  {
    var all, n := gone + kept, |gone|;
    assert forall i :: 0 <= i < |kept| ==> kept[i] == all[n + i] && all[n] <= all[n + i] <= now;
  }

  lemma SplitIsWindow(s: Served, gone: seq<real>, start: real, now: real)
    requires Splits(s, gone, start) && Ordered(s.allowed) && NoneAfter(s.allowed, now)
    ensures |Pruned(s.events, start)| == CountIn(s.allowed, start, now)
  {
    var kept := Pruned(s.events, start);
    var front := PrunedSplits(s.events, start);
    assert s.allowed == (gone + front) + kept;
    TailIsIn(gone + front, kept, start, now);
    CountOfAppend(gone + front, kept, start, now);
    CountNone(gone + front, start, now);
    CountAll(kept, start, now);
  }

  /** In order the length of the pruned deque is the number of allowed requests in the window
      that ends now, so a request is refused exactly when that window is full. */
  lemma InOrderIsNaive(limit: RateLimit, times: seq<real>, now: real)
    requires Ordered(times) && NoneAfter(times, now)
    ensures |Pruned(Run(limit, times).events, now - Window(limit))| == CountIn(Run(limit, times).allowed, now - Window(limit), now)
    ensures AnswersNaively(limit, times, now)
  {
    var s := Run(limit, times);
    AllowedInOrder(limit, times, s);
    var gone := RunSplits(limit, times, s, now);
    SplitIsWindow(s, gone, now - Window(limit), now);
  }

  /** With a slack too small for any earlier time to count, nothing is ever kept. */
  lemma AllOutside(limit: RateLimit, times: seq<real>, now: real, slack: real)
    requires Drifts(times + [now], slack) && 0.0 <= slack && slack + Window(limit) < 0.0
    ensures AnswersNaively(limit, times, now)
  {
    var s := Run(limit, times);
    EarlierTimes(times, now, slack);
    var gone := RunSplits(limit, times, s, now + slack);
    EndBelow(gone, s.events, now + slack);
    PrunedAway(s.events, now - Window(limit));
    EmptyInterval(s.allowed, now - Window(limit), now);
  }

  lemma EarlierTimes(times: seq<real>, now: real, slack: real)
    requires Drifts(times + [now], slack)
    ensures NoneAfter(times, now + slack)
  {
    var all := times + [now];
    assert forall i :: 0 <= i < |times| ==> times[i] == all[i] && all[i] <= all[|times|] + slack;
  }

  lemma {:induction false} CopiesStay(limit: RateLimit, n: nat, t: real)
    requires n <= limit.maxRequests && 0.0 <= Window(limit)
    ensures Run(limit, Copies(n, t)) == Served(Copies(n, t), Copies(n, t))
  {
    if n > 0 {
      CopiesStay(limit, n - 1, t);
      assert Copies(n, t)[..n - 1] == Copies(n - 1, t) && Copies(n - 1, t) + [t] == Copies(n, t);
    }
  }

  lemma HeadHolds(limit: RateLimit, times: seq<real>, now: real)
    requires times != [] && |times| < limit.maxRequests && now - Window(limit) <= times[0]
    requires Run(limit, times) == Served(times, times)
    ensures Run(limit, times + [now]) == Served(times + [now], times + [now])
  {
    RunOneMore(limit, times, now);
  }

  lemma OneHolds(limit: RateLimit, t: real)
    requires 1 <= limit.maxRequests
    ensures Run(limit, [t]) == Served([t], [t])
  {
    RunOneMore(limit, [], t);
    assert [] + [t] == [t];
  }

  lemma OneMoreCopy(n: nat, t: real, late: real)
    requires 0 < n
    ensures [t] + Copies(n, late) == ([t] + Copies(n - 1, late)) + [late]
  {
  }

  lemma {:induction false} HeadStays(limit: RateLimit, n: nat, t: real, late: real)
    requires 1 + n <= limit.maxRequests && late - Window(limit) <= t
    ensures Run(limit, [t] + Copies(n, late)) == Served([t] + Copies(n, late), [t] + Copies(n, late))
  {
    if n == 0 {
      OneHolds(limit, t);
      assert [t] + Copies(0, late) == [t];
    } else {
      HeadStays(limit, n - 1, t, late);
      HeadHolds(limit, [t] + Copies(n - 1, late), late);
      OneMoreCopy(n, t, late);
    }
  }

  /** A full deque that stays refuses a request whose own window holds nothing. */
  lemma FullDequeDiffers(limit: RateLimit, times: seq<real>, now: real)
    requires 0 < limit.maxRequests == |times| && now - Window(limit) <= times[0]
    requires Run(limit, times) == Served(times, times) && CountIn(times, now - Window(limit), now) == 0
    ensures !AnswersNaively(limit, times, now)
  {
  }

  lemma CopiesDrift(n: nat, slack: real)
    requires 0.0 <= slack
    ensures Drifts(Copies(n, slack) + [0.0], slack)
  {
  }

  lemma GoingBackDiffers(limit: RateLimit, slack: real, times: seq<real>, now: real)
    requires 0 < limit.maxRequests == |times| && now < slack && 0.0 <= Window(limit)
    requires forall i :: 0 <= i < |times| ==> times[i] == slack
    requires Run(limit, times) == Served(times, times)
    ensures !AnswersNaively(limit, times, now)
  {
    CountNoneIn(times, now - Window(limit), now);
    FullDequeDiffers(limit, times, now);
  }

  lemma HeadDrifts(n: nat, slack: real, late: real)
    requires 0.0 <= late <= slack
    ensures Drifts([slack] + Copies(n, late) + [late], slack)
  {
  }

  lemma GoingFarBackDiffers(limit: RateLimit, slack: real, late: real, times: seq<real>)
    requires 0 < limit.maxRequests && Window(limit) < 0.0 <= late == slack + Window(limit)
    requires times == [slack] + Copies(limit.maxRequests - 1, late)
    ensures !AnswersNaively(limit, times, late)
  {
    HeadStays(limit, limit.maxRequests - 1, slack, late);
    EmptyInterval(times, late - Window(limit), late);
    FullDequeDiffers(limit, times, late);
  }

  /** Every answer, over all requests whose times go back by at most `slack`, is that of the
      limiter that remembers everything, exactly when no request can be allowed at all, times
      never go back, or the window is negative by more than they do. */
  lemma NaiveIffInOrder(limit: RateLimit, slack: real)
    requires 0.0 <= slack
    ensures (forall times, now :: Drifts(times + [now], slack) ==> AnswersNaively(limit, times, now))
       <==> limit.maxRequests <= 0 || slack == 0.0 || slack + Window(limit) < 0.0
  {
    if limit.maxRequests <= 0 || slack == 0.0 || slack + Window(limit) < 0.0 {
      forall times: seq<real>, now: real | Drifts(times + [now], slack)
        ensures AnswersNaively(limit, times, now)
      {
        if slack == 0.0 {
          InOrderFromDrift(times, now);
          InOrderIsNaive(limit, times, now);
        } else if slack + Window(limit) < 0.0 {
          AllOutside(limit, times, now, slack);
        }
      }
    } else if 0.0 <= Window(limit) {
      CopiesDrift(limit.maxRequests, slack);
      CopiesStay(limit, limit.maxRequests, slack);
      GoingBackDiffers(limit, slack, Copies(limit.maxRequests, slack), 0.0);
    } else {
      HeadDrifts(limit.maxRequests - 1, slack, slack + Window(limit));
      GoingFarBackDiffers(limit, slack, slack + Window(limit), [slack] + Copies(limit.maxRequests - 1, slack + Window(limit)));
    }
  }

  lemma InOrderFromDrift(times: seq<real>, now: real)
    requires Drifts(times + [now], 0.0)
    ensures Ordered(times) && NoneAfter(times, now)
  {
    var all := times + [now];
    assert forall i :: 0 <= i < |times| ==> times[i] == all[i];
    assert all[|times|] == now;
  }

  lemma {:induction false} CountNoneIn(times: seq<real>, from: real, to: real)
    requires forall i :: 0 <= i < |times| ==> to < times[i]
    ensures CountIn(times, from, to) == 0
  {
    if times != [] {
      CountNoneIn(times[..|times| - 1], from, to);
    }
  }
}
