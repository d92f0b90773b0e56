/** The fixed-window rate limiter: callers count with INCR, set the expiry when they count one, and repair a missing
    expiry, each command a round trip of its own, and any caller may die in between
    (apps/api-gateway-nest/src/infrastructure/rate-limit/redis-rate-limit.adapter.ts). */
module RateLimit {
  import opened Types

  /** One key. A key whose expiry has come is gone. */
  datatype Counter = Counter(count: nat, expires: Option<Time>)

  datatype Phase = Idle | MustExpire(count: nat) | MustAsk(count: nat) | MustRepair(count: nat)

  /** One INCR: when, and what it returned. */
  datatype Tally = Tally(at: Time, count: nat)

  /** `hits` is a history variable: every INCR, in order. */
  datatype State = State(key: Option<Counter>, now: Time, callers: map<nat, Phase>, hits: seq<Tally>)

  datatype Step =
    | Tick(to: Time)
    | Incr(c: nat)
    | Expire(c: nat)
    | Ttl(c: nat)
    | Repair(c: nat)
    /** The caller dies, or gives up. */
    | Die(c: nat)

  predicate Live(key: Option<Counter>, now: Time) {
    key.Some? && (key.value.expires.None? || now < key.value.expires.value)
  }

  function CountAt(key: Option<Counter>, now: Time): nat { if Live(key, now) then key.value.count else 0 }

  function AfterIncr(key: Option<Counter>, now: Time): Counter {
    if Live(key, now) then key.value.(count := key.value.count + 1) else Counter(1, None)
  }

  function AfterExpire(key: Option<Counter>, now: Time, window: nat): Option<Counter> {
    if Live(key, now) then Some(key.value.(expires := Some(now + window))) else key
  }

  /** Negative for a key without an expiry, or no key. */
  function TtlAt(key: Option<Counter>, now: Time): int {
    if !Live(key, now) then -2
    else match key.value.expires
      case None => -1
      case Some(e) => e - now
  }

  predicate Enabled(s: State, step: Step) {
    match step
    case Tick(to) => s.now <= to
    case Incr(c) => c in s.callers && s.callers[c].Idle?
    case Expire(c) => c in s.callers && s.callers[c].MustExpire?
    case Ttl(c) => c in s.callers && s.callers[c].MustAsk?
    case Repair(c) => c in s.callers && s.callers[c].MustRepair?
    case Die(c) => c in s.callers
  }

  function Next(s: State, step: Step, window: nat): State
    requires Enabled(s, step)
  {
    match step
    case Tick(to) => s.(now := to)
    case Incr(c) =>
      var key := AfterIncr(s.key, s.now);
      s.(key := Some(key), hits := s.hits + [Tally(s.now, key.count)],
         callers := s.callers[c := if key.count == 1 then MustExpire(1) else MustAsk(key.count)])
    case Expire(c) =>
      s.(key := AfterExpire(s.key, s.now, window), callers := s.callers[c := MustAsk(s.callers[c].count)])
    case Ttl(c) =>
      s.(callers := s.callers[c := if TtlAt(s.key, s.now) < 0 then MustRepair(s.callers[c].count) else Idle])
    case Repair(c) => s.(key := AfterExpire(s.key, s.now, window), callers := s.callers[c := Idle])
    case Die(c) => s.(callers := s.callers[c := Idle])
  }

  // The lives of the key

  /** When the key that the last hit counted on came into being. */
  function Start(hits: seq<Tally>): Time {
    if hits == [] then 0
    else if hits[|hits| - 1].count <= 1 then hits[|hits| - 1].at
    else Start(hits[..|hits| - 1])
  }

  /** A hit counts one more than the one before it, or starts a new life: after the last hit of the old one, and a full
      window after that one started. */
  predicate Follows(hits: seq<Tally>, window: nat)
    requires hits != []
  {
    var (front, last) := (hits[..|hits| - 1], hits[|hits| - 1]);
    if front == [] then last.count == 1
    else
      var prev := front[|front| - 1];
      || (last.count == prev.count + 1 && prev.at <= last.at)
      || (last.count == 1 && prev.at < last.at && Start(front) + window <= last.at)
  }

  predicate LogInv(hits: seq<Tally>, window: nat) {
    hits == [] || (LogInv(hits[..|hits| - 1], window) && Follows(hits, window))
  }

  predicate Inv(s: State, window: nat) {
    && window > 0 && LogInv(s.hits, window)
    && (s.hits == [] <==> s.key.None?)
    && (s.hits != [] ==>
          && s.hits[|s.hits| - 1].at <= s.now && s.key.value.count == s.hits[|s.hits| - 1].count >= 1
          && Start(s.hits) <= s.now
          && (s.key.value.expires.Some? ==>
                Start(s.hits) + window <= s.key.value.expires.value && s.hits[|s.hits| - 1].at < s.key.value.expires.value))
  }

  lemma LogGrows(hits: seq<Tally>, hit: Tally, window: nat)
    requires LogInv(hits, window) && Follows(hits + [hit], window)
    ensures LogInv(hits + [hit], window)
  {
    assert (hits + [hit])[..|hits|] == hits;
  }

  lemma IncrKeepsInv(s: State, c: nat, window: nat)
    requires Inv(s, window) && Enabled(s, Incr(c))
    ensures Inv(Next(s, Incr(c), window), window)
  {
    var hit := Tally(s.now, AfterIncr(s.key, s.now).count);
    assert (s.hits + [hit])[..|s.hits|] == s.hits;
    LogGrows(s.hits, hit, window);
  }

  lemma NextKeepsInv(s: State, step: Step, window: nat)
    requires Inv(s, window) && Enabled(s, step)
    ensures Inv(Next(s, step, window), window)
  {
    hide LogInv, Start, Follows;
    if step.Incr? { IncrKeepsInv(s, step.c, window); }
  }

  // Runs

  predicate Executable(s: State, steps: seq<Step>, window: nat)
    decreases |steps|
  {
    steps == [] || (Enabled(s, steps[0]) && Executable(Next(s, steps[0], window), steps[1..], window))
  }

  function After(s: State, steps: seq<Step>, window: nat): State
    requires Executable(s, steps, window)
    decreases |steps|
  {
    if steps == [] then s else After(Next(s, steps[0], window), steps[1..], window)
  }

  function Initial(callers: set<nat>): State { State(None, 0, map c | c in callers :: Idle, []) }

  lemma {:induction false} RunKeepsInv(s: State, steps: seq<Step>, window: nat)
    requires Inv(s, window) && Executable(s, steps, window)
    ensures Inv(After(s, steps, window), window)
    decreases |steps|
  {
    hide Inv, Enabled, Next;
    if steps != [] {
      NextKeepsInv(s, steps[0], window);
      RunKeepsInv(Next(s, steps[0], window), steps[1..], window);
    }
  }

  lemma {:induction false} RunsConcatenate(s: State, a: seq<Step>, b: seq<Step>, window: nat)
    requires Executable(s, a, window) && Executable(After(s, a, window), b, window)
    ensures Executable(s, a + b, window) && After(s, a + b, window) == After(After(s, a, window), b, window)
    decreases |a|
  {
    hide Enabled, Next;
    if a == [] {
      assert a + b == b;
    } else {
      RunsConcatenate(Next(s, a[0], window), a[1..], b, window);
      assert (a + b)[1..] == a[1..] + b;
    }
  }

  lemma OneMore(s: State, steps: seq<Step>, step: Step, window: nat)
    requires Executable(s, steps, window) && Enabled(After(s, steps, window), step)
    ensures Executable(s, steps + [step], window)
    ensures After(s, steps + [step], window) == Next(After(s, steps, window), step, window)
  {
    hide Enabled, Next;
    assert [step][1..] == [];
    RunsConcatenate(s, steps, [step], window);
  }

  // The bound

  /** The hits let through at or after `from` and before `to`. */
  function Admitted(hits: seq<Tally>, from: int, to: int, limit: nat): nat {
    if hits == [] then 0
    else
      var last := hits[|hits| - 1];
      Admitted(hits[..|hits| - 1], from, to, limit) + (if from <= last.at < to && last.count <= limit then 1 else 0)
  }

  /** The lives of the key that have a hit at or after `from`. */
  function Lives(hits: seq<Tally>, from: int): nat {
    if hits == [] || hits[|hits| - 1].at < from then 0
    else
      var front := hits[..|hits| - 1];
      if hits[|hits| - 1].count == 1 || front == [] || front[|front| - 1].at < from then Lives(front, from) + 1
      else Lives(front, from)
  }

  /** What the first hit at or after `from` counted: one, if its life began there. */
  function Head(hits: seq<Tally>, from: int): nat {
    if hits == [] || hits[|hits| - 1].at < from then 0
    else
      var front := hits[..|hits| - 1];
      if front == [] || front[|front| - 1].at < from then hits[|hits| - 1].count else Head(front, from)
  }

  /** What is over before `from` counts for nothing. */
  lemma {:induction false} NothingBefore(hits: seq<Tally>, from: int, to: int, limit: nat, window: nat)
    requires LogInv(hits, window) && hits != [] && hits[|hits| - 1].at < from
    ensures Admitted(hits, from, to, limit) == 0 && Lives(hits, from) == 0
  {
    var front := hits[..|hits| - 1];
    if front != [] { NothingBefore(front, from, to, limit, window); }
  }

  /** Each life admits `limit` hits at most, the last one no more than it has counted, and the first one not what it
      had counted before. */
  lemma {:induction false} LivesBoundHits(hits: seq<Tally>, from: int, to: int, limit: nat, window: nat)
    requires LogInv(hits, window) && hits != [] && from <= hits[|hits| - 1].at
    ensures Lives(hits, from) >= 1 && Head(hits, from) >= 1
    ensures Admitted(hits, from, to, limit)
         <= (Lives(hits, from) - 1) * limit + Min(hits[|hits| - 1].count, limit) - Min(Head(hits, from) - 1, limit)
  {
    var (front, last) := (hits[..|hits| - 1], hits[|hits| - 1]);
    if front == [] {
    } else if front[|front| - 1].at < from {
      NothingBefore(front, from, to, limit, window);
      CountsArePositive(hits, window);
    } else {
      LivesBoundHits(front, from, to, limit, window);
      if last.count == 1 { MoreLives(Lives(front, from), limit); }
    }
  }

  lemma {:induction false} CountsArePositive(hits: seq<Tally>, window: nat)
    requires LogInv(hits, window) && hits != []
    ensures hits[|hits| - 1].count >= 1
  {
  }

  lemma MoreLives(lives: nat, limit: nat)
    ensures lives * limit == (lives - 1) * limit + limit
  {
  }

  /** Lives start a window apart, so each after the first that starts in the span takes a window of the time. */
  lemma {:induction false} LivesTakeTime(hits: seq<Tally>, from: int, window: nat)
    requires LogInv(hits, window) && hits != [] && from <= hits[|hits| - 1].at
    ensures Lives(hits, from) >= 1 && Start(hits) <= hits[|hits| - 1].at
    ensures Lives(hits, from) >= 2 ==> from + 1 + (Lives(hits, from) - 2) * window <= Start(hits)
    ensures Head(hits, from) == 1 ==> from + (Lives(hits, from) - 1) * window <= Start(hits)
  {
    var (front, last) := (hits[..|hits| - 1], hits[|hits| - 1]);
    StartIsPast(hits, window);
    if front != [] && from <= front[|front| - 1].at {
      LivesTakeTime(front, from, window);
      if last.count == 1 {
        CountsArePositive(front, window);
        OneMoreWindow(Lives(front, from), window);
        OneMoreWindow(Lives(front, from) + 1, window);
      }
    } else if front != [] {
      NothingBefore(front, from, from, 0, window);
    }
  }

  lemma OneMoreWindow(lives: nat, window: nat)
    ensures (lives - 1) * window == (lives - 2) * window + window
  {
  }

  lemma {:induction false} StartIsPast(hits: seq<Tally>, window: nat)
    requires LogInv(hits, window) && hits != []
    ensures Start(hits) <= hits[|hits| - 1].at
  {
    if |hits| > 1 { StartIsPast(hits[..|hits| - 1], window); }
  }

  lemma WindowsCancel(lives: int, k: int, window: nat)
    requires window > 0 && lives * window < k * window
    ensures lives < k
  {
    if lives >= k { MulGrows(k, lives, window); }
  }

  lemma MulGrows(a: int, b: int, w: nat)
    requires a <= b
    ensures a * w <= b * w
  {
  }

  /** The most hits a span of k windows can admit: one full quota a window, and, when a window has more than one moment,
      what a life that was already running had left after its first hit. */
  function Quota(k: nat, limit: nat, window: nat): nat {
    if k == 0 || limit == 0 then 0
    else if window == 1 then k * limit
    else (k + 1) * limit - 1
  }

  lemma {:induction false} EmptySpan(hits: seq<Tally>, from: int, limit: nat)
    ensures Admitted(hits, from, from, limit) == 0
  {
    if hits != [] { EmptySpan(hits[..|hits| - 1], from, limit); }
  }

  /** A span of k windows admits no more than that. */
  lemma {:induction false} SpanBound(hits: seq<Tally>, from: int, k: nat, limit: nat, window: nat)
    requires LogInv(hits, window) && window > 0
    ensures Admitted(hits, from, from + k * window, limit) <= Quota(k, limit, window)
  {
    hide Admitted, Lives, Start, LogInv, Head;
    var to := from + k * window;
    if k == 0 {
      EmptySpan(hits, from, limit);
    } else if hits == [] {
      NoHits(from, to, limit);
    } else if hits[|hits| - 1].at >= to {
      LateHit(hits, from, to, limit, window);
      SpanBound(hits[..|hits| - 1], from, k, limit, window);
    } else if hits[|hits| - 1].at < from {
      NothingBefore(hits, from, to, limit, window);
    } else {
      LivesBoundHits(hits, from, to, limit, window);
      LivesTakeTime(hits, from, window);
      FewLives(Lives(hits, from), Head(hits, from), Start(hits), from, k, window);
      FitQuota(Lives(hits, from), Head(hits, from), k, limit, window);
    }
  }

  lemma FewLives(lives: nat, head: nat, start: int, from: int, k: nat, window: nat)
    requires window > 0 && k >= 1 && lives >= 1 && head >= 1 && start < from + k * window
    requires lives >= 2 ==> from + 1 + (lives - 2) * window <= start
    requires head == 1 ==> from + (lives - 1) * window <= start
    ensures lives <= k + 1 && (head == 1 || window == 1 ==> lives <= k)
  {
    if head == 1 { WindowsCancel(lives - 1, k, window); }
    if lives >= 2 { WindowsCancel(lives - 2, k, window); }
  }

  lemma FitQuota(lives: nat, head: nat, k: nat, limit: nat, window: nat)
    requires k >= 1 && lives >= 1 && head >= 1 && lives <= k + 1 && (head == 1 || window == 1 ==> lives <= k)
    ensures (lives - 1) * limit + limit - Min(head - 1, limit) <= Quota(k, limit, window)
  {
    MoreLives(lives, limit);
    if lives <= k { MulGrows(lives, k, limit); } else { MulGrows(lives, k + 1, limit); }
  }

  lemma NoHits(from: int, to: int, limit: nat)
    ensures Admitted([], from, to, limit) == 0
  {
  }

  lemma LateHit(hits: seq<Tally>, from: int, to: int, limit: nat, window: nat)
    requires LogInv(hits, window) && hits != [] && hits[|hits| - 1].at >= to
    ensures Admitted(hits, from, to, limit) == Admitted(hits[..|hits| - 1], from, to, limit) && LogInv(hits[..|hits| - 1], window)
  {
  }

  /** While Redis answers: however the commands of concurrent callers interleave, and whoever dies between them, any
      half-open span no longer than k windows admits at most Quota(k) hits on a key, fewer than (k + 1) * limit. */
  lemma WindowsBoundHits(callers: set<nat>, steps: seq<Step>, window: nat, limit: nat, from: int, to: int, k: nat)
    requires window > 0 && Executable(Initial(callers), steps, window) && to - from <= k * window
    ensures Admitted(After(Initial(callers), steps, window).hits, from, to, limit) <= Quota(k, limit, window) <= (k + 1) * limit
  {
    hide Admitted;
    var s := After(Initial(callers), steps, window);
    RunKeepsInv(Initial(callers), steps, window);
    SpanBound(s.hits, from, k, limit, window);
    ShorterSpan(s.hits, from, to, from + k * window, limit);
    MulGrows(0, k, limit);
  }

  lemma {:induction false} ShorterSpan(hits: seq<Tally>, from: int, to: int, to': int, limit: nat)
    requires to <= to'
    ensures Admitted(hits, from, to, limit) <= Admitted(hits, from, to', limit)
  {
    if hits != [] { ShorterSpan(hits[..|hits| - 1], from, to, to', limit); }
  }

  // The bound is exact

  /** A run of one caller that is between two hits. */
  predicate Ran(window: nat, steps: seq<Step>, s: State) {
    Executable(Initial({0}), steps, window) && s == After(Initial({0}), steps, window) && s.callers == map[0 := Idle]
  }

  lemma Take(window: nat, steps: seq<Step>, s: State, step: Step) returns (steps': seq<Step>, s': State)
    requires Executable(Initial({0}), steps, window) && s == After(Initial({0}), steps, window) && Enabled(s, step)
    ensures Executable(Initial({0}), steps', window) && s' == After(Initial({0}), steps', window) && s' == Next(s, step, window)
  {
    hide Enabled, Next;
    steps', s' := steps + [step], Next(s, step, window);
    OneMore(Initial({0}), steps, step, window);
  }

  /** The key has counted `count` and has an expiry, or is gone (and `count` is 0). */
  predicate Counted(s: State, count: nat) {
    CountAt(s.key, s.now) == count && (Live(s.key, s.now) ==> s.key.value.expires.Some? && count > 0)
  }

  lemma OneHit(window: nat, steps: seq<Step>, s: State, count: nat) returns (steps': seq<Step>, s': State)
    requires window > 0 && Ran(window, steps, s) && Counted(s, count)
    ensures Ran(window, steps', s') && s'.now == s.now && s'.hits == s.hits + [Tally(s.now, count + 1)] && Counted(s', count + 1)
    ensures s'.key.Some? && s'.key.value.expires == if count == 0 then Some(s.now + window) else s.key.value.expires
  {
    hide Executable, After;
    steps', s' := Take(window, steps, s, Incr(0));
    if count == 0 { steps', s' := Take(window, steps', s', Expire(0)); }
    steps', s' := Take(window, steps', s', Ttl(0));
    assert s'.callers == map[0 := Idle];
  }

  /** `n` hits at once, all of them within the limit. */
  lemma {:induction false} Hits(window: nat, steps: seq<Step>, s: State, count: nat, n: nat, from: int, to: int, limit: nat)
    returns (steps': seq<Step>, s': State)
    requires window > 0 && Ran(window, steps, s) && Counted(s, count) && count + n <= limit
    ensures Ran(window, steps', s') && s'.now == s.now && Counted(s', count + n)
    ensures n == 0 ==> s' == s
    ensures n > 0 ==> s'.key.Some? && s'.key.value.expires == if count == 0 then Some(s.now + window) else s.key.value.expires
    ensures Admitted(s'.hits, from, to, limit) == Admitted(s.hits, from, to, limit) + (if from <= s.now < to then n else 0)
    decreases n
  {
    hide Ran, Counted;
    if n == 0 {
      steps', s' := steps, s;
    } else {
      steps', s' := Hits(window, steps, s, count, n - 1, from, to, limit);
      var hits := s'.hits;
      steps', s' := OneHit(window, steps', s', count + n - 1);
      assert (hits + [Tally(s.now, count + n)])[..|hits|] == hits;
    }
  }

  lemma WaitUntil(window: nat, steps: seq<Step>, s: State, to: Time) returns (steps': seq<Step>, s': State)
    requires Ran(window, steps, s) && s.now <= to
    ensures Ran(window, steps', s') && s' == s.(now := to)
  {
    hide Executable, After;
    steps', s' := Take(window, steps, s, Tick(to));
  }

  /** No key, or one that will be gone at `t`. */
  predicate GoneAt(key: Option<Counter>, t: Time) { key.Some? ==> key.value.expires.Some? && key.value.expires.value <= t }

  /** `m` lives one after another from `t` on, each with a full quota, all in the span. */
  lemma {:induction false} FullLives(window: nat, steps: seq<Step>, s: State, t: Time, m: nat, from: int, to: int, limit: nat)
    returns (steps': seq<Step>, s': State)
    requires window > 0 && limit > 0 && Ran(window, steps, s) && s.now <= t && GoneAt(s.key, t)
    requires m > 0 ==> from <= t && t + (m - 1) * window < to
    ensures Ran(window, steps', s') && Admitted(s'.hits, from, to, limit) == Admitted(s.hits, from, to, limit) + m * limit
    decreases m
  {
    hide Ran, Admitted;
    if m == 0 {
      steps', s' := steps, s;
    } else {
      OneMoreWindow(m, window);
      MulGrows(0, m - 1, window);
      steps', s' := WaitUntil(window, steps, s, t);
      steps', s' := Hits(window, steps', s', 0, limit, from, to, limit);
      steps', s' := FullLives(window, steps', s', t + window, m - 1, from, to, limit);
      MoreLives(m, limit);
    }
  }

  lemma NothingRan(window: nat)
    ensures Ran(window, [], Initial({0}))
  {
    assert Initial({0}).callers == map[0 := Idle];
  }

  /** The first life has one hit just before the span and the rest of its quota at the span's first moment. */
  lemma RunningLife(window: nat, k: nat, limit: nat) returns (steps: seq<Step>, s: State)
    requires window > 1 && limit > 0 && k > 0
    ensures Ran(window, steps, s) && s.now == window - 1 && GoneAt(s.key, window)
    ensures Admitted(s.hits, window - 1, window - 1 + k * window, limit) == limit - 1
  {
    hide Ran;
    var (from, to) := (window - 1, window - 1 + k * window);
    NothingRan(window);
    NoHits(from, to, limit);
    steps, s := Hits(window, [], Initial({0}), 0, 1, from, to, limit);
    steps, s := WaitUntil(window, steps, s, window - 1);
    MulGrows(1, k, window);
    steps, s := Hits(window, steps, s, 1, limit - 1, from, to, limit);
  }

  /** The bound is exact: for every number of windows, limit and window length, some run admits that many hits in a span
      of k windows. */
  lemma QuotaIsReached(k: nat, limit: nat, window: nat) returns (from: nat, steps: seq<Step>)
    requires window > 0
    ensures Executable(Initial({0}), steps, window)
    ensures Admitted(After(Initial({0}), steps, window).hits, from, from + k * window, limit) == Quota(k, limit, window)
  {
    hide Admitted;
    NothingRan(window);
    from, steps := 0, [];
    if k == 0 || limit == 0 {
      NoHits(0, k * window, limit);
    } else if window == 1 {
      var s;
      NoHits(0, k, limit);
      steps, s := FullLives(window, [], Initial({0}), 0, k, 0, k, limit);
    } else {
      from := window - 1;
      var s;
      steps, s := RunningLife(window, k, limit);
      OneMoreWindow(k + 1, window);
      steps, s := FullLives(window, steps, s, window, k, from, from + k * window, limit);
      MoreLives(k + 1, limit);
    }
  }

  // Nobody is locked out for good

  /** A caller that lives through its hit leaves the key an expiry, or no key. */
  lemma SurvivorSetsExpiry(s: State, step: Step, window: nat)
    requires Enabled(s, step) && (step.Ttl? || step.Repair?) && Next(s, step, window).callers[step.c].Idle?
    ensures var s' := Next(s, step, window); Live(s'.key, s'.now) ==> s'.key.value.expires.Some?
  {
  }

  /** And an expiry, once set, is only ever replaced by another, until the key is gone. */
  lemma ExpiryStays(s: State, step: Step, window: nat)
    requires Enabled(s, step) && s.key.Some? && s.key.value.expires.Some? && Live(s.key, s.now)
    ensures var s' := Next(s, step, window); s'.key.Some? && s'.key.value.expires.Some? && s.key.value.count <= s'.key.value.count
  {
  }

  // The limiter as code

  predicate OwnedBy(step: Step, c: nat) { !step.Tick? && step.c == c }

  function StepsBy(steps: seq<Step>, c: nat): seq<Step> {
    if steps == [] then []
    else StepsBy(steps[..|steps| - 1], c) + (if OwnedBy(steps[|steps| - 1], c) then [steps[|steps| - 1]] else [])
  }

  lemma StepsByOne(steps: seq<Step>, step: Step, c: nat)
    ensures StepsBy(steps + [step], c) == StepsBy(steps, c) + (if OwnedBy(step, c) then [step] else [])
  {
    assert (steps + [step])[..|steps|] == steps;
  }

  /** The commands of one hit that returned `count` and met `ttl`. */
  function HitSteps(c: nat, count: nat, ttl: int): seq<Step> {
    [Incr(c)] + (if count == 1 then [Expire(c)] else []) + [Ttl(c)] + (if ttl < 0 then [Repair(c)] else [])
  }

  datatype Verdict = Verdict(limited: bool, count: nat, limit: nat, ttlSeconds: int)

  class Redis {
    const window: nat
    var key: Option<Counter>
    var now: Time
    ghost var callers: map<nat, Phase>
    ghost var hits: seq<Tally>
    ghost var origin: State
    ghost var trace: seq<Step>

    constructor (window: nat, names: set<nat>)
      requires window > 0
      ensures Valid() && View() == Initial(names) && this.window == window && trace == []
    {
      this.window, key, now := window, None, 0;
      callers, hits := map c | c in names :: Idle, [];
      origin, trace := Initial(names), [];
    }

    ghost function View(): State
      reads this
    {
      State.State(key, now, callers, hits)
    }

    ghost predicate Valid()
      reads this
    {
      Executable(origin, trace, window) && View() == After(origin, trace, window) && Inv(View(), window)
    }

    /** The run has come past this point. */
    ghost predicate Was(steps: seq<Step>)
      reads this
    {
      Executable(origin, steps, window) && steps <= trace
    }

    ghost predicate At(c: nat, phase: Phase)
      reads this
    {
      c in callers && callers[c] == phase
    }

    /** One command of caller `c` has been executed. */
    ghost method Took(step: Step, before: State, steps: seq<Step>, c: nat)
      requires Executable(origin, steps, window) && before == After(origin, steps, window) && Inv(before, window)
      requires Enabled(before, step) && OwnedBy(step, c) && trace == steps && now == before.now
      requires key == Next(before, step, window).key
      modifies this`callers, this`hits, this`trace
      ensures Valid() && View() == Next(before, step, window)
      ensures StepsBy(trace, c) == StepsBy(steps, c) + [step] && trace == steps + [step]
    {
      hide Inv, Executable, After;
      var next := Next(before, step, window);
      callers, hits := next.callers, next.hits;
      trace := trace + [step];
      assert View() == next;
      NextKeepsInv(before, step, window);
      OneMore(origin, steps, step, window);
      StepsByOne(steps, step, c);
    }

    /** Whatever the other callers and the clock do now. */
    method Interfere(ghost c: nat, ghost phase: Phase)
      requires Valid() && At(c, phase)
      modifies this
      ensures Valid() && At(c, phase) && StepsBy(trace, c) == StepsBy(old(trace), c) && origin == old(origin)
      ensures old(hits) <= hits && old(trace) <= trace
    {
    }

    method IncrKey(ghost c: nat) returns (count: nat)
      requires Valid() && At(c, Idle)
      modifies this
      ensures Valid() && origin == old(origin) && At(c, if count == 1 then MustExpire(1) else MustAsk(count))
      ensures count == CountAt(old(key), old(now)) + 1 && hits == old(hits) + [Tally(old(now), count)]
      ensures StepsBy(trace, c) == StepsBy(old(trace), c) + [Incr(c)] && trace == old(trace) + [Incr(c)]
    {
      ghost var (before, steps) := (View(), trace);
      hide Inv, Executable, After, StepsBy;
      var counter := AfterIncr(key, now);
      key, count := Some(counter), counter.count;
      Took(Incr(c), before, steps, c);
    }

    method ExpireKey(ghost c: nat, ghost count: nat, ghost first: bool)
      requires Valid() && At(c, if first then MustExpire(count) else MustRepair(count))
      modifies this
      ensures Valid() && origin == old(origin) && hits == old(hits)
      ensures key == AfterExpire(old(key), old(now), window) && now == old(now)
      ensures At(c, if first then MustAsk(count) else Idle)
      ensures StepsBy(trace, c) == StepsBy(old(trace), c) + [if first then Expire(c) else Repair(c)] && old(trace) <= trace
    {
      ghost var (before, steps) := (View(), trace);
      hide Inv, Executable, After, StepsBy;
      if Live(key, now) { key := Some(key.value.(expires := Some(now + window))); }
      Took(if first then Expire(c) else Repair(c), before, steps, c);
    }

    method AskTtl(ghost c: nat, ghost count: nat) returns (ttl: int)
      requires Valid() && At(c, MustAsk(count))
      modifies this
      ensures Valid() && origin == old(origin) && hits == old(hits) && key == old(key) && now == old(now)
      ensures ttl == TtlAt(key, now) && At(c, if ttl < 0 then MustRepair(count) else Idle)
      ensures StepsBy(trace, c) == StepsBy(old(trace), c) + [Ttl(c)] && trace == old(trace) + [Ttl(c)]
    {
      ghost var (before, steps) := (View(), trace);
      hide Inv, Executable, After, StepsBy;
      ttl := TtlAt(key, now);
      Took(Ttl(c), before, steps, c);
    }
  }

  class RateLimitAdapter {
    const redis: Redis

    constructor (redis: Redis)
      ensures this.redis == redis
    {
      this.redis := redis;
    }

    /** hit: INCR, EXPIRE on one, TTL, EXPIRE again when there is none. Its commands, interleaved with anybody's, are
        HitSteps. The verdict is that of its own INCR, made after the first `counting` steps of the run, and the time it
        reports is what the key had left after the first `asking` steps, or a whole window if the key had no expiry. */
    method Hit(ghost c: nat, limit: nat) returns (verdict: Verdict, ghost ttl: int, ghost counting: seq<Step>, ghost asking: seq<Step>)
      requires redis.Valid() && redis.At(c, Idle)
      modifies redis
      ensures redis.Valid() && redis.At(c, Idle) && redis.origin == old(redis.origin)
      ensures StepsBy(redis.trace, c) == StepsBy(old(redis.trace), c) + HitSteps(c, verdict.count, ttl)
      ensures verdict.limited <==> verdict.count > limit
      ensures verdict.limit == limit
      ensures old(redis.trace) <= counting && redis.Was(counting) && counting + [Incr(c)] <= asking
      ensures redis.Was(asking) && asking + [Ttl(c)] <= redis.trace
      ensures var s := After(redis.origin, counting, redis.window);
              verdict.count == if Live(s.key, s.now) then s.key.value.count + 1 else 1
      ensures var s := After(redis.origin, asking, redis.window);
              verdict.ttlSeconds == if Expiring(s.key, s.now) then s.key.value.expires.value - s.now else redis.window
      ensures ttl < 0 <==> !Expiring(After(redis.origin, asking, redis.window).key, After(redis.origin, asking, redis.window).now)
    {
      hide Inv, Executable, After, StepsBy, Live, Enabled, Next, CountAt, AfterExpire, Expiring, TtlAt, Redis.Valid, Redis.At, Redis.Was;
      ghost var base := StepsBy(redis.trace, c);
      redis.Interfere(c, Idle);
      counting := redis.trace;
      ghost var s0 := redis.View();
      ViewIsAfter();
      var count := redis.IncrKey(c);
      CountIsLive(s0.key, s0.now);
      if count == 1 {
        redis.Interfere(c, MustExpire(1));
        redis.ExpireKey(c, 1, true);
      }
      ghost var started := redis.trace;
      ghost var done := StepsBy(redis.trace, c);
      assert done == base + ([Incr(c)] + (if count == 1 then [Expire(c)] else []));
      var seconds;
      seconds, ttl, asking := TimeLeft(c, count);
      assert counting + [Incr(c)] <= started <= asking;
      WasStays(counting);
      assert StepsBy(redis.trace, c) == base + HitSteps(c, count, ttl);
      verdict := Verdict(count > limit, count, limit, seconds);
    }

    /** TTL, and the repair of a missing expiry. */
    method TimeLeft(ghost c: nat, ghost count: nat) returns (seconds: int, ghost ttl: int, ghost asking: seq<Step>)
      requires redis.Valid() && redis.At(c, MustAsk(count))
      modifies redis
      ensures redis.Valid() && redis.At(c, Idle) && redis.origin == old(redis.origin)
      ensures StepsBy(redis.trace, c) == StepsBy(old(redis.trace), c) + ([Ttl(c)] + (if ttl < 0 then [Repair(c)] else []))
      ensures old(redis.trace) <= asking && redis.Was(asking) && asking + [Ttl(c)] <= redis.trace
      ensures var s := After(redis.origin, asking, redis.window);
              && seconds == (if Expiring(s.key, s.now) then s.key.value.expires.value - s.now else redis.window)
              && (ttl < 0 <==> !Expiring(s.key, s.now))
    {
      hide Inv, Executable, After, StepsBy, Live, Enabled, Next, AfterExpire, Expiring, TtlAt, Redis.Valid, Redis.At, Redis.Was;
      redis.Interfere(c, MustAsk(count));
      asking := redis.trace;
      ghost var s := redis.View();
      ViewIsAfter();
      TtlIsTimeLeft(s.key, s.now);
      seconds := redis.AskTtl(c, count);
      ttl := seconds;
      if seconds < 0 {
        redis.Interfere(c, MustRepair(count));
        redis.ExpireKey(c, count, false);
        seconds := redis.window;
      }
      WasStays(asking);
    }

    lemma ViewIsAfter()
      requires redis.Valid()
      ensures Executable(redis.origin, redis.trace, redis.window)
      ensures redis.View() == After(redis.origin, redis.trace, redis.window)
    {
    }

    lemma WasStays(steps: seq<Step>)
      requires Executable(redis.origin, steps, redis.window) && steps <= redis.trace
      ensures redis.Was(steps)
    {
    }
  }

  lemma CountIsLive(key: Option<Counter>, now: Time)
    ensures CountAt(key, now) + 1 == if Live(key, now) then key.value.count + 1 else 1
  {
  }

  /** The key has an expiry, which is still to come. */
  predicate Expiring(key: Option<Counter>, now: Time) {
    key.Some? && key.value.expires.Some? && now < key.value.expires.value
  }

  lemma TtlIsTimeLeft(key: Option<Counter>, now: Time)
    ensures Expiring(key, now) ==> TtlAt(key, now) == key.value.expires.value - now > 0
    ensures !Expiring(key, now) ==> TtlAt(key, now) < 0
  {
  }
}
