/** Read times when readers race: MarkRead as the separate commands it sends, over the store of module Projection
    (apps/notification-service-go/internal/store/redis_store.go). */
module ReadTimes {
  import opened Types
  import opened Projection

  /** The store, and the MarkRead calls that have found their notification unread and not yet written. */
  datatype System = System(store: State, calls: map<nat, Key>)

  datatype Step =
    | Record(raw: Raw, env: Surroundings)
    | MarkEach(user: string, ids: seq<Digest>, at: Time)
    /** EXISTS and HGET. The call goes on only if they show an unread notification; no other step takes one away. */
    | Check(c: nat, key: Key)
    /** HSET. */
    | Write(c: nat, at: Time)
    /** The call dies. */
    | Leave(c: nat)

  function Take(s: System, step: Step): System {
    match step
    case Record(raw, env) => s.(store := Next(s.store, Process(raw, env)))
    case MarkEach(user, ids, at) => s.(store := Next(s.store, MarkAllRead(user, ids, at)))
    case Check(c, key) =>
      if c !in s.calls && key in s.store.redis.hashes && !IsRead(s.store.redis, key) then s.(calls := s.calls[c := key]) else s
    case Write(c, at) =>
      if c in s.calls then System(Next(s.store, WriteRead(s.calls[c].user, s.calls[c].id, at)), s.calls - {c}) else s
    case Leave(c) => s.(calls := s.calls - {c})
  }

  function Run(s: System, steps: seq<Step>): System {
    if steps == [] then s else Take(Run(s, steps[..|steps| - 1]), steps[|steps| - 1])
  }

  lemma RunOneMore(s: System, steps: seq<Step>, step: Step)
    ensures Run(s, steps + [step]) == Take(Run(s, steps), step)
  {
    assert (steps + [step])[..|steps|] == steps;
  }

  predicate InFlight(s: System, c: nat, key: Key) { c in s.calls && s.calls[c] == key }

  predicate Reads(s: System, key: Key) { IsRead(s.store.redis, key) }

  /** Blank for a notification that is unread or not there. */
  function ReadTime(s: System, key: Key): Value {
    if Reads(s, key) then s.store.redis.hashes[key][FReadAt] else Blank
  }

  /** The step is a MarkRead's write to this notification. */
  predicate Writes(s: System, step: Step, key: Key) { step.Write? && InFlight(s, step.c, key) }

  // The store of a run

  /** What the run does to the store. */
  function OpsOf(s: System, steps: seq<Step>): seq<Op> {
    if steps == [] then []
    else
      var (front, last) := (steps[..|steps| - 1], steps[|steps| - 1]);
      OpsOf(s, front) +
      match last
      case Record(raw, env) => [Process(raw, env)]
      case MarkEach(user, ids, at) => [MarkAllRead(user, ids, at)]
      case Write(c, at) => (var calls := Run(s, front).calls; if c in calls then [WriteRead(calls[c].user, calls[c].id, at)] else [])
      case _ => []
  }

  /** So whatever module Projection proves of the store holds with calls racing. */
  lemma {:induction false} RunsAreStoreRuns(s: System, steps: seq<Step>)
    ensures Run(s, steps).store == After(s.store, OpsOf(s, steps))
  {
    hide Next;
    if steps != [] {
      var ops := OpsOf(s, steps[..|steps| - 1]);
      RunsAreStoreRuns(s, steps[..|steps| - 1]);
      if OpsOf(s, steps) != ops {
        var op := OpsOf(s, steps)[|ops|];
        assert OpsOf(s, steps) == ops + [op] && (ops + [op])[..|ops|] == ops;
      }
    }
  }

  // One step, and what stays

  lemma KeysStay(s: System, step: Step, key: Key)
    requires key in s.store.redis.hashes
    ensures key in Take(s, step).store.redis.hashes
  {
    match step
    case Record(raw, env) =>
      if Handle(raw, env).1 != [] { SaveKeepsKeys(s.store.redis, NotificationsFor(raw.event, Handle(raw, env).1, env.now)); }
    case MarkEach(user, ids, at) => MarkAllKeepsKeys(s.store.redis, user, ids, at);
    case _ =>
  }

  lemma {:induction false} SaveKeepsKeys(r: Redis, ns: seq<Notification>)
    ensures r.hashes.Keys <= Save(r, ns).hashes.Keys
  {
    if ns != [] { SaveKeepsKeys(r, ns[..|ns| - 1]); }
  }

  /** Once a notification is read, only a MarkRead's write moves its read time, and nothing clears it. */
  lemma OnlyWritesMove(s: System, step: Step, key: Key)
    requires Reads(s, key)
    ensures Reads(Take(s, step), key)
    ensures ReadTime(Take(s, step), key) == if Writes(s, step, key) then At(step.at) else ReadTime(s, key)
  {
    match step
    case Record(raw, env) => NeverUnreadAgain(s.store, Process(raw, env), key);
    case MarkEach(user, ids, at) => NeverUnreadAgain(s.store, MarkAllRead(user, ids, at), key);
    case _ =>
  }

  /** Nobody sets out to write a notification that is read. */
  lemma CallsComeFromChecks(s: System, step: Step, c: nat, key: Key)
    requires InFlight(Take(s, step), c, key)
    ensures InFlight(s, c, key) || (step == Check(c, key) && !Reads(s, key) && key in s.store.redis.hashes)
  {
  }

  lemma {:induction false} ReadsStay(s: System, steps: seq<Step>, m: nat, key: Key)
    requires m <= |steps| && Reads(Run(s, steps[..m]), key)
    ensures Reads(Run(s, steps), key)
    decreases |steps|
  {
    hide Take, Reads;
    if m == |steps| {
      assert steps[..m] == steps;
    } else {
      var front := steps[..|steps| - 1];
      assert front[..m] == steps[..m];
      ReadsStay(s, front, m, key);
      OnlyWritesMove(Run(s, front), steps[|steps| - 1], key);
    }
  }

  // Whether a first read time lasts

  /** The last of the steps from `a` on that writes the notification is number `i`, and it writes another time than
      `first`. */
  ghost predicate LastWriteDiffers(s: System, steps: seq<Step>, a: nat, i: nat, key: Key, first: Value) {
    && a <= i < |steps| && Writes(Run(s, steps[..i]), steps[i], key) && At(steps[i].at) != first
    && forall m :: i < m < |steps| ==> !Writes(Run(s, steps[..m]), steps[m], key)
  }

  lemma OneStepMore(s: System, steps: seq<Step>, a: nat, key: Key, first: Value, step: Step)
    requires a <= |steps| && !Writes(Run(s, steps), step, key)
    ensures forall i :: LastWriteDiffers(s, steps + [step], a, i, key, first) <==> LastWriteDiffers(s, steps, a, i, key, first)
  {
    hide Writes, Run;
    var more := steps + [step];
    assert more[..|steps|] == steps;
    assert forall m :: 0 <= m < |steps| ==> more[..m] == steps[..m] && more[m] == steps[m];
  }

  lemma {:induction false} MovesByLastWrite(s: System, steps: seq<Step>, a: nat, key: Key)
    requires a <= |steps| && Reads(Run(s, steps[..a]), key)
    ensures ReadTime(Run(s, steps), key) != ReadTime(Run(s, steps[..a]), key) <==>
            exists i :: LastWriteDiffers(s, steps, a, i, key, ReadTime(Run(s, steps[..a]), key))
    decreases |steps|
  {
    hide Take, Reads, ReadTime;
    var first := ReadTime(Run(s, steps[..a]), key);
    if a == |steps| {
      assert steps[..a] == steps;
    } else {
      var (front, step) := (steps[..|steps| - 1], steps[|steps| - 1]);
      assert front[..a] == steps[..a] && steps == front + [step];
      MovesByLastWrite(s, front, a, key);
      ReadsStay(s, front, a, key);
      OnlyWritesMove(Run(s, front), step, key);
      if Writes(Run(s, front), step, key) {
        assert At(step.at) != first ==> LastWriteDiffers(s, steps, a, |front|, key, first);
      } else {
        OneStepMore(s, front, a, key, first, step);
      }
    }
  }

  /** The call that writes at step `i` found the notification unread at step `j`, and was in flight from then on. */
  ghost predicate CheckedAt(s: System, steps: seq<Step>, j: nat, i: nat, key: Key) {
    && j < i < |steps| && steps[i].Write? && steps[j] == Check(steps[i].c, key) && !Reads(Run(s, steps[..j]), key)
    && forall m :: j < m <= i ==> InFlight(Run(s, steps[..m]), steps[i].c, key)
  }

  lemma {:induction false} FlightBegins(s: System, steps: seq<Step>, n: nat, c: nat, key: Key) returns (j: nat)
    requires s.calls == map[] && n <= |steps| && InFlight(Run(s, steps[..n]), c, key)
    ensures j < n && steps[j] == Check(c, key) && !Reads(Run(s, steps[..j]), key)
    ensures forall m :: j < m <= n ==> InFlight(Run(s, steps[..m]), c, key)
    decreases n
  {
    hide Take, Reads, InFlight;
    if n == 0 {
      NobodyInFlight(s, c, key);
      assert false;
    } else {
      var before := Run(s, steps[..n - 1]);
      assert steps[..n][..n - 1] == steps[..n - 1];
      CallsComeFromChecks(before, steps[n - 1], c, key);
      if InFlight(before, c, key) {
        j := FlightBegins(s, steps, n - 1, c, key);
      } else {
        j := n - 1;
      }
    }
  }

  lemma NobodyInFlight(s: System, c: nat, key: Key)
    requires s.calls == map[]
    ensures !InFlight(s, c, key)
  {
  }

  /** A notification first read at step `k` keeps that read time to the end of the run, unless a MarkRead that checked
      before step `k` writes after it, and the last such write has another time: exactly then it moves. */
  lemma FirstReadTimeMovesExactlyWhen(s: System, steps: seq<Step>, k: nat, key: Key)
    requires s.calls == map[] && k < |steps|
    requires !Reads(Run(s, steps[..k]), key) && Reads(Run(s, steps[..k + 1]), key)
    ensures var first := ReadTime(Run(s, steps[..k + 1]), key);
            ReadTime(Run(s, steps), key) != first <==>
            exists j: nat, i: nat :: j < k && CheckedAt(s, steps, j, i, key) && LastWriteDiffers(s, steps, k + 1, i, key, first)
  {
    hide Take, Reads, ReadTime, Run;
    var a := k + 1;
    var first := ReadTime(Run(s, steps[..a]), key);
    MovesByLastWrite(s, steps, a, key);
    if i: nat :| LastWriteDiffers(s, steps, a, i, key, first) {
      var j := FlightBegins(s, steps, i, steps[i].c, key);
      CheckIsBefore(s, steps, j, k, key);
      assert CheckedAt(s, steps, j, i, key);
    }
  }

  lemma CheckIsBefore(s: System, steps: seq<Step>, j: nat, k: nat, key: Key)
    requires j < |steps| && k < |steps| && steps[j].Check? && !Reads(Run(s, steps[..j]), key)
    requires !Reads(Run(s, steps[..k]), key) && Reads(Run(s, steps[..k + 1]), key)
    ensures j < k
  {
    hide Reads;
    if j > k {
      assert steps[..j][..k + 1] == steps[..k + 1];
      ReadsStay(s, steps[..j], k + 1, key);
    }
    assert steps[..k + 1][..k] == steps[..k];
    if j == k { CheckReadsNothing(Run(s, steps[..k]), steps[k], key); }
  }

  lemma CheckReadsNothing(s: System, step: Step, key: Key)
    requires step.Check?
    ensures Reads(Take(s, step), key) == Reads(s, key)
  {
  }

  /** What can be known beforehand: the read time of a read notification is fixed for good exactly when no MarkRead of it
      is in flight. */
  lemma FirstReadTimeIsFixedExactlyWhen(s: System, key: Key)
    requires Reads(s, key)
    ensures (forall steps :: ReadTime(Run(s, steps), key) == ReadTime(s, key)) <==> forall c :: !InFlight(s, c, key)
  {
    hide Run, ReadTime, Reads, InFlight;
    if forall c :: !InFlight(s, c, key) {
      forall steps ensures ReadTime(Run(s, steps), key) == ReadTime(s, key) { NobodyMovesIt(s, steps, key); }
    } else {
      var c :| InFlight(s, c, key);
      var steps := SomebodyMovesIt(s, c, key);
      assert ReadTime(Run(s, steps), key) != ReadTime(s, key);
    }
  }

  lemma SomebodyMovesIt(s: System, c: nat, key: Key) returns (steps: seq<Step>)
    requires Reads(s, key) && InFlight(s, c, key)
    ensures ReadTime(Run(s, steps), key) != ReadTime(s, key)
  {
    hide Take, ReadTime, Reads;
    var at: Time := if ReadTime(s, key) == At(0) then 1 else 0;
    steps := [] + [Write(c, at)];
    OnlyWritesMove(s, Write(c, at), key);
    RunOneMore(s, [], Write(c, at));
  }

  lemma {:induction false} NobodyMovesIt(s: System, steps: seq<Step>, key: Key)
    requires Reads(s, key) && forall c :: !InFlight(s, c, key)
    ensures Reads(Run(s, steps), key) && ReadTime(Run(s, steps), key) == ReadTime(s, key)
    ensures forall c :: !InFlight(Run(s, steps), c, key)
  {
    hide Take, Reads, ReadTime, InFlight;
    if steps != [] {
      var (front, step) := (steps[..|steps| - 1], steps[|steps| - 1]);
      NobodyMovesIt(s, front, key);
      OnlyWritesMove(Run(s, front), step, key);
      forall c ensures !InFlight(Run(s, steps), c, key) {
        if InFlight(Run(s, steps), c, key) { CallsComeFromChecks(Run(s, front), step, c, key); }
      }
    }
  }

  /** Two calls that overlap on any unread notification: the second to write moves the read time of the first. */
  lemma OverlappingCallsMoveIt(s: System, key: Key, c: nat, d: nat, at: Time, later: Time)
    requires key in s.store.redis.hashes && !Reads(s, key) && c !in s.calls && d !in s.calls && c != d
    ensures var steps := [Check(c, key), Check(d, key), Write(c, at), Write(d, later)];
            ReadTime(Run(s, steps[..3]), key) == At(at) && ReadTime(Run(s, steps), key) == At(later)
  {
    var steps := [Check(c, key), Check(d, key), Write(c, at), Write(d, later)];
    assert steps[..3][..2][..1] == [Check(c, key)] && steps[..3][..2] == [Check(c, key), Check(d, key)];
    var s2 := s.(calls := s.calls[c := key][d := key]);
    assert Run(s, [Check(c, key)]) == s.(calls := s.calls[c := key]);
    assert Run(s, steps[..3][..2]) == s2;
    assert Run(s, steps[..3]) == Take(s2, Write(c, at));
  }
}
