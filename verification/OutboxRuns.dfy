/** What every run of the outbox protocol guarantees: order, no loss, and the attempt budget. */
module OutboxRuns {
  import opened Types
  import opened IssueDatabase
  import opened Outbox

  // Runs

  ghost predicate Executable(s: State, steps: seq<Step>)
    requires Inv(s)
    decreases |steps|
  {
    steps == [] || (Enabled(s, steps[0]) && (NextKeepsInv(s, steps[0]); Executable(Next(s, steps[0]), steps[1..])))
  }

  ghost function After(s: State, steps: seq<Step>): (s': State)
    requires Inv(s) && Executable(s, steps)
    ensures Inv(s')
    decreases |steps|
  {
    if steps == [] then s else NextKeepsInv(s, steps[0]); After(Next(s, steps[0]), steps[1..])
  }

  function Initial(publishers: set<nat>, partitions: nat): State {
    State(map[], 0, map p | p in publishers :: Idle, {}, seq(partitions, _ => []))
  }

  lemma InitialInv(publishers: set<nat>, partitions: nat)
    requires partitions > 0
    ensures Inv(Initial(publishers, partitions))
  {
  }

  ghost predicate RunsTo(publishers: set<nat>, partitions: nat, steps: seq<Step>, s: State) {
    partitions > 0 && (InitialInv(publishers, partitions);
    Executable(Initial(publishers, partitions), steps) && s == After(Initial(publishers, partitions), steps))
  }

  ghost predicate Reachable(s: State) {
    exists publishers, partitions, steps :: RunsTo(publishers, partitions, steps, s)
  }

  lemma ReachableInv(s: State)
    requires Reachable(s)
    ensures Inv(s)
  {
    var publishers, partitions, steps :| RunsTo(publishers, partitions, steps, s);
    InitialInv(publishers, partitions);
  }

  lemma {:induction false} RunsConcatenate(s: State, a: seq<Step>, b: seq<Step>)
    requires Inv(s) && Executable(s, a) && Executable(After(s, a), b)
    ensures Executable(s, a + b) && After(s, a + b) == After(After(s, a), b)
    decreases |a|
  {
    hide Enabled, Next, RowsInv, PublishedInLog, ClaimsAreHeads, LogInv, AcksInv;
    if a == [] {
      assert a + b == b;
    } else {
      NextKeepsInv(s, a[0]);
      RunsConcatenate(Next(s, a[0]), a[1..], b);
      assert (a + b)[1..] == a[1..] + b;
    }
  }

  /** The steps one publisher takes; the others belong to the issue service, the clock, the network or the operator. */
  predicate ByPublisher(step: Step) {
    !step.Insert? && !step.Advance? && !step.LateDeliver? && !step.Requeue?
  }

  predicate IsBy(step: Step, p: nat) { ByPublisher(step) && Actor(step) == p }

  function StepsBy(steps: seq<Step>, p: nat): seq<Step> {
    if steps == [] then []
    else StepsBy(steps[..|steps| - 1], p) + (if IsBy(steps[|steps| - 1], p) then [steps[|steps| - 1]] else [])
  }

  lemma {:induction false} StepsByConcat(a: seq<Step>, b: seq<Step>, p: nat)
    ensures StepsBy(a + b, p) == StepsBy(a, p) + StepsBy(b, p)
  {
    if b == [] {
      assert a + b == a;
    } else {
      var n := |b| - 1;
      assert (a + b)[..|a + b| - 1] == a + b[..n];
      StepsByConcat(a, b[..n], p);
    }
  }

  lemma OtherLeavesPublisher(s: State, step: Step, p: nat)
    requires |s.topic| > 0 && Keyed(s) && Enabled(s, step) && p in s.publishers && !IsBy(step, p)
    ensures p in Next(s, step).publishers && Next(s, step).publishers[p] == s.publishers[p]
  {
  }

  /** What the others do leaves a publisher where it is. */
  lemma {:induction false} OthersLeavePublisher(s: State, steps: seq<Step>, p: nat)
    requires Inv(s) && Executable(s, steps) && p in s.publishers && forall step :: step in steps ==> !IsBy(step, p)
    ensures p in After(s, steps).publishers && After(s, steps).publishers[p] == s.publishers[p]
    ensures StepsBy(steps, p) == []
    decreases |steps|
  {
    hide Enabled, Next, StepsBy, RowsInv, PublishedInLog, ClaimsAreHeads, LogInv, AcksInv;
    if steps == [] {
      NoSteps(p);
    } else {
      NextKeepsInv(s, steps[0]);
      OtherLeavesPublisher(s, steps[0], p);
      OneOther(steps[0], p);
      OthersLeavePublisher(Next(s, steps[0]), steps[1..], p);
      assert steps == [steps[0]] + steps[1..];
      StepsByConcat([steps[0]], steps[1..], p);
    }
  }

  lemma NoSteps(p: nat)
    ensures StepsBy([], p) == []
  {
  }

  lemma OneOther(step: Step, p: nat)
    requires !IsBy(step, p)
    ensures StepsBy([step], p) == []
  {
    assert [step][..0] == [];
  }

  // Order

  /** The versions of one issue's records in a log, in log order. */
  function VersionsIn(log: seq<Event>, a: Uuid): seq<nat> {
    if log == [] then []
    else
      var front := VersionsIn(log[..|log| - 1], a);
      var last := log[|log| - 1];
      if last.aggregateId == a then front + [last.aggregateVersion] else front
  }

  /** The list without repetitions: first occurrences, in order. */
  function FirstSeen(versions: seq<nat>): seq<nat> {
    if versions == [] then []
    else
      var front := FirstSeen(versions[..|versions| - 1]);
      var last := versions[|versions| - 1];
      if last in front then front else front + [last]
  }

  function OneTo(m: nat): seq<nat> { seq(m, i => i + 1) }

  lemma {:induction false} FirstSeenMembers(versions: seq<nat>)
    ensures forall v :: v in FirstSeen(versions) <==> v in versions
  {
    if versions != [] {
      var n := |versions| - 1;
      FirstSeenMembers(versions[..n]);
      assert versions == versions[..n] + [versions[n]];
    }
  }

  lemma {:induction false} VersionsInMembers(log: seq<Event>, a: Uuid, event: Event)
    requires event in log && event.aggregateId == a
    ensures event.aggregateVersion in VersionsIn(log, a)
  {
    var n := |log| - 1;
    assert log == log[..n] + [log[n]];
    if event in log[..n] { VersionsInMembers(log[..n], a, event); }
  }

  lemma {:induction false} FirstSeenIsGapless(s: State, a: Uuid, n: nat)
    requires Inv(s) && n <= |LogOf(s.topic, a)|
    ensures var seen := FirstSeen(VersionsIn(LogOf(s.topic, a)[..n], a)); seen == OneTo(|seen|)
  {
    var log := LogOf(s.topic, a);
    if n > 0 {
      FirstSeenIsGapless(s, a, n - 1);
      assert log[..n][..n - 1] == log[..n - 1];
      var event := log[n - 1];
      if event.aggregateId == a {
        var before := VersionsIn(log[..n - 1], a);
        var v := event.aggregateVersion;
        assert (before + [v])[..|before|] == before;
        FirstSeenMembers(before);
        EarlierVersionsSeen(s, a, n - 1);
        var m := |FirstSeen(before)|;
        if v > m {
          assert m + 1 !in OneTo(m);
          assert v == m + 1;
          assert OneTo(m) + [m + 1] == OneTo(m + 1);
        } else {
          assert OneTo(m)[v - 1] == v;
        }
      }
    }
  }

  /** Every version below that of record `i` occurs before it. */
  lemma EarlierVersionsSeen(s: State, a: Uuid, i: nat)
    requires Inv(s) && i < |LogOf(s.topic, a)| && LogOf(s.topic, a)[i].aggregateId == a
    ensures var log := LogOf(s.topic, a);
            log[i].aggregateVersion >= 1 &&
            forall u :: 1 <= u < log[i].aggregateVersion ==> u in VersionsIn(log[..i], a)
  {
    var p := PartitionOf(a, |s.topic|);
    var event := s.topic[p][i];
    assert RecordInv(s, p, i);
    assert RowInv(s.rows, event.eventId);
    forall u | 1 <= u < event.aggregateVersion ensures u in VersionsIn(s.topic[p][..i], a) {
      assert HasVersion(s.rows, a, u);
      var f :| f in s.rows && s.rows[f].event.aggregateId == a && s.rows[f].event.aggregateVersion == u;
      VersionsInMembers(s.topic[p][..i], a, s.rows[f].event);
    }
  }

  /** With any number of publishers, crashes, ambiguous sends and expired leases, the first occurrences of an
      issue's events in the log are versions 1, 2, 3, ... in order and without a gap. */
  lemma FirstOccurrencesInOrder(s: State, a: Uuid)
    requires Reachable(s)
    ensures Inv(s)
    ensures var seen := FirstSeen(VersionsIn(LogOf(s.topic, a), a)); seen == OneTo(|seen|)
  {
    ReachableInv(s);
    FirstSeenIsGapless(s, a, |LogOf(s.topic, a)|);
    assert LogOf(s.topic, a)[..|LogOf(s.topic, a)|] == LogOf(s.topic, a);
  }

  // No loss

  /** Every committed event is still unpublished in the outbox, or in the log of its key. */
  lemma NothingIsLost(s: State, e: Uuid)
    requires Reachable(s) && e in s.rows
    ensures Inv(s) && (s.rows[e].published ==> s.rows[e].event in LogOf(s.topic, s.rows[e].event.aggregateId))
  {
    ReachableInv(s);
  }

  /** Rows never disappear and never change their event, and nothing is ever removed from the log. */
  lemma {:induction false} RunsOnlyAdd(s: State, steps: seq<Step>)
    requires Inv(s) && Executable(s, steps)
    ensures var s' := After(s, steps);
            && (forall e :: e in s.rows ==> e in s'.rows && s'.rows[e].event == s.rows[e].event &&
                                            (s.rows[e].published ==> s'.rows[e].published))
            && |s'.topic| == |s.topic|
            && (forall p :: 0 <= p < |s.topic| ==> s.topic[p] <= s'.topic[p])
    decreases |steps|
  {
    if steps != [] {
      NextKeepsInv(s, steps[0]);
      var mid := Next(s, steps[0]);
      StepOnlyAdds(s, steps[0]);
      RunsOnlyAdd(mid, steps[1..]);
      var s' := After(s, steps);
      forall p | 0 <= p < |s.topic| ensures s.topic[p] <= s'.topic[p] {
        assert s.topic[p] <= mid.topic[p] <= s'.topic[p];
      }
    }
  }

  lemma StepOnlyAdds(s: State, step: Step)
    requires Inv(s) && Enabled(s, step)
    ensures var s' := Next(s, step);
            && (forall e :: e in s.rows ==> e in s'.rows && s'.rows[e].event == s.rows[e].event &&
                                            (s.rows[e].published ==> s'.rows[e].published))
            && |s'.topic| == |s.topic|
            && (forall p :: 0 <= p < |s.topic| ==> s.topic[p] <= s'.topic[p])
  {
    hide RowsInv, PublishedInLog, ClaimsAreHeads, LogInv, AcksInv, NextVersion, Claimable;
    if step.Insert? { NewRowIsNew(s, step); }
  }

  lemma NewRowIsNew(s: State, step: Step)
    requires Enabled(s, step) && step.Insert?
    ensures step.row.event.eventId !in s.rows
  {
  }

  // Order of every record

  ghost predicate Sorted(versions: seq<nat>) {
    forall i, j :: 0 <= i < j < |versions| ==> versions[i] <= versions[j]
  }

  /** No issue's versions ever step back in the log: duplicates only stutter. */
  ghost predicate LogsSorted(s: State)
    requires |s.topic| > 0
  {
    forall a :: Sorted(VersionsIn(LogOf(s.topic, a), a))
  }

  /** A record that reaches the log does so before its row is marked published. */
  predicate IsTimely(s: State, step: Step) {
    match step
    case Deliver(_, e, _) => e in s.rows && !s.rows[e].published
    case LateDeliver(e) => e in s.rows && !s.rows[e].published
    case _ => true
  }

  ghost predicate Timely(s: State, steps: seq<Step>)
    requires Inv(s) && Executable(s, steps)
    decreases |steps|
  {
    steps == [] || (IsTimely(s, steps[0]) && (NextKeepsInv(s, steps[0]); Timely(Next(s, steps[0]), steps[1..])))
  }

  /** No record of an issue is ahead of an unpublished event of it. */
  lemma UnpublishedIsLast(s: State, e: Uuid)
    requires Inv(s) && e in s.rows && !s.rows[e].published
    ensures forall x :: x in LogOf(s.topic, s.rows[e].event.aggregateId) && x.aggregateId == s.rows[e].event.aggregateId
              ==> x.aggregateVersion <= s.rows[e].event.aggregateVersion
  {
    var a := s.rows[e].event.aggregateId;
    var p := PartitionOf(a, |s.topic|);
    forall x | x in s.topic[p] && x.aggregateId == a ensures x.aggregateVersion <= s.rows[e].event.aggregateVersion {
      var i :| 0 <= i < |s.topic[p]| && s.topic[p][i] == x;
      assert RecordInv(s, p, i);
      assert IsHead(s.rows, x.eventId);
    }
  }

  lemma {:induction false} VersionsInComeFrom(log: seq<Event>, a: Uuid, v: nat)
    requires v in VersionsIn(log, a)
    ensures exists x :: x in log && x.aggregateId == a && x.aggregateVersion == v
  {
    var n := |log| - 1;
    assert log == log[..n] + [log[n]];
    if v in VersionsIn(log[..n], a) { VersionsInComeFrom(log[..n], a, v); }
  }

  lemma VersionsOfAppend(topic: Topic, event: Event, a: Uuid)
    requires |topic| > 0
    ensures VersionsIn(LogOf(Append(topic, event), a), a)
         == VersionsIn(LogOf(topic, a), a) + (if event.aggregateId == a then [event.aggregateVersion] else [])
  {
    var log := LogOf(topic, a);
    assert (log + [event])[..|log|] == log;
  }

  lemma DeliveryKeepsOrder(s: State, e: Uuid, a: Uuid)
    requires Inv(s) && e in s.rows && !s.rows[e].published
    requires Sorted(VersionsIn(LogOf(s.topic, a), a))
    ensures Sorted(VersionsIn(LogOf(Append(s.topic, s.rows[e].event), a), a))
  {
    var versions := VersionsIn(LogOf(s.topic, a), a);
    VersionsOfAppend(s.topic, s.rows[e].event, a);
    if s.rows[e].event.aggregateId == a {
      UnpublishedIsLast(s, e);
      forall i | 0 <= i < |versions| ensures versions[i] <= s.rows[e].event.aggregateVersion {
        VersionsInComeFrom(LogOf(s.topic, a), a, versions[i]);
      }
    }
  }

  lemma AppendSize(topic: Topic, event: Event)
    requires |topic| > 0
    ensures |Append(topic, event)| == |topic|
  {
  }

  lemma TimelyStep(s: State, step: Step)
    requires Inv(s) && Enabled(s, step) && IsTimely(s, step) && LogsSorted(s)
    ensures |Next(s, step).topic| > 0 && LogsSorted(Next(s, step))
  {
    hide RowsInv, PublishedInLog, ClaimsAreHeads, LogInv, AcksInv, Sorted, VersionsIn, Append, LogOf, Claimable, NextVersion;
    var s' := Next(s, step);
    if step.Deliver? || step.LateDeliver? {
      AppendSize(s.topic, s.rows[step.e].event);
      forall a ensures Sorted(VersionsIn(LogOf(s'.topic, a), a)) { DeliveryKeepsOrder(s, step.e, a); }
    }
  }

  /** A run whose records all reach the log in time keeps every issue's versions in order. */
  lemma {:induction false} TimelyRunsKeepOrder(s: State, steps: seq<Step>)
    requires Inv(s) && Executable(s, steps) && Timely(s, steps) && LogsSorted(s)
    ensures LogsSorted(After(s, steps))
    decreases |steps|
  {
    hide RowsInv, PublishedInLog, ClaimsAreHeads, LogInv, AcksInv, Enabled, Next, LogsSorted, IsTimely;
    if steps != [] {
      NextKeepsInv(s, steps[0]);
      TimelyStep(s, steps[0]);
      TimelyRunsKeepOrder(Next(s, steps[0]), steps[1..]);
    }
  }

  lemma NothingLoggedIsSorted(publishers: set<nat>, partitions: nat)
    requires partitions > 0
    ensures LogsSorted(Initial(publishers, partitions))
  {
  }

  /** A batch never holds two events of one issue, so sending it concurrently cannot reorder an issue. */
  lemma BatchHoldsOneEventPerIssue(rows: Rows, now: Time, e: Uuid, f: Uuid)
    requires RowsInv(rows) && Claimable(rows, now, e) && Claimable(rows, now, f) && SameIssue(rows, e, f)
    ensures e == f
  {
    assert RowInv(rows, e);
  }

  // The attempt budget

  ghost function Holders(publishers: map<nat, Publisher>, e: Uuid): set<nat> {
    set p | p in publishers && e in Held(publishers[p])
  }

  ghost predicate BudgetInv(s: State) {
    forall e :: e in s.rows ==> s.rows[e].attempts + |Holders(s.publishers, e)| <= MAX_PUBLISH_ATTEMPTS - 1 + |s.publishers|
  }

  lemma SubsetSize(a: set<nat>, b: set<nat>)
    requires a <= b
    ensures |a| <= |b|
  {
    var c := b - a;
    assert b == a + c;
  }

  lemma HoldersBounded(publishers: map<nat, Publisher>, e: Uuid)
    ensures |Holders(publishers, e)| <= |publishers|
  {
    SubsetSize(Holders(publishers, e), publishers.Keys);
  }

  /** The publisher that takes the step. */
  function Actor(step: Step): nat {
    match step
    case Claim(p, _) => p
    case Deliver(p, _, _) => p
    case Publish(p) => p
    case MarkFailed(p, _) => p
    case SendFailed(p) => p
    case Record(p, _) => p
    case Crash(p) => p
    case _ => 0
  }

  /** A publisher that lets go of `e` leaves one holder fewer; one that takes it, at most one more. */
  lemma HoldersChange(publishers: map<nat, Publisher>, p: nat, after: Publisher, e: Uuid)
    requires p in publishers
    ensures var (h, h') := (Holders(publishers, e), Holders(publishers[p := after], e));
            |h'| == |h| + (if e in Held(after) then 1 else 0) - (if e in Held(publishers[p]) then 1 else 0)
  {
    var (h, h') := (Holders(publishers, e), Holders(publishers[p := after], e));
    if e in Held(after) {
      assert h' == h - {p} + {p};
    } else {
      assert h' == h - {p};
    }
    if e !in Held(publishers[p]) { assert h - {p} == h; }
  }

  /** What one step does to the attempts of `e` and to what its publisher holds. */
  lemma BudgetOfRow(s: State, step: Step, e: Uuid)
    requires |s.topic| > 0 && Keyed(s) && Enabled(s, step) && e in s.rows && Actor(step) in s.publishers
    ensures var s' := Next(s, step);
            var p := Actor(step);
            && p in s'.publishers && s'.publishers == s.publishers[p := s'.publishers[p]]
            && e in s'.rows
            && var gains := e in Held(s'.publishers[p]) && e !in Held(s.publishers[p]);
            && (gains ==> s.rows[e].attempts < MAX_PUBLISH_ATTEMPTS && s'.rows[e].attempts == s.rows[e].attempts)
            && (s'.rows[e].attempts > s.rows[e].attempts ==>
                  s'.rows[e].attempts == s.rows[e].attempts + 1 && e in Held(s.publishers[p]) && e !in Held(s'.publishers[p]))
  {
    if step.Claim? && e in step.ids { assert Claimable(s.rows, s.now, e); }
  }

  lemma ActorKeepsBudget(s: State, step: Step, e: Uuid)
    requires |s.topic| > 0 && Keyed(s) && Enabled(s, step) && e in s.rows && Actor(step) in s.publishers
    requires s.rows[e].attempts + |Holders(s.publishers, e)| <= MAX_PUBLISH_ATTEMPTS - 1 + |s.publishers|
    ensures var s' := Next(s, step);
            && s'.publishers.Keys == s.publishers.Keys && e in s'.rows
            && s'.rows[e].attempts + |Holders(s'.publishers, e)| <= MAX_PUBLISH_ATTEMPTS - 1 + |s.publishers|
  {
    var s' := Next(s, step);
    BudgetOfRow(s, step, e);
    HoldersChange(s.publishers, Actor(step), s'.publishers[Actor(step)], e);
    assert s'.publishers.Keys == s.publishers.Keys;
    SubsetSize(Holders(s'.publishers, e), s.publishers.Keys);
  }

  lemma StepKeepsPublishers(s: State, step: Step)
    requires |s.topic| > 0 && Keyed(s) && Enabled(s, step)
    ensures Next(s, step).publishers.Keys == s.publishers.Keys
    ensures ByPublisher(step) ==> Actor(step) in s.publishers && Next(s, step).rows.Keys == s.rows.Keys
  {
  }

  lemma EnvironmentKeepsAttempts(s: State, step: Step, e: Uuid)
    requires |s.topic| > 0 && Keyed(s) && Enabled(s, step) && !ByPublisher(step) && e in Next(s, step).rows
    ensures Next(s, step).publishers == s.publishers
    ensures Next(s, step).rows[e].attempts == 0 || (e in s.rows && Next(s, step).rows[e].attempts == s.rows[e].attempts)
  {
  }

  lemma RowKeepsBudget(s: State, step: Step, e: Uuid)
    requires Inv(s) && BudgetInv(s) && Enabled(s, step) && e in Next(s, step).rows
    ensures var s' := Next(s, step);
            s'.rows[e].attempts + |Holders(s'.publishers, e)| <= MAX_PUBLISH_ATTEMPTS - 1 + |s.publishers|
  {
    if ByPublisher(step) {
      StepKeepsPublishers(s, step);
      ActorKeepsBudget(s, step, e);
    } else {
      EnvironmentKeepsAttempts(s, step, e);
      HoldersBounded(s.publishers, e);
    }
  }

  lemma BudgetStep(s: State, step: Step)
    requires Inv(s) && BudgetInv(s) && Enabled(s, step)
    ensures BudgetInv(Next(s, step)) && Next(s, step).publishers.Keys == s.publishers.Keys
  {
    var s' := Next(s, step);
    StepKeepsPublishers(s, step);
    assert |s'.publishers| == |s.publishers| by { assert |s'.publishers.Keys| == |s.publishers.Keys|; }
    forall e | e in s'.rows
      ensures s'.rows[e].attempts + |Holders(s'.publishers, e)| <= MAX_PUBLISH_ATTEMPTS - 1 + |s'.publishers|
    {
      RowKeepsBudget(s, step, e);
    }
  }

  lemma {:induction false} BudgetRun(s: State, steps: seq<Step>)
    requires Inv(s) && BudgetInv(s) && Executable(s, steps)
    ensures BudgetInv(After(s, steps)) && After(s, steps).publishers.Keys == s.publishers.Keys
    decreases |steps|
  {
    if steps != [] {
      NextKeepsInv(s, steps[0]);
      BudgetStep(s, steps[0]);
      BudgetRun(Next(s, steps[0]), steps[1..]);
    }
  }

  /** The budget of 20 attempts is exact for one publisher; each further publisher can overrun it by one. */
  lemma AttemptsBounded(publishers: set<nat>, partitions: nat, steps: seq<Step>, s: State, e: Uuid)
    requires RunsTo(publishers, partitions, steps, s) && e in s.rows
    ensures s.rows[e].attempts <= MAX_PUBLISH_ATTEMPTS - 1 + |publishers|
  {
    InitialInv(publishers, partitions);
    BudgetRun(Initial(publishers, partitions), steps);
    assert Initial(publishers, partitions).publishers.Keys == publishers;
    assert |s.publishers| == |s.publishers.Keys|;
  }
}
