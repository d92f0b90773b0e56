/** What every run of the consumer group guarantees, stated on the actions alone: one record at a time, no commit
    before a projection or a dead-letter copy, bounded attempts, faithful copies; and what Redis holds. */
module ConsumerSafety {
  import opened Types
  import Projection
  import opened Consumer

  /** What an auditor who only sees the actions of one replica knows about it. */
  datatype Auditor =
    | Waiting
    | Holding(partition: nat, offset: nat, message: Message, tries: nat, failure: Option<Failure>, cleared: bool)

  predicate Concerns(a: Auditor, action: Action)
    requires action.Handled? || action.Copied? || action.CommitTried?
  {
    a.Holding? && a.partition == action.partition && a.offset == action.offset
  }

  /** The auditor accepts an action, or (None) has found a violation. */
  function Judge(a: Auditor, action: Action, maxTries: nat): Option<Auditor> {
    match action
    case Fetched(_, q, o, m) => if a.Waiting? then Some(Holding(q, o, m, 0, None, false)) else None
    case Handled(_, _, _, raw, _, outcome, text) =>
      if !Concerns(a, action) || raw != a.message.value || a.cleared || a.tries >= maxTries || IsPermanent(a.failure) then None
      else if outcome == Projection.Succeeded then Some(a.(tries := a.tries + 1, cleared := true))
      else Some(a.(tries := a.tries + 1, failure := Some(Failure(outcome == Projection.PermanentFailure, text))))
    case Copied(_, _, _, copy, answer) =>
      if !Concerns(a, action) || a.cleared || a.failure.None? || copy != DlqCopy(a.message, a.failure.value.text) then None
      else if !IsPermanent(a.failure) && a.tries < maxTries then None
      else Some(a.(cleared := answer == Done))
    case CommitTried(_, _, _, answer) =>
      if !Concerns(a, action) || !a.cleared then None
      else Some(if answer == Done then Waiting else a)
    case Stopped(_) => Some(Waiting)
    case Viewed(_) => Some(a)
  }

  predicate IsPermanent(failure: Option<Failure>) { failure.Some? && failure.value.permanent }

  predicate IsBy(action: Action, c: nat) { !action.Viewed? && action.replica == c }

  /** The verdict on everything replica `c` did. */
  function Audit(trace: seq<Action>, c: nat, maxTries: nat): Option<Auditor> {
    if trace == [] then Some(Waiting)
    else
      var a := Audit(trace[..|trace| - 1], c, maxTries);
      if a.None? || !IsBy(trace[|trace| - 1], c) then a else Judge(a.value, trace[|trace| - 1], maxTries)
  }

  /** The auditor's view and the replica's own. */
  predicate Agrees(s: State, a: Option<Auditor>, pending: Option<Pending>) {
    match pending
    case None => a == Some(Waiting)
    case Some(p) =>
      && a.Some? && a.value.Holding? && InLog(s, p)
      && a.value.partition == p.partition && a.value.offset == p.offset && a.value.message == HeldMessage(s, p)
      && a.value.tries <= s.maxTries && (a.value.cleared <==> p.stage == CommitPending)
      && a.value.failure == p.failure && (p.stage != CommitPending ==> a.value.tries == p.attempts)
  }

  ghost predicate Audited(s: State) {
    forall c :: c in s.pending ==> Agrees(s, Audit(s.trace, c, s.maxTries), s.pending[c])
  }

  lemma AuditOne(trace: seq<Action>, action: Action, c: nat, maxTries: nat)
    ensures Audit(trace + [action], c, maxTries) ==
            var a := Audit(trace, c, maxTries);
            if a.None? || !IsBy(action, c) then a else Judge(a.value, action, maxTries)
  {
    assert (trace + [action])[..|trace|] == trace;
  }

  lemma OthersAudited(s: State, step: Step, d: nat)
    requires WellFormed(s) && Enabled(s, step) && d in s.pending && !MovedBy(step, d)
    requires Agrees(s, Audit(s.trace, d, s.maxTries), s.pending[d])
    ensures var s' := Next(s, step); d in s'.pending && Agrees(s', Audit(s'.trace, d, s'.maxTries), s'.pending[d])
  {
    hide Projection.Handle, Projection.Project, Projection.Next, Audit, AfterAttempt, HolderInv;
    var s' := Next(s, step);
    if |s.trace| < |s'.trace| { AuditOne(s.trace, s'.trace[|s.trace|], d, s.maxTries); }
  }

  predicate MovedBy(step: Step, d: nat) {
    !step.Produce? && !step.Assign? && !step.View? && step.c == d
  }

  lemma OwnAudited(s: State, step: Step, d: nat)
    requires WellFormed(s) && Enabled(s, step) && d in s.pending && MovedBy(step, d)
    requires Agrees(s, Audit(s.trace, d, s.maxTries), s.pending[d])
    ensures var s' := Next(s, step); d in s'.pending && Agrees(s', Audit(s'.trace, d, s'.maxTries), s'.pending[d])
  {
    hide Projection.Handle, Projection.Project, Projection.Next, Audit;
    var s' := Next(s, step);
    AuditOne(s.trace, s'.trace[|s.trace|], d, s.maxTries);
    if s.pending[d].Some? { assert HolderInv(s, s.pending[d].value); }
  }

  lemma StepAudited(s: State, step: Step, d: nat)
    requires WellFormed(s) && Enabled(s, step) && d in s.pending
    requires Agrees(s, Audit(s.trace, d, s.maxTries), s.pending[d])
    ensures var s' := Next(s, step); d in s'.pending && Agrees(s', Audit(s'.trace, d, s'.maxTries), s'.pending[d])
  {
    hide WellFormed, Next, Enabled, Agrees, Audit, Judge;
    if MovedBy(step, d) { OwnAudited(s, step, d); } else { OthersAudited(s, step, d); }
  }

  lemma NextAudited(s: State, step: Step)
    requires Inv(s) && Audited(s) && Enabled(s, step)
    ensures Audited(Next(s, step))
  {
    hide Agrees, Audit, Projection.Handle, Projection.Project;
    var s' := Next(s, step);
    assert s'.pending.Keys == s.pending.Keys;
    forall d | d in s'.pending ensures Agrees(s', Audit(s'.trace, d, s'.maxTries), s'.pending[d]) { StepAudited(s, step, d); }
  }

  lemma TriesLimitStays(s: State, step: Step)
    requires WellFormed(s) && Enabled(s, step)
    ensures Next(s, step).maxTries == s.maxTries
  {
  }

  lemma {:induction false} RunAudited(s: State, steps: seq<Step>)
    requires Inv(s) && Audited(s) && Executable(s, steps)
    ensures Audited(After(s, steps)) && After(s, steps).maxTries == s.maxTries
    decreases |steps|
  {
    hide CommittedInv, PositionsInv, PendingInv, Enabled, Next, Audited;
    if steps != [] {
      NextAudited(s, steps[0]);
      TriesLimitStays(s, steps[0]);
      NextKeepsInv(s, steps[0]);
      RunAudited(Next(s, steps[0]), steps[1..]);
    }
  }

  /** Every run passes the audit of every replica. */
  lemma RunsPassTheAudit(replicas: set<nat>, partitions: nat, maxTries: nat, steps: seq<Step>, s: State, c: nat)
    requires RunsTo(replicas, partitions, maxTries, steps, s) && c in s.pending
    ensures Audit(s.trace, c, maxTries).Some?
  {
    InitialInv(replicas, partitions, maxTries);
    RunAudited(Initial(replicas, partitions, maxTries), steps);
    assert Agrees(s, Audit(s.trace, c, s.maxTries), s.pending[c]);
  }

  // What passing the audit means

  /** The replica lets go of its record: the commit is confirmed, or the replica ends. */
  predicate Releases(action: Action, c: nat) {
    IsBy(action, c) && (action.Stopped? || (action.CommitTried? && action.answer == Done))
  }

  ghost predicate ReleasedBetween(trace: seq<Action>, c: nat, i: nat, j: nat) {
    exists k :: i < k < j && k < |trace| && Releases(trace[k], c)
  }

  lemma {:induction false} AuditPrefix(trace: seq<Action>, j: nat, c: nat, maxTries: nat)
    requires j <= |trace| && Audit(trace, c, maxTries).Some?
    ensures Audit(trace[..j], c, maxTries).Some?
  {
    if j == |trace| {
      assert trace[..j] == trace;
    } else {
      AuditPrefix(trace[..|trace| - 1], j, c, maxTries);
      assert trace[..|trace| - 1][..j] == trace[..j];
    }
  }

  lemma HoldGoesOn(a: Auditor, action: Action, c: nat, maxTries: nat)
    requires a.Holding? && IsBy(action, c) && !Releases(action, c) && Judge(a, action, maxTries).Some?
    ensures var b := Judge(a, action, maxTries).value;
            b.Holding? && b.message == a.message && b.partition == a.partition && b.offset == a.offset &&
            b.tries == a.tries + (if action.Handled? then 1 else 0)
  {
  }

  /** From a fetch to the next release the replica holds that one record. */
  lemma {:induction false} HoldsUntilReleased(trace: seq<Action>, i: nat, j: nat, c: nat, maxTries: nat)
    requires Audit(trace, c, maxTries).Some? && i < j <= |trace|
    requires trace[i].Fetched? && trace[i].replica == c && !ReleasedBetween(trace, c, i, j)
    ensures var a := Audit(trace[..j], c, maxTries);
            a.Some? && a.value.Holding? && a.value.message == trace[i].message &&
            a.value.partition == trace[i].partition && a.value.offset == trace[i].offset
    ensures Audit(trace[..j], c, maxTries).value.tries == Tries(trace, i, j, c)
  {
    AuditPrefix(trace, j, c, maxTries);
    assert trace[..j][..j - 1] == trace[..j - 1];
    if j == i + 1 {
      AuditPrefix(trace, i, c, maxTries);
    } else {
      assert forall k :: i < k < j - 1 && Releases(trace[k], c) ==> ReleasedBetween(trace, c, i, j);
      HoldsUntilReleased(trace, i, j - 1, c, maxTries);
      hide Judge;
      if IsBy(trace[j - 1], c) { HoldGoesOn(Audit(trace[..j - 1], c, maxTries).value, trace[j - 1], c, maxTries); }
      assert Releases(trace[j - 1], c) ==> ReleasedBetween(trace, c, i, j);
    }
  }

  /** Attempts of `c` between actions i and j. */
  function Tries(trace: seq<Action>, i: nat, j: nat, c: nat): nat
    requires i < j <= |trace|
    decreases j
  {
    if j == i + 1 then 0
    else Tries(trace, i, j - 1, c) + (if IsBy(trace[j - 1], c) && trace[j - 1].Handled? then 1 else 0)
  }

  /** At most one record is outstanding: nothing is fetched before the previous record was committed. */
  lemma FetchWaitsForCommit(trace: seq<Action>, c: nat, maxTries: nat, i: nat, j: nat)
    requires Audit(trace, c, maxTries).Some? && i < j < |trace|
    requires trace[i].Fetched? && trace[i].replica == c && trace[j].Fetched? && trace[j].replica == c
    ensures ReleasedBetween(trace, c, i, j)
  {
    if !ReleasedBetween(trace, c, i, j) {
      AuditPrefix(trace, j + 1, c, maxTries);
      assert trace[..j + 1][..j] == trace[..j];
      HoldsUntilReleased(trace, i, j, c, maxTries);
    }
  }

  /** A record is handled at most `maxTries` times before the replica lets go of it. */
  lemma TriesAreBounded(trace: seq<Action>, c: nat, maxTries: nat, i: nat, j: nat)
    requires Audit(trace, c, maxTries).Some? && i < j <= |trace|
    requires trace[i].Fetched? && trace[i].replica == c && !ReleasedBetween(trace, c, i, j)
    ensures Tries(trace, i, j, c) <= maxTries
  {
    HoldsUntilReleased(trace, i, j, c, maxTries);
    TriesInAudit(trace[..j], c, maxTries);
  }

  lemma {:induction false} TriesInAudit(trace: seq<Action>, c: nat, maxTries: nat)
    requires Audit(trace, c, maxTries).Some?
    ensures Audit(trace, c, maxTries).value.Holding? ==> Audit(trace, c, maxTries).value.tries <= maxTries
  {
    if trace != [] { TriesInAudit(trace[..|trace| - 1], c, maxTries); }
  }

  ghost predicate SettledBefore(trace: seq<Action>, c: nat, j: nat, q: nat, o: nat) {
    exists k :: 0 <= k < j && k < |trace| && IsBy(trace[k], c) && Settles(trace[k], q, o)
  }

  lemma {:induction false} ClearedMeansSettled(trace: seq<Action>, c: nat, maxTries: nat)
    requires var a := Audit(trace, c, maxTries); a.Some? && a.value.Holding? && a.value.cleared
    ensures var a := Audit(trace, c, maxTries).value; SettledBefore(trace, c, |trace|, a.partition, a.offset)
  {
    var n := |trace| - 1;
    var (a, front) := (Audit(trace, c, maxTries).value, Audit(trace[..n], c, maxTries));
    if front.value.Holding? && front.value.cleared && front.value == a {
      ClearedMeansSettled(trace[..n], c, maxTries);
      var k :| 0 <= k < n && IsBy(trace[..n][k], c) && Settles(trace[..n][k], a.partition, a.offset);
      assert trace[k] == trace[..n][k];
    } else {
      assert IsBy(trace[n], c) && Settles(trace[n], a.partition, a.offset);
    }
  }

  /** A replica commits a record only after it has itself projected it or copied it to the dead-letter topic. */
  lemma CommitIsEarned(trace: seq<Action>, c: nat, maxTries: nat, j: nat)
    requires Audit(trace, c, maxTries).Some? && j < |trace| && trace[j].CommitTried? && trace[j].replica == c
    ensures SettledBefore(trace, c, j, trace[j].partition, trace[j].offset)
  {
    AuditPrefix(trace, j + 1, c, maxTries);
    AuditPrefix(trace, j, c, maxTries);
    assert trace[..j + 1][..j] == trace[..j];
    ClearedMeansSettled(trace[..j], c, maxTries);
    var (q, o) := (trace[j].partition, trace[j].offset);
    var k :| 0 <= k < j && IsBy(trace[..j][k], c) && Settles(trace[..j][k], q, o);
    assert trace[k] == trace[..j][k];
  }

  /** A dead-letter copy repeats the key, the value and the headers of the record fetched last, and adds the reason. */
  lemma CopyIsFaithful(trace: seq<Action>, c: nat, maxTries: nat, i: nat, j: nat)
    requires Audit(trace, c, maxTries).Some? && i < j < |trace|
    requires trace[i].Fetched? && trace[i].replica == c && !ReleasedBetween(trace, c, i, j)
    requires trace[j].Copied? && trace[j].replica == c
    ensures var (m, copy) := (trace[i].message, trace[j].copy);
            copy.key == m.key && copy.value == m.value && |copy.headers| == |m.headers| + 1 && m.headers <= copy.headers &&
            copy.headers[|m.headers|].name == "failure-reason"
    ensures trace[j].partition == trace[i].partition && trace[j].offset == trace[i].offset
    ensures LastFailure(trace, i, j, c).Some? && trace[j].copy.headers[|trace[i].message.headers|].value == LastFailure(trace, i, j, c).value.text
    ensures LastFailure(trace, i, j, c).value.permanent || Tries(trace, i, j, c) == maxTries
  {
    HoldsUntilReleased(trace, i, j, c, maxTries);
    LastFailureInAudit(trace, i, j, c, maxTries);
    TriesInAudit(trace[..j], c, maxTries);
    AuditPrefix(trace, j + 1, c, maxTries);
    assert trace[..j + 1][..j] == trace[..j];
  }

  /** The last failed attempt of `c` between actions i and j. */
  function LastFailure(trace: seq<Action>, i: nat, j: nat, c: nat): Option<Failure>
    requires i < j <= |trace|
    decreases j
  {
    if j == i + 1 then None
    else if IsBy(trace[j - 1], c) && trace[j - 1].Handled? && trace[j - 1].outcome != Projection.Succeeded
    then Some(Failure(trace[j - 1].outcome == Projection.PermanentFailure, trace[j - 1].text))
    else LastFailure(trace, i, j - 1, c)
  }

  lemma {:induction false} LastFailureInAudit(trace: seq<Action>, i: nat, j: nat, c: nat, maxTries: nat)
    requires Audit(trace, c, maxTries).Some? && i < j <= |trace|
    requires trace[i].Fetched? && trace[i].replica == c && !ReleasedBetween(trace, c, i, j)
    ensures var a := Audit(trace[..j], c, maxTries); a.Some? && a.value.Holding? && a.value.failure == LastFailure(trace, i, j, c)
  {
    HoldsUntilReleased(trace, i, j, c, maxTries);
    assert trace[..j][..j - 1] == trace[..j - 1];
    if j == i + 1 {
      AuditPrefix(trace, i, c, maxTries);
    } else {
      assert forall k :: i < k < j - 1 && Releases(trace[k], c) ==> ReleasedBetween(trace, c, i, j);
      LastFailureInAudit(trace, i, j - 1, c, maxTries);
      assert Releases(trace[j - 1], c) ==> ReleasedBetween(trace, c, i, j);
    }
  }

  // The topics

  /** Every fetched record is the one the log holds, and the dead-letter topic holds the copies that were written. */
  ghost predicate TopicsInv(s: State) {
    && s.dlq == Copies(s.trace)
    && forall i :: 0 <= i < |s.trace| && s.trace[i].Fetched? ==> IsInLog(s.topic, s.trace[i])
  }

  predicate IsInLog(topic: seq<seq<Message>>, a: Action)
    requires a.Fetched?
  {
    a.partition < |topic| && a.offset < |topic[a.partition]| && topic[a.partition][a.offset] == a.message
  }

  function Copies(trace: seq<Action>): seq<Message> {
    if trace == [] then []
    else Copies(trace[..|trace| - 1]) + CopiesOf(trace[|trace| - 1])
  }

  function CopiesOf(a: Action): seq<Message> { if a.Copied? && a.answer != NotDone then [a.copy] else [] }

  lemma NextTopics(s: State, step: Step)
    requires WellFormed(s) && TopicsInv(s) && Enabled(s, step)
    ensures TopicsInv(Next(s, step))
  {
    hide Projection.Handle, Projection.Project, Projection.Next, AfterAttempt;
    var s' := Next(s, step);
    if |s'.trace| == |s.trace| + 1 { assert s'.trace[..|s.trace|] == s.trace; }
    forall i | 0 <= i < |s'.trace| && s'.trace[i].Fetched? ensures IsInLog(s'.topic, s'.trace[i]) {
      if i < |s.trace| { assert s'.trace[i] == s.trace[i] && IsInLog(s.topic, s.trace[i]); }
    }
  }

  // Redis

  /** What the actions did to Redis. */
  function OpsOf(trace: seq<Action>): seq<Projection.Op> {
    if trace == [] then [] else OpsOf(trace[..|trace| - 1]) + OpOf(trace[|trace| - 1])
  }

  function OpOf(a: Action): seq<Projection.Op> {
    match a
    case Handled(_, _, _, raw, env, _, _) => [Projection.Process(raw, env)]
    case Viewed(op) => if op.Process? then [] else [op]
    case _ => []
  }

  ghost predicate RedisInv(s: State) {
    s.redis == Projection.After(Projection.INITIAL, OpsOf(s.trace)).redis
  }

  lemma OpsOfMore(trace: seq<Action>, a: Action)
    ensures OpsOf(trace + [a]) == OpsOf(trace) + OpOf(a)
  {
    assert (trace + [a])[..|trace|] == trace;
  }

  lemma AfterOne(ops: seq<Projection.Op>, op: Projection.Op)
    ensures Projection.After(Projection.INITIAL, ops + [op]) == Projection.Next(Projection.After(Projection.INITIAL, ops), op)
  {
    assert (ops + [op])[..|ops|] == ops;
  }

  lemma OpAlone(r: Projection.State, op: Projection.Op)
    ensures Projection.Next(r, op).redis == Projection.Next(Projection.State(r.redis, {}), op).redis
  {
  }

  lemma StepOnRedis(s: State, step: Step)
    requires WellFormed(s) && Enabled(s, step)
    ensures var s' := Next(s, step);
            (s'.trace == s.trace && s'.redis == s.redis) ||
            (|s'.trace| == |s.trace| + 1 && s'.trace == s.trace + [s'.trace[|s.trace|]] &&
             s'.redis == OnRedis(s.redis, OpOf(s'.trace[|s.trace|])))
  {
    hide Projection.Handle, AfterAttempt, Projection.MarkAll, Projection.SetRead, HolderInv, Projection.Save;
  }

  function OnRedis(r: Projection.Redis, ops: seq<Projection.Op>): Projection.Redis {
    if ops == [] then r else Projection.Next(Projection.State(r, {}), ops[0]).redis
  }

  lemma NextRedis(s: State, step: Step)
    requires WellFormed(s) && RedisInv(s) && Enabled(s, step)
    ensures RedisInv(Next(s, step))
  {
    hide WellFormed, Enabled, Next, OpsOf, Projection.Next, Projection.After;
    var s' := Next(s, step);
    StepOnRedis(s, step);
    if s'.trace == s.trace { return; }
    var a := s'.trace[|s.trace|];
    OpsOfMore(s.trace, a);
    if OpOf(a) == [] {
      assert OpsOf(s.trace) + [] == OpsOf(s.trace);
    } else {
      AfterOne(OpsOf(s.trace), OpOf(a)[0]);
      OpAlone(Projection.After(Projection.INITIAL, OpsOf(s.trace)), OpOf(a)[0]);
    }
  }

  lemma {:induction false} RunProjects(s: State, steps: seq<Step>)
    requires Inv(s) && TopicsInv(s) && RedisInv(s) && Executable(s, steps)
    ensures TopicsInv(After(s, steps)) && RedisInv(After(s, steps))
    decreases |steps|
  {
    hide CommittedInv, PositionsInv, PendingInv, Enabled, Next, TopicsInv, RedisInv;
    if steps != [] {
      NextTopics(s, steps[0]);
      NextRedis(s, steps[0]);
      NextKeepsInv(s, steps[0]);
      RunProjects(Next(s, steps[0]), steps[1..]);
    }
  }

  /** Redis is exactly what module Projection makes of the records handled, whoever handled them and however often;
      the dead-letter topic is exactly the copies; and only records of the log are handled. */
  lemma RunsProjectTheLog(replicas: set<nat>, partitions: nat, maxTries: nat, steps: seq<Step>, s: State)
    requires RunsTo(replicas, partitions, maxTries, steps, s)
    ensures s.redis == Projection.After(Projection.INITIAL, OpsOf(s.trace)).redis
    ensures s.dlq == Copies(s.trace)
    ensures forall i :: 0 <= i < |s.trace| && s.trace[i].Fetched? ==> IsInLog(s.topic, s.trace[i])
  {
    InitialInv(replicas, partitions, maxTries);
    RunProjects(Initial(replicas, partitions, maxTries), steps);
  }

  // Progress

  /** Iterations left before the record is committed, when the dead-letter topic and the broker answer. */
  function Work(p: Option<Pending>, maxTries: nat): int {
    match p
    case None => 0
    case Some(p) =>
      match p.stage
      case ProcessPending => maxTries - p.attempts + 2
      case DlqPending => 2
      case CommitPending => 1
  }

  predicate OwnStep(step: Step, c: nat) {
    (step.Attempt? || (step.WriteDlq? && step.answer == Done) || (step.Commit? && step.answer == Done)) && step.c == c
  }

  /** Whatever handling the record does, the replica is done with it within maxTries + 2 iterations. */
  lemma EveryIterationMakesProgress(s: State, step: Step, c: nat)
    requires WellFormed(s) && Enabled(s, step) && OwnStep(step, c)
    ensures 0 <= Work(Next(s, step).pending[c], s.maxTries) < Work(s.pending[c], s.maxTries) <= s.maxTries + 2
  {
    hide Projection.Handle, Projection.Project;
    assert HolderInv(s, s.pending[c].value);
  }
}
