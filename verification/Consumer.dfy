/** The consumer group as a protocol: every replica holds at most one record and moves it through processing, the
    dead-letter topic and the commit, under failures, lost answers, rebalances and restarts
    (apps/notification-service-go/internal/consumer/issue_events.go). */
module Consumer {
  import opened Types
  import opened Projection

  datatype Header = Header(name: string, value: string)

  datatype Message = Message(key: string, value: Raw, headers: seq<Header>)

  datatype Stage = ProcessPending | DlqPending | CommitPending

  /** The error that a record last failed with. */
  datatype Failure = Failure(permanent: bool, text: string)

  datatype Pending = Pending(partition: nat, offset: nat, stage: Stage, attempts: nat, failure: Option<Failure>)

  /** Written and confirmed, written with the confirmation lost, or not written. */
  datatype Answer = Done | DoneButErrored | NotDone

  /** What happened, in order. */
  datatype Action =
    | Fetched(replica: nat, partition: nat, offset: nat, message: Message)
    | Handled(replica: nat, partition: nat, offset: nat, raw: Raw, env: Surroundings, outcome: Outcome, text: string)
    | Copied(replica: nat, partition: nat, offset: nat, copy: Message, answer: Answer)
    | CommitTried(replica: nat, partition: nat, offset: nat, answer: Answer)
    | Stopped(replica: nat)
    | Viewed(op: Op)

  /** `positions` holds each replica's next offset to fetch, partition by partition. `trace` is a history variable. */
  datatype State = State(
    topic: seq<seq<Message>>, committed: seq<nat>, positions: map<nat, seq<nat>>, pending: map<nat, Option<Pending>>,
    dlq: seq<Message>, redis: Redis, maxTries: nat, trace: seq<Action>)

  datatype Step =
    | Produce(partition: nat, message: Message)
    /** A rebalance hands the partition to the replica, which resumes from the committed offset. */
    | Assign(c: nat, partition: nat)
    | Fetch(c: nat, partition: nat)
    | Attempt(c: nat, env: Surroundings, text: string)
    | WriteDlq(c: nat, answer: Answer)
    | Commit(c: nat, answer: Answer)
    /** The replica ends, whatever it was doing, and starts over. */
    | Stop(c: nat)
    | View(op: Op)

  function HeldMessage(s: State, p: Pending): Message
    requires InLog(s, p)
  {
    s.topic[p.partition][p.offset]
  }

  predicate InLog(s: State, p: Pending) { p.partition < |s.topic| && p.offset < |s.topic[p.partition]| }

  /** The copy a dead-letter write publishes. */
  function DlqCopy(m: Message, reason: string): Message {
    Message(m.key, m.value, m.headers + [Header("failure-reason", reason)])
  }

  ghost predicate WellFormed(s: State) {
    && s.maxTries >= 1 && |s.committed| == |s.topic| && s.pending.Keys == s.positions.Keys
    && (forall c :: c in s.positions ==> |s.positions[c]| == |s.topic|)
    && (forall c :: c in s.pending && s.pending[c].Some? ==> HolderInv(s, s.pending[c].value))
  }

  predicate HolderInv(s: State, p: Pending) {
    && InLog(s, p)
    && match p.stage
       case ProcessPending => p.attempts < s.maxTries && (p.failure.Some? ==> !p.failure.value.permanent)
       case DlqPending => p.failure.Some? && (p.failure.value.permanent || p.attempts == s.maxTries)
       case CommitPending => true
  }

  predicate Holds(s: State, c: nat, stage: Stage) {
    c in s.pending && s.pending[c].Some? && s.pending[c].value.stage == stage
  }

  predicate Enabled(s: State, step: Step) {
    match step
    case Produce(q, _) => q < |s.topic|
    case Assign(c, q) => c in s.positions && q < |s.topic|
    case Fetch(c, q) =>
      && c in s.positions && c in s.pending && s.pending[c].None? && q < |s.topic| && q < |s.positions[c]|
      && s.positions[c][q] < |s.topic[q]|
    case Attempt(c, _, _) => Holds(s, c, ProcessPending)
    case WriteDlq(c, _) => Holds(s, c, DlqPending)
    case Commit(c, _) => Holds(s, c, CommitPending)
    case Stop(c) => c in s.pending
    case View(op) => !op.Process?
  }

  /** The pending record after one attempt. */
  function AfterAttempt(p: Pending, outcome: Outcome, text: string, maxTries: nat): Pending {
    if outcome == Succeeded then p.(stage := CommitPending)
    else
      var tried := p.(attempts := p.attempts + 1, failure := Some(Failure(outcome == PermanentFailure, text)));
      if outcome == PermanentFailure || tried.attempts >= maxTries then tried.(stage := DlqPending) else tried
  }

  ghost function Next(s: State, step: Step): State
    requires WellFormed(s) && Enabled(s, step)
  {
    match step
    case Produce(q, m) => s.(topic := s.topic[q := s.topic[q] + [m]])
    case Assign(c, q) => s.(positions := s.positions[c := s.positions[c][q := s.committed[q]]])
    case Fetch(c, q) =>
      var o := s.positions[c][q];
      s.(positions := s.positions[c := s.positions[c][q := o + 1]],
         pending := s.pending[c := Some(Pending(q, o, ProcessPending, 0, None))],
         trace := s.trace + [Fetched(c, q, o, s.topic[q][o])])
    case Attempt(c, env, text) =>
      var p := s.pending[c].value;
      var raw := HeldMessage(s, p).value;
      var outcome := Handle(raw, env).0;
      s.(redis := Project(s.redis, raw, env),
         pending := s.pending[c := Some(AfterAttempt(p, outcome, text, s.maxTries))],
         trace := s.trace + [Handled(c, p.partition, p.offset, raw, env, outcome, text)])
    case WriteDlq(c, answer) =>
      var p := s.pending[c].value;
      var copy := DlqCopy(HeldMessage(s, p), p.failure.value.text);
      s.(dlq := if answer == NotDone then s.dlq else s.dlq + [copy],
         pending := if answer == Done then s.pending[c := Some(p.(stage := CommitPending))] else s.pending,
         trace := s.trace + [Copied(c, p.partition, p.offset, copy, answer)])
    case Commit(c, answer) =>
      var p := s.pending[c].value;
      s.(committed := if answer == NotDone then s.committed else s.committed[p.partition := p.offset + 1],
         pending := if answer == Done then s.pending[c := None] else s.pending,
         trace := s.trace + [CommitTried(c, p.partition, p.offset, answer)])
    case Stop(c) =>
      s.(pending := s.pending[c := None], positions := s.positions[c := s.committed], trace := s.trace + [Stopped(c)])
    case View(op) =>
      s.(redis := Projection.Next(Projection.State(s.redis, {}), op).redis, trace := s.trace + [Viewed(op)])
  }

  // The invariant

  /** The action projected the record, or put its copy on the dead-letter topic. */
  predicate Settles(a: Action, q: nat, o: nat) {
    || (a.Handled? && a.partition == q && a.offset == o && a.outcome == Succeeded)
    || (a.Copied? && a.partition == q && a.offset == o && a.answer != NotDone)
  }

  ghost predicate Settled(trace: seq<Action>, q: nat, o: nat) {
    exists i :: 0 <= i < |trace| && Settles(trace[i], q, o)
  }

  ghost predicate SettledBelow(trace: seq<Action>, q: nat, o: nat) {
    forall k: nat :: k < o ==> Settled(trace, q, k)
  }

  predicate IsPending(s: State, c: nat, q: nat, o: nat) {
    c in s.pending && s.pending[c].Some? && s.pending[c].value.partition == q && s.pending[c].value.offset == o
  }

  ghost predicate CommittedInv(s: State) {
    forall q: nat :: q < |s.committed| ==> SettledBelow(s.trace, q, s.committed[q])
  }

  ghost predicate PositionsInv(s: State) {
    forall c, q: nat, o: nat :: c in s.positions && q < |s.positions[c]| && o < s.positions[c][q] ==>
      Settled(s.trace, q, o) || IsPending(s, c, q, o)
  }

  ghost predicate PendingInv(s: State) {
    forall c :: c in s.pending && s.pending[c].Some? ==> HeldInv(s, s.pending[c].value)
  }

  ghost predicate HeldInv(s: State, p: Pending) {
    && SettledBelow(s.trace, p.partition, p.offset)
    && (p.stage == CommitPending ==> Settled(s.trace, p.partition, p.offset))
  }

  ghost predicate Inv(s: State) { WellFormed(s) && CommittedInv(s) && PositionsInv(s) && PendingInv(s) }

  lemma SettledStays(trace: seq<Action>, a: Action, q: nat, o: nat)
    ensures Settled(trace + [a], q, o) <==> Settled(trace, q, o) || Settles(a, q, o)
  {
    var more := trace + [a];
    if Settled(trace, q, o) {
      var i :| 0 <= i < |trace| && Settles(trace[i], q, o);
      assert Settles(more[i], q, o);
    }
    if Settles(a, q, o) { assert more[|trace|] == a; }
    if Settled(more, q, o) {
      var i :| 0 <= i < |more| && Settles(more[i], q, o);
      assert i < |trace| ==> trace[i] == more[i];
    }
  }

  /** Nothing that was settled comes undone. */
  ghost predicate Keeps(trace: seq<Action>, trace': seq<Action>) {
    forall q: nat, o: nat :: Settled(trace, q, o) ==> Settled(trace', q, o)
  }

  lemma MoreKeeps(trace: seq<Action>, a: Action)
    ensures Keeps(trace, trace + [a])
  {
    forall q: nat, o: nat | Settled(trace, q, o) ensures Settled(trace + [a], q, o) { SettledStays(trace, a, q, o); }
  }

  lemma BelowStays(trace: seq<Action>, trace': seq<Action>, q: nat, o: nat)
    requires Keeps(trace, trace') && SettledBelow(trace, q, o)
    ensures SettledBelow(trace', q, o)
  {
  }

  /** A step that moves no position and no committed offset, and changes at most `c`'s record, keeping its place. */
  lemma RecordKeepsInv(s: State, s': State, c: nat, p: Pending)
    requires Inv(s) && WellFormed(s') && Keeps(s.trace, s'.trace)
    requires s'.topic == s.topic && s'.committed == s.committed && s'.positions == s.positions
    requires c in s.pending && s.pending[c].Some? && s'.pending == s.pending[c := Some(p)]
    requires p.partition == s.pending[c].value.partition && p.offset == s.pending[c].value.offset
    requires p.stage == CommitPending ==> Settled(s'.trace, p.partition, p.offset)
    ensures Inv(s')
  {
    hide WellFormed, Settled;
    assert HeldInv(s, s.pending[c].value);
    forall d | d in s'.pending && s'.pending[d].Some? ensures HeldInv(s', s'.pending[d].value) {
      if d != c { assert HeldInv(s, s.pending[d].value); }
    }
    forall d, q: nat, o: nat | d in s'.positions && q < |s'.positions[d]| && o < s'.positions[d][q]
      ensures Settled(s'.trace, q, o) || IsPending(s', d, q, o)
    {
      assert Settled(s.trace, q, o) || IsPending(s, d, q, o);
    }
  }

  lemma ProduceKeepsInv(s: State, q: nat, m: Message)
    requires Inv(s) && q < |s.topic|
    ensures Inv(s.(topic := s.topic[q := s.topic[q] + [m]]))
  {
    hide Settled;
    var s' := s.(topic := s.topic[q := s.topic[q] + [m]]);
    forall c | c in s'.pending && s'.pending[c].Some? ensures HolderInv(s', s'.pending[c].value) && HeldInv(s', s'.pending[c].value) {
      assert HolderInv(s, s.pending[c].value) && HeldInv(s, s.pending[c].value);
    }
    forall d, p: nat, o: nat | d in s'.positions && p < |s'.positions[d]| && o < s'.positions[d][p]
      ensures Settled(s'.trace, p, o) || IsPending(s', d, p, o)
    {
      assert Settled(s.trace, p, o) || IsPending(s, d, p, o);
    }
  }

  lemma AssignKeepsInv(s: State, c: nat, q: nat)
    requires Inv(s) && c in s.positions && q < |s.topic|
    ensures Inv(s.(positions := s.positions[c := s.positions[c][q := s.committed[q]]]))
  {
    hide Settled;
    var s' := s.(positions := s.positions[c := s.positions[c][q := s.committed[q]]]);
    forall d | d in s'.pending && s'.pending[d].Some? ensures HolderInv(s', s'.pending[d].value) && HeldInv(s', s'.pending[d].value) {
      assert HolderInv(s, s.pending[d].value) && HeldInv(s, s.pending[d].value);
    }
    forall d, p: nat, o: nat | d in s'.positions && p < |s'.positions[d]| && o < s'.positions[d][p]
      ensures Settled(s'.trace, p, o) || IsPending(s', d, p, o)
    {
      if d == c && p == q {
        assert SettledBelow(s.trace, q, s.committed[q]);
      } else {
        assert Settled(s.trace, p, o) || IsPending(s, d, p, o);
      }
    }
  }

  lemma FetchKeepsInv(s: State, c: nat, q: nat)
    requires Inv(s) && Enabled(s, Fetch(c, q))
    ensures Inv(Next(s, Fetch(c, q)))
  {
    hide Settled;
    var s' := Next(s, Fetch(c, q));
    MoreKeeps(s.trace, s'.trace[|s.trace|]);
    assert forall k: nat :: k < s.positions[c][q] ==> Settled(s.trace, q, k) || IsPending(s, c, q, k);
    forall d | d in s'.pending && s'.pending[d].Some? ensures HolderInv(s', s'.pending[d].value) && HeldInv(s', s'.pending[d].value) {
      if d != c { assert HolderInv(s, s.pending[d].value) && HeldInv(s, s.pending[d].value); }
    }
    forall d, p: nat, o: nat | d in s'.positions && p < |s'.positions[d]| && o < s'.positions[d][p]
      ensures Settled(s'.trace, p, o) || IsPending(s', d, p, o)
    {
      if d == c && p == q && o == s.positions[c][q] {
      } else {
        assert Settled(s.trace, p, o) || IsPending(s, d, p, o);
      }
    }
    forall p: nat | p < |s'.committed| ensures SettledBelow(s'.trace, p, s'.committed[p]) {
      BelowStays(s.trace, s'.trace, p, s.committed[p]);
    }
  }

  lemma ProcessKeepsInv(s: State, c: nat, env: Surroundings, text: string)
    requires Inv(s) && Enabled(s, Attempt(c, env, text))
    ensures Inv(Next(s, Attempt(c, env, text)))
  {
    hide Settled, Handle, Project, CommittedInv, PositionsInv, PendingInv;
    var s' := Next(s, Attempt(c, env, text));
    var (p, a) := (s.pending[c].value, s'.trace[|s.trace|]);
    assert HolderInv(s, p);
    MoreKeeps(s.trace, a);
    SettledStays(s.trace, a, p.partition, p.offset);
    forall d | d in s'.pending && s'.pending[d].Some? ensures HolderInv(s', s'.pending[d].value) {
      if d != c { assert HolderInv(s, s.pending[d].value); }
    }
    RecordKeepsInv(s, s', c, s'.pending[c].value);
  }

  lemma WriteDlqKeepsInv(s: State, c: nat, answer: Answer)
    requires Inv(s) && Enabled(s, WriteDlq(c, answer))
    ensures Inv(Next(s, WriteDlq(c, answer)))
  {
    hide Settled, CommittedInv, PositionsInv, PendingInv;
    var s' := Next(s, WriteDlq(c, answer));
    var (p, a) := (s.pending[c].value, s'.trace[|s.trace|]);
    assert HolderInv(s, p);
    MoreKeeps(s.trace, a);
    SettledStays(s.trace, a, p.partition, p.offset);
    forall d | d in s'.pending && s'.pending[d].Some? ensures HolderInv(s', s'.pending[d].value) {
      if d != c { assert HolderInv(s, s.pending[d].value); }
    }
    assert s'.pending == s.pending[c := s'.pending[c]];
    RecordKeepsInv(s, s', c, s'.pending[c].value);
  }

  lemma CommitKeepsInv(s: State, c: nat, answer: Answer)
    requires Inv(s) && Enabled(s, Commit(c, answer))
    ensures Inv(Next(s, Commit(c, answer)))
  {
    hide Settled;
    var s' := Next(s, Commit(c, answer));
    var p := s.pending[c].value;
    MoreKeeps(s.trace, s'.trace[|s.trace|]);
    assert HeldInv(s, p);
    forall q: nat | q < |s'.committed| ensures SettledBelow(s'.trace, q, s'.committed[q]) {
      BelowStays(s.trace, s'.trace, q, s.committed[q]);
    }
    forall d | d in s'.pending && s'.pending[d].Some? ensures HolderInv(s', s'.pending[d].value) && HeldInv(s', s'.pending[d].value) {
      assert HolderInv(s, s.pending[d].value) && HeldInv(s, s.pending[d].value);
    }
    forall d, q: nat, o: nat | d in s'.positions && q < |s'.positions[d]| && o < s'.positions[d][q]
      ensures Settled(s'.trace, q, o) || IsPending(s', d, q, o)
    {
      assert Settled(s.trace, q, o) || IsPending(s, d, q, o);
    }
  }

  lemma StopKeepsInv(s: State, c: nat)
    requires Inv(s) && c in s.pending
    ensures Inv(Next(s, Stop(c)))
  {
    hide Settled;
    var s' := Next(s, Stop(c));
    MoreKeeps(s.trace, Stopped(c));
    forall d | d in s'.pending && s'.pending[d].Some? ensures HolderInv(s', s'.pending[d].value) && HeldInv(s', s'.pending[d].value) {
      assert HolderInv(s, s.pending[d].value) && HeldInv(s, s.pending[d].value);
    }
    forall q: nat | q < |s'.committed| ensures SettledBelow(s'.trace, q, s'.committed[q]) {
      BelowStays(s.trace, s'.trace, q, s.committed[q]);
    }
    forall d, q: nat, o: nat | d in s'.positions && q < |s'.positions[d]| && o < s'.positions[d][q]
      ensures Settled(s'.trace, q, o) || IsPending(s', d, q, o)
    {
      if d == c {
        assert SettledBelow(s'.trace, q, s.committed[q]);
      } else {
        assert Settled(s.trace, q, o) || IsPending(s, d, q, o);
      }
    }
  }

  lemma ViewKeepsInv(s: State, op: Op)
    requires Inv(s) && !op.Process?
    ensures Inv(Next(s, View(op)))
  {
    hide Settled, MarkAll, SetRead;
    var s' := Next(s, View(op));
    MoreKeeps(s.trace, Viewed(op));
    forall d | d in s'.pending && s'.pending[d].Some? ensures HolderInv(s', s'.pending[d].value) && HeldInv(s', s'.pending[d].value) {
      assert HolderInv(s, s.pending[d].value) && HeldInv(s, s.pending[d].value);
    }
    forall q: nat | q < |s'.committed| ensures SettledBelow(s'.trace, q, s'.committed[q]) {
      BelowStays(s.trace, s'.trace, q, s.committed[q]);
    }
    forall d, q: nat, o: nat | d in s'.positions && q < |s'.positions[d]| && o < s'.positions[d][q]
      ensures Settled(s'.trace, q, o) || IsPending(s', d, q, o)
    {
      assert Settled(s.trace, q, o) || IsPending(s, d, q, o);
    }
  }

  lemma NextKeepsInv(s: State, step: Step)
    requires Inv(s) && Enabled(s, step)
    ensures Inv(Next(s, step))
  {
    hide Inv, HolderInv, AfterAttempt, Project, Handle, Projection.Next;
    match step
    case Produce(q, m) => ProduceKeepsInv(s, q, m);
    case Assign(c, q) => AssignKeepsInv(s, c, q);
    case Fetch(c, q) => FetchKeepsInv(s, c, q);
    case Attempt(c, env, text) => ProcessKeepsInv(s, c, env, text);
    case WriteDlq(c, answer) => WriteDlqKeepsInv(s, c, answer);
    case Commit(c, answer) => CommitKeepsInv(s, c, answer);
    case Stop(c) => StopKeepsInv(s, c);
    case View(op) => ViewKeepsInv(s, op);
  }

  // Runs

  ghost predicate Executable(s: State, steps: seq<Step>)
    requires Inv(s)
    decreases |steps|
  {
    steps == [] || (Enabled(s, steps[0]) && (NextKeepsInv(s, steps[0]); Executable(Next(s, steps[0]), steps[1..])))
  }

  ghost function After(s: State, steps: seq<Step>): (s': State)
    requires Inv(s) && Executable(s, steps)
    ensures Inv(s')
    decreases |steps|
  {
    if steps == [] then s else NextKeepsInv(s, steps[0]); After(Next(s, steps[0]), steps[1..])
  }

  function Initial(replicas: set<nat>, partitions: nat, maxTries: nat): State {
    State.State(seq(partitions, _ => []), seq(partitions, _ => 0), map c | c in replicas :: seq(partitions, _ => 0),
          map c | c in replicas :: None, [], EMPTY, maxTries, [])
  }

  lemma InitialInv(replicas: set<nat>, partitions: nat, maxTries: nat)
    requires maxTries >= 1
    ensures Inv(Initial(replicas, partitions, maxTries))
  {
  }

  ghost predicate RunsTo(replicas: set<nat>, partitions: nat, maxTries: nat, steps: seq<Step>, s: State) {
    maxTries >= 1 && (InitialInv(replicas, partitions, maxTries);
    Executable(Initial(replicas, partitions, maxTries), steps) && s == After(Initial(replicas, partitions, maxTries), steps))
  }

  lemma {:induction false} RunsConcatenate(s: State, a: seq<Step>, b: seq<Step>)
    requires Inv(s) && Executable(s, a) && Executable(After(s, a), b)
    ensures Executable(s, a + b) && After(s, a + b) == After(After(s, a), b)
    decreases |a|
  {
    hide Enabled, Next, CommittedInv, PositionsInv, PendingInv;
    if a == [] {
      assert a + b == b;
    } else {
      NextKeepsInv(s, a[0]);
      RunsConcatenate(Next(s, a[0]), a[1..], b);
      assert (a + b)[1..] == a[1..] + b;
    }
  }

  /** No loss: below a committed offset every record was projected successfully or copied to the dead-letter topic. */
  lemma CommittedMeansSettled(replicas: set<nat>, partitions: nat, maxTries: nat, steps: seq<Step>, s: State, q: nat, o: nat)
    requires RunsTo(replicas, partitions, maxTries, steps, s) && q < |s.committed| && o < s.committed[q]
    ensures Settled(s.trace, q, o)
  {
    InitialInv(replicas, partitions, maxTries);
    assert SettledBelow(s.trace, q, s.committed[q]);
  }

  // Where a replica resumes

  /** The offset of the last commit to the partition that took effect. */
  function LastCommit(trace: seq<Action>, q: nat): Option<nat> {
    if trace == [] then None
    else
      var last := trace[|trace| - 1];
      if last.CommitTried? && last.partition == q && last.answer != NotDone then Some(last.offset)
      else LastCommit(trace[..|trace| - 1], q)
  }

  /** The offset just past the last record committed. */
  function PastLastCommit(trace: seq<Action>, q: nat): nat {
    match LastCommit(trace, q) case None => 0 case Some(o) => o + 1
  }

  ghost predicate OffsetsInv(s: State) {
    forall q: nat :: q < |s.committed| ==> s.committed[q] == PastLastCommit(s.trace, q)
  }

  lemma OneActionMore(trace: seq<Action>, a: Action, q: nat)
    ensures PastLastCommit(trace + [a], q) ==
            if a.CommitTried? && a.partition == q && a.answer != NotDone then a.offset + 1 else PastLastCommit(trace, q)
  {
    assert (trace + [a])[..|trace|] == trace;
  }

  lemma NextKeepsOffsets(s: State, step: Step)
    requires WellFormed(s) && OffsetsInv(s) && Enabled(s, step)
    ensures OffsetsInv(Next(s, step))
  {
    hide PastLastCommit, Handle, Project, AfterAttempt, DlqCopy, Projection.Next;
    var s' := Next(s, step);
    if |s'.trace| > |s.trace| {
      assert s'.trace == s.trace + [s'.trace[|s.trace|]];
      forall q: nat | q < |s'.committed| ensures s'.committed[q] == PastLastCommit(s'.trace, q) {
        OneActionMore(s.trace, s'.trace[|s.trace|], q);
      }
    }
  }

  lemma {:induction false} RunKeepsOffsets(s: State, steps: seq<Step>)
    requires Inv(s) && Executable(s, steps) && OffsetsInv(s)
    ensures OffsetsInv(After(s, steps))
    decreases |steps|
  {
    hide Enabled, Next, CommittedInv, PositionsInv, PendingInv, OffsetsInv;
    if steps != [] {
      NextKeepsInv(s, steps[0]);
      NextKeepsOffsets(s, steps[0]);
      RunKeepsOffsets(Next(s, steps[0]), steps[1..]);
    }
  }

  /** A commit that takes effect moves its partition's offset just past the record, one that does not moves nothing: in
      every reachable state a partition's offset lies just past the last record committed there, and that is where a
      replica resumes which is given the partition, or starts over. */
  lemma ResumesPastLastCommit(replicas: set<nat>, partitions: nat, maxTries: nat, steps: seq<Step>, s: State, c: nat, q: nat)
    requires RunsTo(replicas, partitions, maxTries, steps, s) && q < |s.committed| && c in s.positions
    ensures s.committed[q] == PastLastCommit(s.trace, q)
    ensures Inv(s) && c in s.pending && q < |s.topic|
    ensures var (given, restarted) := (Next(s, Assign(c, q)).positions, Next(s, Stop(c)).positions);
            && c in given && q < |given[c]| && given[c][q] == PastLastCommit(s.trace, q)
            && c in restarted && q < |restarted[c]| && restarted[c][q] == PastLastCommit(s.trace, q)
    ensures Next(s, Stop(c)).pending[c].None?
  {
    hide PastLastCommit, CommittedInv, PositionsInv, PendingInv, HolderInv, Executable;
    InitialInv(replicas, partitions, maxTries);
    assert OffsetsInv(Initial(replicas, partitions, maxTries)) by { NothingCommitted(replicas, partitions, maxTries); }
    RunKeepsOffsets(Initial(replicas, partitions, maxTries), steps);
  }

  lemma NothingCommitted(replicas: set<nat>, partitions: nat, maxTries: nat)
    ensures OffsetsInv(Initial(replicas, partitions, maxTries))
  {
  }

  /** The step moves the replica's position in the partition. */
  predicate Moves(step: Step, c: nat, q: nat) {
    (step.Fetch? && step.c == c && step.partition == q) || (step.Assign? && step.c == c && step.partition == q) ||
    (step.Stop? && step.c == c)
  }

  lemma {:induction false} PositionStays(s: State, steps: seq<Step>, c: nat, q: nat)
    requires Inv(s) && Executable(s, steps) && c in s.positions && q < |s.topic|
    requires forall step :: step in steps ==> !Moves(step, c, q)
    ensures c in After(s, steps).positions && q < |After(s, steps).positions[c]| && q < |s.positions[c]|
    ensures After(s, steps).positions[c][q] == s.positions[c][q]
    decreases |steps|
  {
    hide CommittedInv, PositionsInv, PendingInv, HolderInv, Executable, After, Next, Enabled;
    if steps == [] {
      assert After(s, steps) == s by { NothingTaken(s); }
    } else {
      assert steps[0] in steps;
      Unfold(s, steps);
      NextKeepsInv(s, steps[0]);
      StepKeepsPosition(s, steps[0], c, q);
      PositionStays(Next(s, steps[0]), steps[1..], c, q);
    }
  }

  lemma NothingTaken(s: State)
    requires Inv(s)
    ensures Executable(s, []) && After(s, []) == s
  {
  }

  lemma Unfold(s: State, steps: seq<Step>)
    requires Inv(s) && Executable(s, steps) && steps != []
    ensures Enabled(s, steps[0]) && Inv(Next(s, steps[0])) && Executable(Next(s, steps[0]), steps[1..])
    ensures After(s, steps) == After(Next(s, steps[0]), steps[1..])
  {
    hide Enabled, Next, CommittedInv, PositionsInv, PendingInv;
    NextKeepsInv(s, steps[0]);
  }

  lemma StepKeepsPosition(s: State, step: Step, c: nat, q: nat)
    requires WellFormed(s) && Enabled(s, step) && c in s.positions && q < |s.positions[c]| && !Moves(step, c, q)
    ensures c in Next(s, step).positions && q < |Next(s, step).positions[c]|
    ensures Next(s, step).positions[c][q] == s.positions[c][q] && |Next(s, step).topic| == |s.topic|
  {
    hide HolderInv, Handle, Project, AfterAttempt;
  }

  /** A replica takes up a partition record by record: it fetches the record at its position, and unless it is given the
      partition anew or starts over, the next it fetches there is the one after, whatever happens in between. */
  lemma FetchesAreConsecutive(s: State, steps: seq<Step>, c: nat, q: nat)
    requires Inv(s) && Enabled(s, Fetch(c, q)) && Inv(Next(s, Fetch(c, q))) && Executable(Next(s, Fetch(c, q)), steps)
    requires forall step :: step in steps ==> !Moves(step, c, q)
    requires Enabled(After(Next(s, Fetch(c, q)), steps), Fetch(c, q))
    ensures var (first, t) := (Next(s, Fetch(c, q)), After(Next(s, Fetch(c, q)), steps));
            var second := Next(t, Fetch(c, q));
            && first.pending[c] == Some(Pending(q, s.positions[c][q], ProcessPending, 0, None))
            && second.pending[c] == Some(Pending(q, s.positions[c][q] + 1, ProcessPending, 0, None))
  {
    hide CommittedInv, PositionsInv, PendingInv, HolderInv, Executable, After;
    PositionStays(Next(s, Fetch(c, q)), steps, c, q);
  }
}
