/** The consumer as code: the Run loop of one replica and its bounded commit loop, iteration by iteration, while
    producers, the other replicas, readers and the group coordinator act in between
    (apps/notification-service-go/internal/consumer/issue_events.go). */
module ConsumerService {
  import opened Types
  import Projection
  import opened Consumer
  import opened RedisStore
  import ConsumerSafety

  // What one run of the loop does, given the answers it gets

  /** One CommitMessages call, and whether the context was cancelled by the time the caller looks. */
  datatype CommitReply = CommitReply(answer: Answer, cancelled: bool)

  /** The answers of one iteration: the partition the next record comes from, if any; what handling meets; what the
      dead-letter write and each commit attempt return; and whether the context is cancelled after an error. */
  datatype Tick = Tick(
    fetch: Option<nat>, env: Projection.Surroundings, text: string, dlq: Answer, commits: nat -> CommitReply, cancelled: bool)

  datatype Held = Held(p: Pending, message: Message)

  /** The loop after some iterations: the steps taken, the record held, and whether the loop has returned. */
  datatype Drive = Drive(steps: seq<Step>, held: Option<Held>, stopped: bool)

  /** commit: attempt after attempt until one succeeds, the context is cancelled, or the attempts are used up. */
  function CommitSteps(c: nat, commits: nat -> CommitReply, tries: nat): seq<Step> {
    if tries == 0 then []
    else if StillTrying(commits, tries - 1) then CommitSteps(c, commits, tries - 1) + [Commit(c, commits(tries - 1).answer)]
    else CommitSteps(c, commits, tries - 1)
  }

  /** None of the first `tries` attempts ended the loop. */
  predicate StillTrying(commits: nat -> CommitReply, tries: nat) {
    forall k: nat :: k < tries ==> commits(k).answer != Done && !commits(k).cancelled
  }

  /** Some attempt within the limit succeeds, and all before it failed without a cancellation. */
  predicate Commits(commits: nat -> CommitReply, tries: nat) {
    exists k: nat :: k < tries && commits(k).answer == Done && StillTrying(commits, k)
  }

  function Iterate(c: nat, h: Held, tick: Tick, maxTries: nat, maxCommits: nat): Drive {
    match h.p.stage
    case ProcessPending =>
      var after := AfterAttempt(h.p, Projection.Handle(h.message.value, tick.env).0, tick.text, maxTries);
      Drive([Attempt(c, tick.env, tick.text)], Some(h.(p := after)), after.stage == ProcessPending && tick.cancelled)
    case DlqPending =>
      Drive([WriteDlq(c, tick.dlq)], Some(if tick.dlq == Done then h.(p := h.p.(stage := CommitPending)) else h),
            tick.dlq != Done && tick.cancelled)
    case CommitPending =>
      if Commits(tick.commits, maxCommits) then Drive(CommitSteps(c, tick.commits, maxCommits), None, false)
      else Drive(CommitSteps(c, tick.commits, maxCommits), Some(h), !StillTrying(tick.commits, maxCommits))
  }

  /** `got` is what each iteration's fetch returned; only an iteration that holds nothing fetches. */
  function Run(c: nat, ticks: seq<Tick>, got: seq<Option<Held>>, maxTries: nat, maxCommits: nat): Drive
    requires |got| == |ticks|
  {
    if ticks == [] then Drive([], None, false)
    else
      var n := |ticks| - 1;
      var d := Run(c, ticks[..n], got[..n], maxTries, maxCommits);
      if d.stopped then d
      else if d.held.Some? then
        var i := Iterate(c, d.held.value, ticks[n], maxTries, maxCommits);
        Drive(d.steps + i.steps, i.held, i.stopped)
      else if got[n].Some? then
        var i := Iterate(c, got[n].value, ticks[n], maxTries, maxCommits);
        Drive(d.steps + [Fetch(c, got[n].value.p.partition)] + i.steps, i.held, i.stopped)
      else d.(stopped := ticks[n].cancelled)
  }

  lemma AttemptKeepsPlace(p: Pending, outcome: Projection.Outcome, text: string, maxTries: nat)
    ensures var after := AfterAttempt(p, outcome, text, maxTries); after.partition == p.partition && after.offset == p.offset
  {
  }

  lemma RunNothing(c: nat, ticks: seq<Tick>, maxTries: nat, maxCommits: nat)
    ensures Run(c, ticks[..0], [], maxTries, maxCommits) == Drive([], None, false)
  {
    assert ticks[..0] == [];
  }

  /** Function Run, one iteration on. */
  lemma RunOneMore(c: nat, ticks: seq<Tick>, n: nat, got: seq<Option<Held>>, fetched: Option<Held>, maxTries: nat, maxCommits: nat)
    requires n < |ticks| && |got| == n && !Run(c, ticks[..n], got, maxTries, maxCommits).stopped
    ensures var d := Run(c, ticks[..n], got, maxTries, maxCommits);
            var next := Run(c, ticks[..n + 1], got + [fetched], maxTries, maxCommits);
            var h := if d.held.Some? then d.held else fetched;
            var fetch := if d.held.None? && fetched.Some? then [Fetch(c, fetched.value.p.partition)] else [];
            next == if h.None? then d.(stopped := ticks[n].cancelled)
                    else var i := Iterate(c, h.value, ticks[n], maxTries, maxCommits);
                         Drive(d.steps + fetch + i.steps, i.held, i.stopped)
  {
    assert ticks[..n + 1][..n] == ticks[..n] && (got + [fetched])[..n] == got;
    var d := Run(c, ticks[..n], got, maxTries, maxCommits);
    assert d.steps + [] == d.steps;
  }

  // When the loop ends

  /** The context is cancelled at a point of the iteration where the loop looks: after a fetch that brought nothing, an
      attempt that is to be repeated, a dead-letter write or a commit attempt that was not confirmed. */
  ghost predicate CancelledAt(h: Option<Held>, tick: Tick, maxTries: nat, maxCommits: nat) {
    match h
    case None => tick.cancelled
    case Some(held) =>
      match held.p.stage
      case ProcessPending =>
        tick.cancelled && Projection.Handle(held.message.value, tick.env).0 == Projection.TransientFailure && held.p.attempts + 1 < maxTries
      case DlqPending => tick.cancelled && tick.dlq != Done
      case CommitPending =>
        exists k: nat :: k < maxCommits && StillTrying(tick.commits, k) && tick.commits(k).answer != Done && tick.commits(k).cancelled
  }

  /** The record is let go of in this iteration: it was to be committed, and some attempt was confirmed. */
  ghost predicate ReleasedAt(h: Option<Held>, tick: Tick, maxCommits: nat) {
    h.Some? && h.value.p.stage == CommitPending &&
    exists k: nat :: k < maxCommits && StillTrying(tick.commits, k) && tick.commits(k).answer == Done
  }

  predicate SameRecord(a: Held, b: Held) {
    a.message == b.message && a.p.partition == b.p.partition && a.p.offset == b.p.offset
  }

  /** Once it has returned, the loop does nothing more. It returns in an iteration exactly when it finds the context cancelled there; and whatever record it has is the
      same one afterwards, unless a commit of it was confirmed. */
  lemma LoopEndsExactlyWhen(c: nat, ticks: seq<Tick>, got: seq<Option<Held>>, n: nat, maxTries: nat, maxCommits: nat)
    requires n < |ticks| && |got| == |ticks|
    ensures var (d, next) := (Run(c, ticks[..n], got[..n], maxTries, maxCommits), Run(c, ticks[..n + 1], got[..n + 1], maxTries, maxCommits));
            var h := if d.held.Some? then d.held else got[n];
            if d.stopped then next == d else
            && (next.stopped <==> CancelledAt(h, ticks[n], maxTries, maxCommits))
            && (next.held.None? <==> h.None? || ReleasedAt(h, ticks[n], maxCommits))
            && (next.held.Some? ==> SameRecord(h.value, next.held.value))
  {
    var d := Run(c, ticks[..n], got[..n], maxTries, maxCommits);
    assert ticks[..n + 1][..n] == ticks[..n] && got[..n + 1][..n] == got[..n];
    if d.stopped { return; }
    hide Run, Iterate;
    RunOneMore(c, ticks, n, got[..n], got[n], maxTries, maxCommits);
    assert got[..n] + [got[n]] == got[..n + 1];
    var h := if d.held.Some? then d.held else got[n];
    if h.Some? { IterationEnds(c, h.value, ticks[n], maxTries, maxCommits); }
  }

  lemma IterationEnds(c: nat, h: Held, tick: Tick, maxTries: nat, maxCommits: nat)
    ensures var i := Iterate(c, h, tick, maxTries, maxCommits);
            && (i.stopped <==> CancelledAt(Some(h), tick, maxTries, maxCommits))
            && (i.held.None? <==> ReleasedAt(Some(h), tick, maxCommits))
            && (i.held.Some? ==> SameRecord(h, i.held.value))
  {
    hide CommitSteps, Projection.Handle, StillTrying;
    if h.p.stage == CommitPending { CommitBatchEnds(tick.commits, maxCommits); }
  }

  /** Of a batch of commit attempts, one is confirmed, or one fails and finds the context cancelled, or all fail. */
  lemma CommitBatchEnds(commits: nat -> CommitReply, tries: nat)
    ensures !Commits(commits, tries) && !StillTrying(commits, tries) <==>
            exists k: nat :: k < tries && StillTrying(commits, k) && commits(k).answer != Done && commits(k).cancelled
  {
    if !StillTrying(commits, tries) {
      var k: nat :| k < tries && !(commits(k).answer != Done && !commits(k).cancelled);
      var first := FirstEnd(commits, k);
    }
    if k: nat :| k < tries && StillTrying(commits, k) && commits(k).answer != Done && commits(k).cancelled {
      assert !StillTrying(commits, tries);
    }
  }

  lemma {:induction false} FirstEnd(commits: nat -> CommitReply, k: nat) returns (first: nat)
    requires commits(k).answer == Done || commits(k).cancelled
    ensures first <= k && StillTrying(commits, first) && (commits(first).answer == Done || commits(first).cancelled)
    decreases k
  {
    if StillTrying(commits, k) {
      first := k;
    } else {
      var j: nat :| j < k && !(commits(j).answer != Done && !commits(j).cancelled);
      first := FirstEnd(commits, j);
    }
  }

  // Progress

  /** The context is not cancelled, the dead-letter write is confirmed, and a commit within the limit succeeds; handling
      may fare as it likes. */
  predicate Answers(tick: Tick, maxCommits: nat) { !tick.cancelled && tick.dlq == Done && Commits(tick.commits, maxCommits) }

  predicate UnderWay(p: Pending, maxTries: nat) { p.stage == ProcessPending ==> p.attempts < maxTries }

  lemma IterationMakesProgress(c: nat, h: Held, tick: Tick, maxTries: nat, maxCommits: nat)
    requires UnderWay(h.p, maxTries) && Answers(tick, maxCommits)
    ensures var i := Iterate(c, h, tick, maxTries, maxCommits);
            && !i.stopped
            && (h.p.stage == CommitPending <==> i.held.None?)
            && (i.held.Some? ==> i.held.value.message == h.message && UnderWay(i.held.value.p, maxTries))
            && (i.held.Some? ==> 1 <= ConsumerSafety.Work(Some(i.held.value.p), maxTries) < ConsumerSafety.Work(Some(h.p), maxTries))
  {
    hide Commits, StillTrying, CommitSteps, Projection.Handle;
  }

  /** The loop holds this record after `n` iterations, and has not returned. */
  predicate HoldsAfter(c: nat, ticks: seq<Tick>, got: seq<Option<Held>>, n: nat, h: Held, maxTries: nat, maxCommits: nat)
    requires n <= |ticks| == |got|
  {
    var d := Run(c, ticks[..n], got[..n], maxTries, maxCommits);
    !d.stopped && d.held == Some(h)
  }

  /** The loop holds nothing after `n` iterations, and has not returned. */
  predicate FreeAfter(c: nat, ticks: seq<Tick>, got: seq<Option<Held>>, n: nat, maxTries: nat, maxCommits: nat)
    requires n <= |ticks| == |got|
  {
    var d := Run(c, ticks[..n], got[..n], maxTries, maxCommits);
    !d.stopped && d.held.None?
  }

  ghost predicate AnswersFrom(ticks: seq<Tick>, from: nat, to: nat, maxCommits: nat) {
    forall k :: from <= k < to && k < |ticks| ==> Answers(ticks[k], maxCommits)
  }

  lemma {:induction false} HeldRecordIsDone(c: nat, ticks: seq<Tick>, got: seq<Option<Held>>, n: nat, h: Held, work: nat, maxTries: nat, maxCommits: nat)
    returns (end: nat)
    requires n + work <= |ticks| == |got| && HoldsAfter(c, ticks, got, n, h, maxTries, maxCommits)
    requires UnderWay(h.p, maxTries) && 1 <= ConsumerSafety.Work(Some(h.p), maxTries) <= work && AnswersFrom(ticks, n, n + work, maxCommits)
    ensures n < end <= n + work && FreeAfter(c, ticks, got, end, maxTries, maxCommits)
    decreases work
  {
    hide Run, Iterate, Answers, UnderWay;
    assert Answers(ticks[n], maxCommits);
    IterationMakesProgress(c, h, ticks[n], maxTries, maxCommits);
    RunOneMore(c, ticks, n, got[..n], got[n], maxTries, maxCommits);
    assert got[..n] + [got[n]] == got[..n + 1];
    var i := Iterate(c, h, ticks[n], maxTries, maxCommits);
    if i.held.None? {
      end := n + 1;
    } else {
      end := HeldRecordIsDone(c, ticks, got, n + 1, i.held.value, work - 1, maxTries, maxCommits);
    }
  }

  /** A record fetched in iteration `n` is committed, and the loop free for the next one, within maxTries + 2 iterations,
      however handling fares, once the dead-letter topic and the broker answer. */
  lemma FetchedRecordIsDone(c: nat, ticks: seq<Tick>, got: seq<Option<Held>>, n: nat, maxTries: nat, maxCommits: nat) returns (end: nat)
    requires maxTries >= 1 && n + maxTries + 2 <= |ticks| == |got| && FreeAfter(c, ticks, got, n, maxTries, maxCommits)
    requires got[n].Some? && got[n].value.p.stage == ProcessPending && got[n].value.p.attempts == 0
    requires AnswersFrom(ticks, n, n + maxTries + 2, maxCommits)
    ensures n < end <= n + maxTries + 2 && FreeAfter(c, ticks, got, end, maxTries, maxCommits)
  {
    hide Run, Iterate, Answers;
    assert Answers(ticks[n], maxCommits);
    var h := got[n].value;
    IterationMakesProgress(c, h, ticks[n], maxTries, maxCommits);
    RunOneMore(c, ticks, n, got[..n], got[n], maxTries, maxCommits);
    assert got[..n] + [got[n]] == got[..n + 1];
    var i := Iterate(c, h, ticks[n], maxTries, maxCommits);
    end := HeldRecordIsDone(c, ticks, got, n + 1, i.held.value, maxTries + 1, maxTries, maxCommits);
  }

  predicate OwnedBy(step: Step, c: nat) {
    !step.Produce? && !step.Assign? && !step.View? && step.c == c
  }

  function StepsBy(steps: seq<Step>, c: nat): seq<Step> {
    if steps == [] then []
    else StepsBy(steps[..|steps| - 1], c) + (if OwnedBy(steps[|steps| - 1], c) then [steps[|steps| - 1]] else [])
  }

  lemma StepsByOne(steps: seq<Step>, step: Step, c: nat)
    ensures StepsBy(steps + [step], c) == StepsBy(steps, c) + (if OwnedBy(step, c) then [step] else [])
  {
    assert (steps + [step])[..|steps|] == steps;
  }

  /** The log, the committed offsets, the readers' positions, the dead-letter topic and Redis. */
  class Group {
    const store: Store
    const maxTries: nat
    var topic: seq<seq<Message>>
    var committed: seq<nat>
    var positions: map<nat, seq<nat>>
    var dlq: seq<Message>
    ghost var pending: map<nat, Option<Pending>>
    ghost var trace: seq<Action>
    ghost var origin: State
    ghost var steps: seq<Step>

    constructor (store: Store, maxTries: nat, replicas: set<nat>, partitions: nat)
      requires maxTries >= 1 && store.View() == Projection.EMPTY
      ensures Valid() && this.store == store && this.maxTries == maxTries
      ensures steps == [] && View() == Initial(replicas, partitions, maxTries)
    {
      var initial := Initial(replicas, partitions, maxTries);
      this.store, this.maxTries := store, maxTries;
      topic, committed, positions, dlq := initial.topic, initial.committed, initial.positions, [];
      pending, trace, origin, steps := initial.pending, [], initial, [];
      new;
      InitialInv(replicas, partitions, maxTries);
    }

    ghost function View(): State
      reads this, store
    {
      State.State(topic, committed, positions, pending, dlq, store.View(), maxTries, trace)
    }

    ghost predicate Valid()
      reads this, store
    {
      Inv(origin) && Executable(origin, steps) && View() == After(origin, steps)
    }

    /** The state after one more step. */
    ghost predicate Took(before: State, taken: seq<Step>, step: Step)
      reads this, store
    {
      Valid() && Inv(before) && Enabled(before, step) && View() == Next(before, step) && steps == taken + [step]
    }

    lemma Extend(before: State, taken: seq<Step>, step: Step)
      requires Inv(origin) && Executable(origin, taken) && before == After(origin, taken)
      requires Enabled(before, step) && View() == Next(before, step) && steps == taken + [step]
      ensures Took(before, taken, step)
    {
      hide Next, Enabled, CommittedInv, PositionsInv, PendingInv;
      NextKeepsInv(before, step);
      OneStep(before, step);
      RunsConcatenate(origin, taken, [step]);
    }

    lemma OneStep(before: State, step: Step)
      requires Inv(before) && Enabled(before, step)
      ensures Executable(before, [step]) && After(before, [step]) == Next(before, step)
    {
      hide Next, Enabled, CommittedInv, PositionsInv, PendingInv;
      NextKeepsInv(before, step);
      assert [step][1..] == [];
    }

    ghost predicate Has(c: nat, held: Option<Held>)
      reads this
    {
      && c in pending && pending[c] == (match held case None => None case Some(h) => Some(h.p))
      && (held.Some? ==> InTopic(held.value.p, held.value.message))
    }

    predicate InTopic(p: Pending, m: Message)
      reads this`topic
    {
      p.partition < |topic| && p.offset < |topic[p.partition]| && topic[p.partition][p.offset] == m
    }

    /** Whatever anybody but replica `c` may do now: callers learn only that it is a run of the protocol. */
    method Interfere(ghost c: nat, ghost held: Option<Held>)
      requires Valid() && Has(c, held)
      modifies this, store
      ensures Valid() && origin == old(origin)
      ensures StepsBy(steps, c) == StepsBy(old(steps), c)
      ensures Has(c, held)
    {
    }

    /** FetchMessage: the next record of the partition, if there is one. */
    method FetchMessage(c: nat, partition: nat) returns (held: Option<Held>)
      requires Valid() && Has(c, None)
      modifies this
      ensures Valid() && origin == old(origin) && Has(c, held) && store.View() == old(store.View())
      ensures held.Some? ==> held.value.p == Pending(partition, held.value.p.offset, ProcessPending, 0, None)
      ensures held.Some? <==> Enabled(old(View()), Fetch(c, partition))
      ensures held.Some? ==> Took(old(View()), old(steps), Fetch(c, partition))
      ensures held.None? ==> steps == old(steps)
      ensures held.Some? ==> held.value.p.offset == old(positions)[c][partition]
      ensures held.Some? ==> c in positions && partition < |positions[c]| == |old(positions)[c]|
      ensures held.Some? ==> positions[c][partition] == held.value.p.offset + 1
      ensures held.Some? ==> forall q :: 0 <= q < |positions[c]| && q != partition ==> positions[c][q] == old(positions)[c][q]
      ensures committed == old(committed) && topic == old(topic) && dlq == old(dlq)
    {
      hide Executable, After, CommittedInv, PositionsInv, PendingInv, HolderInv;
      ghost var (before, taken) := (View(), steps);
      if partition >= |topic| || positions[c][partition] >= |topic[partition]| { return None; }
      var offset := positions[c][partition];
      var p := Pending(partition, offset, ProcessPending, 0, None);
      held := Some(Held(p, topic[partition][offset]));
      positions := positions[c := positions[c][partition := offset + 1]];
      pending := pending[c := Some(p)];
      trace := trace + [Fetched(c, partition, offset, topic[partition][offset])];
      steps := steps + [Fetch(c, partition)];
      Extend(before, taken, Fetch(c, partition));
    }

    method Process(c: nat, ghost p: Pending, m: Message, env: Projection.Surroundings, text: string)
      returns (outcome: Projection.Outcome)
      requires Valid() && Has(c, Some(Held(p, m))) && p.stage == ProcessPending
      modifies this, store
      ensures Took(old(View()), old(steps), Attempt(c, env, text)) && origin == old(origin)
      ensures outcome == Projection.Handle(m.value, env).0
      ensures Has(c, Some(Held(AfterAttempt(p, outcome, text, maxTries), m)))
    {
      hide Executable, After, CommittedInv, PositionsInv, PendingInv, Projection.Handle, Projection.Project, AfterAttempt;
      ghost var (before, taken) := (View(), steps);
      var handler := new Handler(store);
      outcome := handler.HandleRecord(m.value, env);
      AttemptKeepsPlace(p, outcome, text, maxTries);
      pending := pending[c := Some(AfterAttempt(p, outcome, text, maxTries))];
      trace := trace + [Handled(c, p.partition, p.offset, m.value, env, outcome, text)];
      steps := steps + [Attempt(c, env, text)];
      Extend(before, taken, Attempt(c, env, text));
    }

    method WriteDlq(c: nat, p: Pending, m: Message, answer: Answer) returns (ok: bool)
      requires Valid() && Has(c, Some(Held(p, m))) && p.stage == DlqPending
      modifies this
      ensures Took(old(View()), old(steps), Step.WriteDlq(c, answer)) && origin == old(origin)
      ensures answer == NotDone ==> dlq == old(dlq)
      ensures answer != NotDone ==> |dlq| == |old(dlq)| + 1 && old(dlq) <= dlq && dlq[|old(dlq)|].key == m.key && dlq[|old(dlq)|].value == m.value
      ensures committed == old(committed) && topic == old(topic) && positions == old(positions)
      ensures ok <==> answer == Done
      ensures Has(c, Some(Held(if ok then p.(stage := CommitPending) else p, m)))
    {
      hide Executable, After, CommittedInv, PositionsInv, PendingInv;
      ghost var (before, taken) := (View(), steps);
      assert HolderInv(before, p);
      var headers := m.headers + [Header("failure-reason", p.failure.value.text)];
      var copy := Message(m.key, m.value, headers);
      if answer != NotDone { dlq := dlq + [copy]; }
      ok := answer == Done;
      if ok { pending := pending[c := Some(p.(stage := CommitPending))]; }
      trace := trace + [Copied(c, p.partition, p.offset, copy, answer)];
      steps := steps + [Step.WriteDlq(c, answer)];
      Extend(before, taken, Step.WriteDlq(c, answer));
    }

    method CommitMessages(c: nat, p: Pending, ghost m: Message, answer: Answer) returns (ok: bool)
      requires Valid() && Has(c, Some(Held(p, m))) && p.stage == CommitPending
      modifies this
      ensures Took(old(View()), old(steps), Commit(c, answer)) && origin == old(origin)
      ensures ok <==> answer == Done
      ensures p.partition < |committed| == |old(committed)| && (answer != NotDone ==> committed[p.partition] == p.offset + 1)
      ensures forall q :: 0 <= q < |committed| && (q != p.partition || answer == NotDone) ==> committed[q] == old(committed)[q]
      ensures topic == old(topic) && positions == old(positions) && dlq == old(dlq) && store.View() == old(store.View())
      ensures Has(c, if ok then None else Some(Held(p, m)))
    {
      hide Executable, After, CommittedInv, PositionsInv, PendingInv;
      ghost var (before, taken) := (View(), steps);
      if answer != NotDone { committed := committed[p.partition := p.offset + 1]; }
      ok := answer == Done;
      if ok { pending := pending[c := None]; }
      trace := trace + [CommitTried(c, p.partition, p.offset, answer)];
      steps := steps + [Commit(c, answer)];
      Extend(before, taken, Commit(c, answer));
    }

    /** The process is gone; its successor resumes from the committed offsets. */
    method Leave(c: nat, ghost held: Option<Held>)
      requires Valid() && Has(c, held)
      modifies this
      ensures Took(old(View()), old(steps), Stop(c)) && origin == old(origin) && Has(c, None)
      ensures c in positions && positions[c] == committed == old(committed)
    {
      hide Executable, After, CommittedInv, PositionsInv, PendingInv;
      ghost var (before, taken) := (View(), steps);
      positions := positions[c := committed];
      pending := pending[c := None];
      trace := trace + [Stopped(c)];
      steps := steps + [Stop(c)];
      Extend(before, taken, Stop(c));
    }
  }

  class IssueEventConsumer {
    const group: Group
    const c: nat
    const maxProcessAttempts: nat
    const maxCommitAttempts: nat

    /** Limits below one are raised to one. */
    constructor (group: Group, c: nat, maxProcessAttempts: int, maxCommitAttempts: int)
      ensures this.group == group && this.c == c
      ensures this.maxProcessAttempts == (if maxProcessAttempts < 1 then 1 else maxProcessAttempts)
      ensures this.maxCommitAttempts == (if maxCommitAttempts < 1 then 1 else maxCommitAttempts)
    {
      this.group, this.c := group, c;
      this.maxProcessAttempts := if maxProcessAttempts < 1 then 1 else maxProcessAttempts;
      this.maxCommitAttempts := if maxCommitAttempts < 1 then 1 else maxCommitAttempts;
    }

    ghost predicate Ready(held: Option<Held>)
      reads group, group.store
    {
      group.Valid() && group.maxTries == maxProcessAttempts && group.Has(c, held)
    }

    /** Whatever happens around it, the loop takes the steps of function Run, each of them allowed by the protocol, and
        leaves nothing held. */
    method RunLoop(ticks: seq<Tick>) returns (ghost got: seq<Option<Held>>)
      requires Ready(None)
      modifies group, group.store
      ensures Ready(None) && group.origin == old(group.origin) && |got| <= |ticks|
      ensures var d := Run(c, ticks[..|got|], got, maxProcessAttempts, maxCommitAttempts);
              (|got| == |ticks| || d.stopped) &&
              StepsBy(group.steps, c) == StepsBy(old(group.steps), c) + d.steps + [Stop(c)]
    {
      hide Inv, Enabled, Next, Executable, After, StepsBy, Iterate, Run, Group.Valid, Group.Has;
      var held: Option<Held> := None;
      var stopped := false;
      got := [];
      var i := 0;
      RunNothing(c, ticks, maxProcessAttempts, maxCommitAttempts);
      while i < |ticks| && !stopped
        invariant 0 <= i <= |ticks| && |got| == i
        invariant Ready(held) && group.origin == old(group.origin)
        invariant var d := Run(c, ticks[..i], got, maxProcessAttempts, maxCommitAttempts);
                  d.stopped == stopped && d.held == held &&
                  StepsBy(group.steps, c) == StepsBy(old(group.steps), c) + d.steps
      {
        var fetched: Option<Held> := None;
        var tick := ticks[i];
        group.Interfere(c, held);
        if held.None? {
          fetched := Fetch(tick);
          held := fetched;
        }
        RunOneMore(c, ticks, i, got, fetched, maxProcessAttempts, maxCommitAttempts);
        got := got + [fetched];
        if held.None? {
          stopped := tick.cancelled;
        } else {
          group.Interfere(c, held);
          held, stopped := IterateOnce(held.value, tick);
        }
        i := i + 1;
      }
      ghost var before := group.steps;
      group.Leave(c, held);
      StepsByOne(before, Stop(c), c);
      assert i == |ticks| ==> ticks[..i] == ticks;
    }

    method Fetch(tick: Tick) returns (held: Option<Held>)
      requires Ready(None)
      modifies group, group.store
      ensures Ready(held) && group.origin == old(group.origin)
      ensures StepsBy(group.steps, c) == StepsBy(old(group.steps), c) +
                (if held.Some? then [Step.Fetch(c, held.value.p.partition)] else [])
      ensures held.Some? ==> tick.fetch == Some(held.value.p.partition)
      ensures held.Some? ==> held.value.p == Pending(held.value.p.partition, held.value.p.offset, ProcessPending, 0, None)
    {
      hide Inv, Enabled, Next, Executable, After, StepsBy;
      if tick.fetch.None? { return None; }
      ghost var before := group.steps;
      held := group.FetchMessage(c, tick.fetch.value);
      if held.Some? { StepsByOne(before, Step.Fetch(c, tick.fetch.value), c); }
    }

    /** The switch over the stage of the pending record. */
    method IterateOnce(h: Held, tick: Tick) returns (held: Option<Held>, stopped: bool)
      requires Ready(Some(h))
      modifies group, group.store
      ensures Ready(held) && group.origin == old(group.origin)
      ensures var i := Iterate(c, h, tick, maxProcessAttempts, maxCommitAttempts);
              i.held == held && i.stopped == stopped && StepsBy(group.steps, c) == StepsBy(old(group.steps), c) + i.steps
    {
      hide Inv, Enabled, Next, Executable, After, StepsBy, CommitSteps, StillTrying, Commits, Projection.Handle;
      ghost var before := group.steps;
      match h.p.stage
      case ProcessPending =>
        var outcome := group.Process(c, h.p, h.message, tick.env, tick.text);
        StepsByOne(before, Attempt(c, tick.env, tick.text), c);
        var p := h.p;
        if outcome == Projection.Succeeded {
          p := p.(stage := CommitPending);
          stopped := false;
        } else {
          p := p.(attempts := p.attempts + 1, failure := Some(Failure(outcome == Projection.PermanentFailure, tick.text)));
          if outcome == Projection.PermanentFailure || p.attempts >= maxProcessAttempts {
            p := p.(stage := DlqPending);
            stopped := false;
          } else {
            stopped := tick.cancelled;
          }
        }
        held := Some(Held(p, h.message));
      case DlqPending =>
        var ok := group.WriteDlq(c, h.p, h.message, tick.dlq);
        StepsByOne(before, Step.WriteDlq(c, tick.dlq), c);
        held := Some(if ok then h.(p := h.p.(stage := CommitPending)) else h);
        stopped := !ok && tick.cancelled;
      case CommitPending =>
        var done, cancelled := CommitBatch(h, tick.commits);
        held := if done then None else Some(h);
        stopped := cancelled;
    }

    method CommitOnce(h: Held, answer: Answer) returns (done: bool)
      requires Ready(Some(h)) && h.p.stage == CommitPending
      modifies group, group.store
      ensures Ready(if done then None else Some(h)) && group.origin == old(group.origin) && (done <==> answer == Done)
      ensures StepsBy(group.steps, c) == StepsBy(old(group.steps), c) + [Commit(c, answer)]
    {
      hide Inv, Enabled, Next, Executable, After, StepsBy, Group.Valid, Group.Has;
      group.Interfere(c, Some(h));
      ghost var before := group.steps;
      done := group.CommitMessages(c, h.p, h.message, answer);
      StepsByOne(before, Commit(c, answer), c);
    }

    /** commit, and whether the context was cancelled. */
    method CommitBatch(h: Held, commits: nat -> CommitReply) returns (done: bool, cancelled: bool)
      requires Ready(Some(h)) && h.p.stage == CommitPending
      modifies group, group.store
      ensures Ready(if done then None else Some(h)) && group.origin == old(group.origin)
      ensures done <==> Commits(commits, maxCommitAttempts)
      ensures cancelled <==> !done && !StillTrying(commits, maxCommitAttempts)
      ensures StepsBy(group.steps, c) == StepsBy(old(group.steps), c) + CommitSteps(c, commits, maxCommitAttempts)
    {
      hide Inv, Enabled, Next, Executable, After, StepsBy, Group.Valid, Group.Has, Ready;
      done, cancelled := false, false;
      var attempt := 0;
      while attempt < maxCommitAttempts && !done && !cancelled
        invariant 0 <= attempt <= maxCommitAttempts
        invariant Ready(if done then None else Some(h)) && group.origin == old(group.origin)
        invariant !done && !cancelled ==> StillTrying(commits, attempt)
        invariant done ==> attempt > 0 && StillTrying(commits, attempt - 1) && commits(attempt - 1).answer == Done
        invariant cancelled ==> attempt > 0 && StillTrying(commits, attempt - 1) && commits(attempt - 1).answer != Done
        invariant cancelled ==> commits(attempt - 1).cancelled
        invariant !(done && cancelled)
        invariant StepsBy(group.steps, c) == StepsBy(old(group.steps), c) + CommitSteps(c, commits, attempt)
      {
        done := CommitOnce(h, commits(attempt).answer);
        cancelled := !done && commits(attempt).cancelled;
        attempt := attempt + 1;
      }
      if done || cancelled { NoMoreCommits(c, commits, attempt, maxCommitAttempts); }
      if done { assert Commits(commits, maxCommitAttempts); }
      if cancelled { OnlyOneEnd(commits, attempt - 1, maxCommitAttempts); }
    }

    static lemma {:induction false} NoMoreCommits(c: nat, commits: nat -> CommitReply, from: nat, tries: nat)
      requires 0 < from <= tries && (commits(from - 1).answer == Done || commits(from - 1).cancelled)
      ensures CommitSteps(c, commits, tries) == CommitSteps(c, commits, from)
    {
      if from < tries { NoMoreCommits(c, commits, from, tries - 1); }
    }

    static lemma OnlyOneEnd(commits: nat -> CommitReply, at: nat, tries: nat)
      requires at < tries && StillTrying(commits, at) && commits(at).answer != Done && commits(at).cancelled
      ensures !Commits(commits, tries) && !StillTrying(commits, tries)
    {
    }
  }
}
