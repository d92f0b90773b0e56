/** What the claim's lease and the retry delay guarantee: to publishers that work off each claim, or stop, before a
    deadline counted from the claim, when the records of sends given up arrive, if at all, before the row falls due again
    (apps/issue-service-nest/src/infrastructure/postgres-issue.repository.ts). */
module OutboxLease {
  import opened Types
  import opened IssueDatabase
  import opened Outbox
  import opened OutboxRuns

  // Clocks

  /** What an observer notes of a run: when each publisher made its latest claim, which of that claim's sends it has given
      up, and when the row of a given-up send falls due again. */
  datatype Watch = Watch(at: map<nat, Time>, gaveUp: map<nat, set<Uuid>>, late: map<Uuid, Time>)

  const NOTHING := Watch(map[], map[], map[])

  function GaveUp(w: Watch, p: nat): set<Uuid> { if p in w.gaveUp then w.gaveUp[p] else {} }

  /** The sends a publisher leaves unacknowledged if it stops now. */
  function Unacked(s: State, p: nat): set<Uuid> {
    if p in s.publishers && s.publishers[p].Sending? then s.publishers[p].batch - s.publishers[p].acked else {}
  }

  /** Given up before any failure record, the rows fall due when the lease of the claim ends. */
  function DueAfterLease(w: Watch, p: nat, lost: set<Uuid>): map<Uuid, Time> {
    w.late + map e | e in lost && p in w.at ::
      if e in w.late && w.late[e] > w.at[p] + LEASE_SECONDS then w.late[e] else w.at[p] + LEASE_SECONDS
  }

  function AfterStep(w: Watch, s: State, step: Step): Watch {
    match step
    case Claim(p, _) => w.(at := w.at[p := s.now], gaveUp := w.gaveUp[p := {}])
    case SendFailed(p) => w.(gaveUp := w.gaveUp[p := Unacked(s, p)], late := DueAfterLease(w, p, Unacked(s, p)))
    case Crash(p) => w.(late := DueAfterLease(w, p, Unacked(s, p)))
    case Record(p, e) =>
      if e in GaveUp(w, p) && e in s.rows then w.(late := w.late[e := s.now + Backoff(s.rows[e].attempts)]) else w
    case Requeue => w.(late := map e | e in w.late :: if Requeued(s, e) && s.now < w.late[e] then s.now else w.late[e])
    case _ => w
  }

  predicate Requeued(s: State, e: Uuid) {
    e in s.rows && !s.rows[e].published && s.rows[e].attempts >= MAX_PUBLISH_ATTEMPTS
  }

  predicate Open(w: Watch, now: Time, p: nat, deadline: nat) { p in w.at && now < w.at[p] + deadline }

  /** Sending, marking and recording come before the deadline of the claim. A record of a send given up comes less than
      `grace` seconds after its row fell due again; with no grace, before that. */
  predicate OnTime(s: State, w: Watch, step: Step, deadline: nat, grace: nat) {
    match step
    case Deliver(p, _, _) => Open(w, s.now, p, deadline)
    case Publish(p) => Open(w, s.now, p, deadline)
    case MarkFailed(p, _) => Open(w, s.now, p, deadline)
    case SendFailed(p) => Open(w, s.now, p, deadline)
    case Record(p, _) => Open(w, s.now, p, deadline)
    case LateDeliver(e) => e in w.late && s.now < w.late[e] + grace
    case _ => true
  }

  ghost predicate Punctual(s: State, w: Watch, steps: seq<Step>, deadline: nat, grace: nat)
    requires Inv(s) && Executable(s, steps)
    decreases |steps|
  {
    steps == [] ||
    (OnTime(s, w, steps[0], deadline, grace) &&
     (NextKeepsInv(s, steps[0]); Punctual(Next(s, steps[0]), AfterStep(w, s, steps[0]), steps[1..], deadline, grace)))
  }

  /** What the observer has noted once the steps are done. */
  ghost function Watched(s: State, w: Watch, steps: seq<Step>): Watch
    requires Inv(s) && Executable(s, steps)
    decreases |steps|
  {
    if steps == [] then w
    else NextKeepsInv(s, steps[0]); Watched(Next(s, steps[0]), AfterStep(w, s, steps[0]), steps[1..])
  }

  /** A run of these publishers, from nothing, that keeps both bounds. */
  ghost predicate PunctualRun(publishers: set<nat>, partitions: nat, steps: seq<Step>, s: State, deadline: nat, grace: nat) {
    RunsTo(publishers, partitions, steps, s) && (InitialInv(publishers, partitions);
    Punctual(Initial(publishers, partitions), NOTHING, steps, deadline, grace))
  }

  // The invariant. A lone publisher (`solo`) is protected without any deadline, several by their leases.

  ghost predicate Alone(publishers: set<nat>) { forall p, q :: p in publishers && q in publishers ==> p == q }

  /** The claim on `e` that publisher `p` works off is protected. */
  predicate Leases(s: State, w: Watch, p: nat, e: Uuid, solo: bool) {
    p in s.publishers && p in w.at && (solo || Open(w, s.now, p, LEASE_SECONDS)) && e in Held(s.publishers[p])
  }

  /** Such a row is due only after the lease, has attempts left, and is unpublished while it is sent or after its send was
      given up. */
  predicate LeasedRow(s: State, w: Watch, p: nat, e: Uuid)
    requires p in s.publishers && p in w.at
  {
    && e in s.rows && w.at[p] + LEASE_SECONDS <= s.rows[e].nextAttemptAt && s.rows[e].attempts < MAX_PUBLISH_ATTEMPTS
    && (s.publishers[p].Sending? || e in GaveUp(w, p) ==> !s.rows[e].published)
    && (s.publishers[p].Sending? ==> GaveUp(w, p) == {})
  }

  ghost predicate Exclusive(s: State, w: Watch, solo: bool) {
    forall p, q, e :: Leases(s, w, p, e, solo) && Leases(s, w, q, e, solo) ==> p == q
  }

  /** A record of a given-up send of `e` may still come. */
  predicate Awaited(s: State, w: Watch, e: Uuid) { e in w.late && s.now < w.late[e] }

  /** Then the row is unpublished and not yet due, and nobody but the one who gave it up holds it. */
  ghost predicate AwaitedRow(s: State, w: Watch, e: Uuid, solo: bool)
    requires Awaited(s, w, e)
  {
    && e in s.rows && !s.rows[e].published && w.late[e] <= s.rows[e].nextAttemptAt
    && forall p :: Leases(s, w, p, e, solo) ==> e in GaveUp(w, p)
  }

  ghost predicate WithinBudget(s: State) { forall e :: e in s.rows ==> s.rows[e].attempts <= MAX_PUBLISH_ATTEMPTS }

  ghost predicate LeasedInv(s: State, w: Watch, solo: bool) {
    && (solo ==> Alone(s.publishers.Keys) && forall p :: p in s.publishers && s.publishers[p] != Idle ==> p in w.at)
    && forall p, e :: Leases(s, w, p, e, solo) ==> LeasedRow(s, w, p, e)
  }

  ghost predicate AwaitedInv(s: State, w: Watch, solo: bool) {
    forall e :: Awaited(s, w, e) ==> AwaitedRow(s, w, e, solo)
  }

  ghost predicate LeaseInv(s: State, w: Watch, solo: bool) {
    LeasedInv(s, w, solo) && Exclusive(s, w, solo) && AwaitedInv(s, w, solo) && WithinBudget(s)
  }

  /** The step is one the invariant is for. */
  ghost predicate Allowed(s: State, w: Watch, step: Step, deadline: nat, grace: nat, solo: bool) {
    && |s.topic| > 0 && Keyed(s) && Enabled(s, step) && OnTime(s, w, step, deadline, grace)
    && (solo || deadline <= LEASE_SECONDS)
  }

  // One step

  /** The event is claimed by this step. */
  predicate Takes(step: Step, p: nat, e: Uuid) { step.Claim? && step.p == p && e in step.ids }

  /** Nobody gains an event but by claiming it. */
  lemma LeasesComeFromClaims(s: State, w: Watch, step: Step, p: nat, e: Uuid, solo: bool)
    requires |s.topic| > 0 && Keyed(s) && Enabled(s, step) && Leases(Next(s, step), AfterStep(w, s, step), p, e, solo)
    ensures Takes(step, p, e) || (Leases(s, w, p, e, solo) && !(step.Claim? && step.p == p))
    ensures Leases(s, w, p, e, solo) && Next(s, step).publishers[p].Sending? && !Takes(step, p, e) ==> s.publishers[p].Sending?
  {
    hide Lease, MarkPublished, RecordFailure, Append, Claimable, NextVersion, Unacked, DueAfterLease, GaveUp, Requeued;
  }

  /** A claim finds its rows due, unpublished, with attempts left, and makes them due after its lease. */
  lemma ClaimLeases(s: State, w: Watch, p: nat, ids: set<Uuid>, e: Uuid)
    requires |s.topic| > 0 && Keyed(s) && Enabled(s, Claim(p, ids)) && e in ids
    ensures e in s.rows && s.rows[e].nextAttemptAt <= s.now && s.rows[e].attempts < MAX_PUBLISH_ATTEMPTS
    ensures var (s', w') := (Next(s, Claim(p, ids)), AfterStep(w, s, Claim(p, ids)));
            Leases(s', w', p, e, false) && LeasedRow(s', w', p, e)
  {
    hide IsHead;
    assert Claimable(s.rows, s.now, e);
  }

  /** So no claim takes a row from a protected claim. */
  lemma LeasedIsNotTaken(s: State, w: Watch, step: Step, p: nat, q: nat, e: Uuid, solo: bool)
    requires |s.topic| > 0 && Keyed(s) && LeasedInv(s, w, solo) && Enabled(s, step) && Leases(s, w, p, e, solo)
    ensures !Takes(step, q, e)
  {
    assert LeasedRow(s, w, p, e);
    if Takes(step, q, e) {
      assert p in s.publishers.Keys && q in s.publishers.Keys;
      ClaimLeases(s, w, q, step.ids, e);
    }
  }

  /** The step changes row `e` in what protects it. */
  predicate Touches(s: State, step: Step, e: Uuid) {
    match step
    case Claim(_, ids) => e in ids
    case Publish(p) => p in s.publishers && e in Held(s.publishers[p])
    case MarkFailed(p, _) => p in s.publishers && e in Held(s.publishers[p])
    case Record(_, f) => e == f
    case Requeue => e in s.rows && s.rows[e].attempts >= MAX_PUBLISH_ATTEMPTS
    case Insert(row) => row.event.eventId == e
    case _ => false
  }

  lemma UntouchedRowStays(s: State, step: Step, e: Uuid)
    requires |s.topic| > 0 && Keyed(s) && Enabled(s, step) && e in s.rows && !Touches(s, step, e)
    ensures e in Next(s, step).rows && Next(s, step).rows[e] == s.rows[e]
  {
    hide Claimable, NextVersion, Append;
  }

  lemma FreshInsert(s: State, row: OutboxRow)
    requires Enabled(s, Insert(row))
    ensures row.event.eventId !in s.rows && row.attempts == 0
  {
  }

  /** A publisher that marks or records on time does so under its own protected claim. */
  lemma ActsUnderLease(s: State, w: Watch, step: Step, e: Uuid, deadline: nat, grace: nat, solo: bool)
    requires Allowed(s, w, step, deadline, grace, solo) && LeasedInv(s, w, solo)
    requires (step.Publish? || step.MarkFailed? || step.Record? || step.SendFailed? || step.Deliver?)
    requires step.p in s.publishers && e in Held(s.publishers[step.p])
    ensures Leases(s, w, step.p, e, solo)
  {
    hide Claimable, NextVersion;
  }

  lemma OnlyTheHolderTouches(s: State, w: Watch, step: Step, p: nat, e: Uuid, deadline: nat, grace: nat, solo: bool)
    requires Allowed(s, w, step, deadline, grace, solo) && LeasedInv(s, w, solo) && Exclusive(s, w, solo)
    requires Leases(s, w, p, e, solo) && Touches(s, step, e)
    ensures (step.Publish? || step.MarkFailed? || step.Record?) && step.p == p
  {
    hide Claimable, NextVersion, OnTime;
    assert LeasedRow(s, w, p, e);
    match step
    case Claim(q, ids) => LeasedIsNotTaken(s, w, step, p, q, e, solo);
    case Insert(row) => FreshInsert(s, row);
    case Publish(q) => ActsUnderLease(s, w, step, e, deadline, grace, solo);
    case MarkFailed(q, _) => ActsUnderLease(s, w, step, e, deadline, grace, solo);
    case Record(q, f) => ActsUnderLease(s, w, step, e, deadline, grace, solo);
    case _ =>
  }

  /** A holder that marks its batch no longer sends and has given nothing up; one that records a row lets go of it. */
  lemma HolderLetsGo(s: State, step: Step, p: nat, e: Uuid)
    requires |s.topic| > 0 && Keyed(s) && Enabled(s, step) && (step.Publish? || step.MarkFailed? || step.Record?) && step.p == p
    requires Touches(s, step, e) && e in s.rows && p in s.publishers
    ensures var s' := Next(s, step);
            && p in s'.publishers && e in s'.rows && !s'.publishers[p].Sending?
            && (e in Held(s'.publishers[p]) ==> step.MarkFailed? && s.publishers[p].Sending?)
            && (e in Held(s'.publishers[p]) ==> s'.rows[e].attempts == s.rows[e].attempts)
            && (e in Held(s'.publishers[p]) ==> s'.rows[e].nextAttemptAt == s.rows[e].nextAttemptAt)
  {
  }

  /** What the step notes of another publisher's claim, or of the holder's own when it does not give up or claim. */
  lemma NotesOfClaims(w: Watch, s: State, step: Step, p: nat)
    ensures !(step.Claim? && step.p == p) ==> (p in AfterStep(w, s, step).at <==> p in w.at)
    ensures !(step.Claim? && step.p == p) && p in w.at ==> AfterStep(w, s, step).at[p] == w.at[p]
    ensures !((step.Claim? || step.SendFailed?) && step.p == p) ==> GaveUp(AfterStep(w, s, step), p) == GaveUp(w, p)
    ensures step.SendFailed? && step.p == p ==> GaveUp(AfterStep(w, s, step), p) == Unacked(s, p)
  {
    hide DueAfterLease, Unacked, Requeued;
  }

  lemma GivingUpSettles(s: State, p: nat)
    requires |s.topic| > 0 && Keyed(s) && Enabled(s, SendFailed(p))
    ensures p in Next(s, SendFailed(p)).publishers && !Next(s, SendFailed(p)).publishers[p].Sending?
    ensures s.publishers[p].Sending? && Unacked(s, p) <= Held(s.publishers[p])
  {
  }

  lemma OldLeaseKeepsRow(s: State, w: Watch, step: Step, p: nat, e: Uuid, deadline: nat, grace: nat, solo: bool)
    requires Allowed(s, w, step, deadline, grace, solo) && LeasedInv(s, w, solo) && Exclusive(s, w, solo)
    requires Leases(s, w, p, e, solo) && !(step.Claim? && step.p == p) && Leases(Next(s, step), AfterStep(w, s, step), p, e, solo)
    ensures LeasedRow(Next(s, step), AfterStep(w, s, step), p, e)
  {
    assert LeasedRow(s, w, p, e);
    LeasesComeFromClaims(s, w, step, p, e, solo);
    NotesOfClaims(w, s, step, p);
    hide Next, Enabled, LeasedInv, Exclusive, AfterStep, OnTime, Unacked, GaveUp;
    if Touches(s, step, e) {
      OnlyTheHolderTouches(s, w, step, p, e, deadline, grace, solo);
      HolderLetsGo(s, step, p, e);
    } else {
      UntouchedRowStays(s, step, e);
      if step.SendFailed? && step.p == p {
        assert step == SendFailed(p);
        GivingUpSettles(s, p);
      }
    }
  }

  lemma StepKeepsExclusive(s: State, w: Watch, step: Step, solo: bool)
    requires |s.topic| > 0 && Keyed(s) && LeasedInv(s, w, solo) && Exclusive(s, w, solo) && Enabled(s, step)
    ensures Exclusive(Next(s, step), AfterStep(w, s, step), solo)
  {
    hide Next, Enabled, Leases, Keyed, AfterStep, LeasedInv;
    var (s', w') := (Next(s, step), AfterStep(w, s, step));
    forall p, q, e | Leases(s', w', p, e, solo) && Leases(s', w', q, e, solo) ensures p == q {
      LeasesComeFromClaims(s, w, step, p, e, solo);
      LeasesComeFromClaims(s, w, step, q, e, solo);
      if Leases(s, w, p, e, solo) { LeasedIsNotTaken(s, w, step, p, q, e, solo); }
      if Leases(s, w, q, e, solo) { LeasedIsNotTaken(s, w, step, q, p, e, solo); }
    }
  }

  lemma StepKeepsBudget(s: State, w: Watch, step: Step, deadline: nat, grace: nat, solo: bool)
    requires Allowed(s, w, step, deadline, grace, solo) && LeasedInv(s, w, solo) && WithinBudget(s)
    ensures WithinBudget(Next(s, step))
  {
    hide Claimable, NextVersion, Append;
    if step.Record? {
      ActsUnderLease(s, w, step, step.e, deadline, grace, solo);
      assert LeasedRow(s, w, step.p, step.e);
    }
    if step.Insert? { FreshInsert(s, step.row); }
  }

  lemma StepKeepsSolo(s: State, w: Watch, step: Step)
    requires |s.topic| > 0 && Keyed(s) && Enabled(s, step)
    requires Alone(s.publishers.Keys) && forall p :: p in s.publishers && s.publishers[p] != Idle ==> p in w.at
    ensures var (s', w') := (Next(s, step), AfterStep(w, s, step));
            Alone(s'.publishers.Keys) && forall p :: p in s'.publishers && s'.publishers[p] != Idle ==> p in w'.at
  {
    StepKeepsPublishers(s, step);
    hide Alone, Lease, MarkPublished, RecordFailure, Append, Claimable, NextVersion, Unacked, DueAfterLease, GaveUp, Requeued;
  }

  lemma StepKeepsLeased(s: State, w: Watch, step: Step, deadline: nat, grace: nat, solo: bool)
    requires Allowed(s, w, step, deadline, grace, solo) && LeasedInv(s, w, solo) && Exclusive(s, w, solo)
    ensures LeasedInv(Next(s, step), AfterStep(w, s, step), solo)
  {
    var (s', w') := (Next(s, step), AfterStep(w, s, step));
    if solo { StepKeepsSolo(s, w, step); }
    hide Next, Enabled, Leases, LeasedRow, OnTime, Keyed, AfterStep, Alone, Exclusive;
    forall p, e | Leases(s', w', p, e, solo) ensures LeasedRow(s', w', p, e) {
      LeasesComeFromClaims(s, w, step, p, e, solo);
      if Takes(step, p, e) {
        assert step == Claim(p, step.ids);
        ClaimLeases(s, w, p, step.ids, e);
      } else {
        OldLeaseKeepsRow(s, w, step, p, e, deadline, grace, solo);
      }
    }
  }

  // Awaited records

  /** The step opens a window for `e`: its send is given up, or its failure is recorded. */
  predicate Opens(s: State, w: Watch, step: Step, e: Uuid) {
    match step
    case SendFailed(p) => e in Unacked(s, p)
    case Crash(p) => e in Unacked(s, p)
    case Record(p, f) => f == e && e in GaveUp(w, p)
    case _ => false
  }

  /** Any other window was open before, unless the row was requeued. */
  lemma AwaitedBefore(s: State, w: Watch, step: Step, e: Uuid)
    requires |s.topic| > 0 && Keyed(s) && Enabled(s, step) && Awaited(Next(s, step), AfterStep(w, s, step), e)
    requires !Opens(s, w, step, e)
    ensures Awaited(s, w, e) && AfterStep(w, s, step).late[e] == w.late[e] && !(step.Requeue? && Requeued(s, e))
  {
    hide Lease, MarkPublished, RecordFailure, Append, Claimable, NextVersion, Unacked, GaveUp, Requeued, Keyed;
  }

  /** While a record is awaited its row is left alone, but for the failure record that sets the window anew. */
  lemma AwaitedIsUntouched(s: State, w: Watch, step: Step, e: Uuid, deadline: nat, grace: nat, solo: bool)
    requires Allowed(s, w, step, deadline, grace, solo) && LeaseInv(s, w, solo)
    requires Awaited(s, w, e) && !Opens(s, w, step, e) && !(step.Requeue? && Requeued(s, e))
    ensures !Touches(s, step, e)
  {
    hide Claimable, NextVersion, OnTime, Exclusive, WithinBudget, Unacked;
    assert AwaitedRow(s, w, e, solo);
    match step
    case Claim(q, ids) => if e in ids { ClaimLeases(s, w, q, ids, e); }
    case Insert(row) => FreshInsert(s, row);
    case Publish(q) =>
      if e in Held(s.publishers[q]) { ActsUnderLease(s, w, step, e, deadline, grace, solo); }
    case MarkFailed(q, _) =>
      if e in Held(s.publishers[q]) { ActsUnderLease(s, w, step, e, deadline, grace, solo); }
    case Record(q, f) => if e == f { ActsUnderLease(s, w, step, e, deadline, grace, solo); }
    case _ =>
  }

  lemma OldWindowKeepsRow(s: State, w: Watch, step: Step, e: Uuid, deadline: nat, grace: nat, solo: bool)
    requires Allowed(s, w, step, deadline, grace, solo) && LeaseInv(s, w, solo)
    requires Awaited(Next(s, step), AfterStep(w, s, step), e) && !Opens(s, w, step, e)
    ensures AwaitedRow(Next(s, step), AfterStep(w, s, step), e, solo)
  {
    hide Next, Enabled, OnTime, LeasedInv, Exclusive, WithinBudget, AfterStep, Leases, Unacked, GaveUp;
    var (s', w') := (Next(s, step), AfterStep(w, s, step));
    AwaitedBefore(s, w, step, e);
    assert AwaitedRow(s, w, e, solo);
    AwaitedIsUntouched(s, w, step, e, deadline, grace, solo);
    UntouchedRowStays(s, step, e);
    forall p | Leases(s', w', p, e, solo) ensures e in GaveUp(w', p) {
      LeasesComeFromClaims(s, w, step, p, e, solo);
      NotesOfClaims(w, s, step, p);
      if step.SendFailed? && step.p == p { GivenUpStaysGivenUp(s, w, step, p, e, solo); }
    }
  }

  /** What was given up under this claim is not being sent again under it. */
  lemma GivenUpStaysGivenUp(s: State, w: Watch, step: Step, p: nat, e: Uuid, solo: bool)
    requires |s.topic| > 0 && Keyed(s) && LeasedInv(s, w, solo) && Enabled(s, step) && step == SendFailed(p)
    requires Leases(s, w, p, e, solo)
    ensures e !in GaveUp(w, p)
  {
    assert LeasedRow(s, w, p, e);
  }

  lemma NewWindow(s: State, w: Watch, step: Step, e: Uuid)
    requires |s.topic| > 0 && Keyed(s) && Enabled(s, step) && Opens(s, w, step, e)
    ensures (step.SendFailed? || step.Crash? || step.Record?) && step.p in s.publishers && e in Held(s.publishers[step.p])
    ensures step.Record? ==> e in s.rows && e in Next(s, step).rows && Next(s, step).rows[e].published == s.rows[e].published
    ensures step.Record? ==> AfterStep(w, s, step).late[e] == Next(s, step).rows[e].nextAttemptAt
    ensures !step.Record? ==> s.publishers[step.p].Sending? && !Touches(s, step, e)
    ensures !step.Record? && e in AfterStep(w, s, step).late ==>
              (e in w.late && AfterStep(w, s, step).late[e] == w.late[e]) ||
              (step.p in w.at && AfterStep(w, s, step).late[e] == w.at[step.p] + LEASE_SECONDS)
    ensures e !in Held(Next(s, step).publishers[step.p]) || step.SendFailed?
  {
    hide Claimable, NextVersion, Append, Lease, MarkPublished;
  }

  /** A publisher that gives up outside its lease opens no window. */
  lemma StaleOpensNothing(s: State, w: Watch, step: Step, e: Uuid, solo: bool)
    requires |s.topic| > 0 && Keyed(s) && LeasedInv(s, w, solo) && Enabled(s, step) && Opens(s, w, step, e) && step.Crash?
    requires Awaited(Next(s, step), AfterStep(w, s, step), e) && !Leases(s, w, step.p, e, solo)
    ensures Awaited(s, w, e) && AfterStep(w, s, step).late[e] == w.late[e]
  {
    hide Claimable, NextVersion;
    NewWindow(s, w, step, e);
  }

  lemma NewWindowProtectsRow(s: State, w: Watch, step: Step, e: Uuid, deadline: nat, grace: nat, solo: bool)
    requires Allowed(s, w, step, deadline, grace, solo) && LeaseInv(s, w, solo)
    requires Awaited(Next(s, step), AfterStep(w, s, step), e) && Opens(s, w, step, e) && Leases(s, w, step.p, e, solo)
    ensures AwaitedRow(Next(s, step), AfterStep(w, s, step), e, solo)
  {
    var (s', w', q) := (Next(s, step), AfterStep(w, s, step), step.p);
    assert LeasedRow(s, w, q, e);
    NewWindow(s, w, step, e);
    if Awaited(s, w, e) { assert AwaitedRow(s, w, e, solo); }
    NotesOfClaims(w, s, step, q);
    hide Next, Enabled, OnTime, LeasedInv, WithinBudget, AfterStep, Leases, AwaitedInv, GaveUp;
    if !step.Record? { UntouchedRowStays(s, step, e); }
    forall p | Leases(s', w', p, e, solo) ensures e in GaveUp(w', p) {
      LeasesComeFromClaims(s, w, step, p, e, solo);
      assert p == q;
      LeasedIsHeld(s', w', p, e, solo);
    }
  }

  lemma LeasedIsHeld(s: State, w: Watch, p: nat, e: Uuid, solo: bool)
    requires Leases(s, w, p, e, solo)
    ensures p in s.publishers && e in Held(s.publishers[p])
  {
  }

  lemma StepKeepsAwaited(s: State, w: Watch, step: Step, deadline: nat, grace: nat, solo: bool)
    requires Allowed(s, w, step, deadline, grace, solo) && LeaseInv(s, w, solo)
    ensures AwaitedInv(Next(s, step), AfterStep(w, s, step), solo)
  {
    hide Next, Enabled, OnTime, Keyed, AfterStep, Leases, Opens, Awaited, AwaitedRow, LeasedInv, Exclusive, WithinBudget;
    var (s', w') := (Next(s, step), AfterStep(w, s, step));
    forall e | Awaited(s', w', e) ensures AwaitedRow(s', w', e, solo) {
      if !Opens(s, w, step, e) {
        OldWindowKeepsRow(s, w, step, e, deadline, grace, solo);
      } else {
        GaveUpUnderLease(s, w, step, e, deadline, grace, solo);
      }
    }
  }

  lemma GaveUpUnderLease(s: State, w: Watch, step: Step, e: Uuid, deadline: nat, grace: nat, solo: bool)
    requires Allowed(s, w, step, deadline, grace, solo) && LeaseInv(s, w, solo)
    requires Awaited(Next(s, step), AfterStep(w, s, step), e) && Opens(s, w, step, e)
    ensures AwaitedRow(Next(s, step), AfterStep(w, s, step), e, solo)
  {
    hide Next, Enabled, OnTime, AfterStep, Leases, LeasedInv, AwaitedInv, Exclusive, WithinBudget, Unacked, GaveUp;
    NewWindow(s, w, step, e);
    if step.Crash? {
      if Leases(s, w, step.p, e, solo) {
        NewWindowProtectsRow(s, w, step, e, deadline, grace, solo);
      } else {
        CrashOutsideLease(s, w, step, e, deadline, grace, solo);
      }
    } else {
      ActsUnderLease(s, w, step, e, deadline, grace, solo);
      NewWindowProtectsRow(s, w, step, e, deadline, grace, solo);
    }
  }

  lemma CrashOutsideLease(s: State, w: Watch, step: Step, e: Uuid, deadline: nat, grace: nat, solo: bool)
    requires Allowed(s, w, step, deadline, grace, solo) && LeaseInv(s, w, solo) && step.Crash?
    requires Awaited(Next(s, step), AfterStep(w, s, step), e) && Opens(s, w, step, e) && !Leases(s, w, step.p, e, solo)
    ensures AwaitedRow(Next(s, step), AfterStep(w, s, step), e, solo)
  {
    var (s', w') := (Next(s, step), AfterStep(w, s, step));
    StaleOpensNothing(s, w, step, e, solo);
    assert AwaitedRow(s, w, e, solo);
    NewWindow(s, w, step, e);
    hide Next, Enabled, OnTime, LeasedInv, Exclusive, WithinBudget, AfterStep, Leases, AwaitedInv, GaveUp, Unacked;
    UntouchedRowStays(s, step, e);
    forall p | Leases(s', w', p, e, solo) ensures e in GaveUp(w', p) {
      LeasesComeFromClaims(s, w, step, p, e, solo);
      NotesOfClaims(w, s, step, p);
    }
  }

  lemma StepKeepsLeases(s: State, w: Watch, step: Step, deadline: nat, grace: nat, solo: bool)
    requires Allowed(s, w, step, deadline, grace, solo) && LeaseInv(s, w, solo)
    ensures LeaseInv(Next(s, step), AfterStep(w, s, step), solo)
  {
    hide Next, Enabled, OnTime, Keyed, AfterStep, LeasedInv, Exclusive, AwaitedInv, WithinBudget;
    StepKeepsLeased(s, w, step, deadline, grace, solo);
    StepKeepsExclusive(s, w, step, solo);
    StepKeepsAwaited(s, w, step, deadline, grace, solo);
    StepKeepsBudget(s, w, step, deadline, grace, solo);
  }

  lemma ArrivesInTime(s: State, w: Watch, step: Step, deadline: nat, solo: bool)
    requires Allowed(s, w, step, deadline, 0, solo) && LeaseInv(s, w, solo)
    ensures IsTimely(s, step)
  {
    hide Claimable, NextVersion, Exclusive, WithinBudget;
    if step.Deliver? {
      ActsUnderLease(s, w, step, step.e, deadline, 0, solo);
      assert LeasedRow(s, w, step.p, step.e);
    }
    if step.LateDeliver? { assert Awaited(s, w, step.e) && AwaitedRow(s, w, step.e, solo); }
  }

  // Whole runs

  lemma {:induction false} PunctualRunKeepsLeases(s: State, w: Watch, steps: seq<Step>, deadline: nat, grace: nat, solo: bool)
    requires Inv(s) && LeaseInv(s, w, solo) && Executable(s, steps) && Punctual(s, w, steps, deadline, grace)
    requires solo || deadline <= LEASE_SECONDS
    ensures LeaseInv(After(s, steps), Watched(s, w, steps), solo)
    ensures grace == 0 ==> Timely(s, steps)
    decreases |steps|
  {
    hide RowsInv, PublishedInLog, ClaimsAreHeads, LogInv, AcksInv, Enabled, Next, LeaseInv, OnTime, IsTimely, Keyed, AfterStep;
    if steps != [] {
      NextKeepsInv(s, steps[0]);
      if grace == 0 { ArrivesInTime(s, w, steps[0], deadline, solo); }
      StepKeepsLeases(s, w, steps[0], deadline, grace, solo);
      PunctualRunKeepsLeases(Next(s, steps[0]), AfterStep(w, s, steps[0]), steps[1..], deadline, grace, solo);
    }
  }

  lemma NothingLeased(publishers: set<nat>, partitions: nat, solo: bool)
    requires partitions > 0 && (solo ==> |publishers| <= 1)
    ensures LeaseInv(Initial(publishers, partitions), NOTHING, solo)
  {
    if solo {
      forall p, q | p in publishers && q in publishers ensures p == q { OneMember(publishers, p, q); }
      assert Initial(publishers, partitions).publishers.Keys == publishers;
    }
  }

  lemma OneMember(publishers: set<nat>, p: nat, q: nat)
    requires |publishers| <= 1 && p in publishers && q in publishers
    ensures p == q
  {
    if p != q { SubsetSize({p, q}, publishers); }
  }

  /** One publisher, however slow, or any number that work off each claim before its lease ends: no event is worked on by
      two of them at once under running leases, and none is attempted more than 20 times. If besides the record of a send
      given up comes, if at all, before its row falls due again, no issue's versions ever step back in the log. */
  lemma LeasesProtect(publishers: set<nat>, partitions: nat, steps: seq<Step>, s: State, deadline: nat, grace: nat)
    requires PunctualRun(publishers, partitions, steps, s, deadline, grace)
    requires |publishers| <= 1 || deadline <= LEASE_SECONDS
    ensures Inv(s) && WithinBudget(s) && (grace == 0 ==> LogsSorted(s))
    ensures Inv(Initial(publishers, partitions))
    ensures Exclusive(s, Watched(Initial(publishers, partitions), NOTHING, steps), |publishers| <= 1)
  {
    hide Executable, Punctual, Timely, LogsSorted, Exclusive, WithinBudget, RowsInv, PublishedInLog, ClaimsAreHeads, LogInv, AcksInv, Keyed,
         LeasedInv, AwaitedInv;
    var solo := |publishers| <= 1;
    InitialInv(publishers, partitions);
    NothingLoggedIsSorted(publishers, partitions);
    NothingLeased(publishers, partitions, solo);
    PunctualRunKeepsLeases(Initial(publishers, partitions), NOTHING, steps, deadline, grace, solo);
    if grace == 0 { TimelyRunsKeepOrder(Initial(publishers, partitions), steps); }
  }

  // With a deadline of nothing, nothing is ever marked

  ghost predicate ClaimsArePast(s: State, w: Watch) { forall p :: p in w.at ==> w.at[p] <= s.now }

  lemma ClaimsStayPast(s: State, w: Watch, step: Step)
    requires |s.topic| > 0 && Keyed(s) && Enabled(s, step) && ClaimsArePast(s, w)
    ensures ClaimsArePast(Next(s, step), AfterStep(w, s, step))
  {
    hide Claimable, NextVersion, Append, Lease, MarkPublished, RecordFailure, Unacked, DueAfterLease, GaveUp, Requeued;
  }

  lemma {:induction false} NothingMarked(s: State, w: Watch, steps: seq<Step>, grace: nat)
    requires Inv(s) && Executable(s, steps) && Punctual(s, w, steps, 0, grace) && ClaimsArePast(s, w)
    requires forall e :: e in s.rows ==> !s.rows[e].published
    ensures Timely(s, steps)
    decreases |steps|
  {
    hide RowsInv, PublishedInLog, ClaimsAreHeads, LogInv, AcksInv, Enabled, Next, AfterStep, ClaimsArePast;
    if steps != [] {
      NextKeepsInv(s, steps[0]);
      IdleStepMarksNothing(s, w, steps[0], grace);
      ClaimsStayPast(s, w, steps[0]);
      NothingMarked(Next(s, steps[0]), AfterStep(w, s, steps[0]), steps[1..], grace);
    }
  }

  lemma OnlyMarkingPublishes(s: State, step: Step, e: Uuid)
    requires |s.topic| > 0 && Keyed(s) && Enabled(s, step) && e in s.rows && !step.Publish? && !step.MarkFailed?
    ensures e in Next(s, step).rows && Next(s, step).rows[e].published == s.rows[e].published
  {
    hide Claimable, Append, NextVersion;
    if step.Insert? { FreshInsert(s, step.row); }
  }

  lemma IdleStepMarksNothing(s: State, w: Watch, step: Step, grace: nat)
    requires Inv(s) && Enabled(s, step) && OnTime(s, w, step, 0, grace) && ClaimsArePast(s, w)
    requires forall e :: e in s.rows ==> !s.rows[e].published
    ensures forall e :: e in Next(s, step).rows ==> !Next(s, step).rows[e].published
    ensures IsTimely(s, step)
  {
    hide RowsInv, PublishedInLog, ClaimsAreHeads, LogInv, AcksInv, Claimable, HasVersion;
    var s' := Next(s, step);
    forall e | e in s'.rows ensures !s'.rows[e].published {
      if e in s.rows {
        OnlyMarkingPublishes(s, step, e);
      } else {
        assert step.Insert?;
      }
    }
  }

  // Longer runs

  lemma OneStepRuns(s: State, step: Step)
    requires Inv(s) && Enabled(s, step)
    ensures Executable(s, [step]) && After(s, [step]) == Next(s, step)
  {
    hide Enabled, Next, RowsInv, PublishedInLog, ClaimsAreHeads, LogInv, AcksInv;
    NextKeepsInv(s, step);
    assert [step][1..] == [];
  }

  lemma {:induction false} PunctualExtends(s: State, w: Watch, steps: seq<Step>, step: Step, deadline: nat, grace: nat)
    requires Inv(s) && Executable(s, steps) && Punctual(s, w, steps, deadline, grace) && Enabled(After(s, steps), step)
    requires OnTime(After(s, steps), Watched(s, w, steps), step, deadline, grace)
    ensures Executable(s, steps + [step]) && Punctual(s, w, steps + [step], deadline, grace)
    ensures After(s, steps + [step]) == Next(After(s, steps), step)
    ensures Watched(s, w, steps + [step]) == AfterStep(Watched(s, w, steps), After(s, steps), step)
    decreases |steps|
  {
    hide RowsInv, PublishedInLog, ClaimsAreHeads, LogInv, AcksInv, Enabled, Next, OnTime, Keyed, AfterStep;
    if steps == [] {
      OneStepRuns(s, step);
      NextKeepsInv(s, step);
      assert [] + [step] == [step] && [step][1..] == [];
    } else {
      NextKeepsInv(s, steps[0]);
      PunctualExtends(Next(s, steps[0]), AfterStep(w, s, steps[0]), steps[1..], step, deadline, grace);
      assert (steps + [step])[1..] == steps[1..] + [step];
    }
  }
}
