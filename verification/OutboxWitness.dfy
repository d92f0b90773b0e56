/** Where the outbox does less than its documentation says: when a publisher outlives its lease beside another, or the
    record of a send given up comes too late, duplicates step back in the log; and in the first case an event can be
    attempted more than 20 times. The runs, for any publishers, and with them the exact conditions under which order and
    budget hold. */
module OutboxWitness {
  import opened Types
  import opened IssueDatabase
  import opened Outbox
  import opened OutboxRuns
  import opened OutboxLease

  /** The publishers, and the bounds their runs keep: a deadline for every claim, and how long after its row fell due again
      the record of a send given up may come. */
  datatype Setting = Setting(publishers: set<nat>, deadline: nat, grace: nat)

  ghost predicate RunIn(x: Setting, partitions: nat, steps: seq<Step>, s: State) {
    PunctualRun(x.publishers, partitions, steps, s, x.deadline, x.grace)
  }

  /** A run under construction, on one partition, with what its observer has noted. */
  datatype Run = Run(steps: seq<Step>, s: State, w: Watch)

  ghost predicate Good(x: Setting, r: Run) {
    RunIn(x, 1, r.steps, r.s) && Inv(r.s) && (InitialInv(x.publishers, 1);
    r.w == Watched(Initial(x.publishers, 1), NOTHING, r.steps))
  }

  lemma Take(x: Setting, r: Run, step: Step) returns (r': Run)
    requires Good(x, r) && Enabled(r.s, step) && OnTime(r.s, r.w, step, x.deadline, x.grace)
    ensures Good(x, r') && r'.w == AfterStep(r.w, r.s, step)
    ensures Keyed(r.s) && |r.s.topic| > 0 && r'.s == Next(r.s, step)
  {
    hide Enabled, Next, OnTime, AfterStep, RowsInv, PublishedInLog, ClaimsAreHeads, LogInv, AcksInv;
    InitialInv(x.publishers, 1);
    PunctualExtends(Initial(x.publishers, 1), NOTHING, r.steps, step, x.deadline, x.grace);
    NextKeepsInv(r.s, step);
    r' := Run(r.steps + [step], Next(r.s, step), AfterStep(r.w, r.s, step));
  }

  lemma Start(x: Setting) returns (r: Run)
    ensures Good(x, r) && r.s == State(map[], 0, Holding(x.publishers, {}), {}, [[]]) && r.w == NOTHING
  {
    InitialInv(x.publishers, 1);
    r := Run([], Initial(x.publishers, 1), NOTHING);
    assert r.s.publishers == Holding(x.publishers, {});
  }

  function EventOf(e: Uuid): Event {
    Event(e, 7, e, 1, "actor", IssueCommented(Issues.IssueKey("A", 1), 0, "", []), 0)
  }

  function RowOf(e: Uuid, published: bool, attempts: nat, due: Time): OutboxRow { OutboxRow(EventOf(e), published, attempts, due) }

  /** The publishers in `holders` have claimed event 1; the others are idle. */
  function Holding(publishers: set<nat>, holders: set<nat>): map<nat, Publisher> {
    map p | p in publishers :: if p in holders then Sending({1}, {}) else Idle
  }

  // Order

  function TwoRows(one: OutboxRow, two: OutboxRow): Rows { map[1 := one, 2 := two] }

  function Pair(publishers: set<nat>, p: nat, mine: Publisher, q: nat, other: Publisher): map<nat, Publisher> {
    map x | x in publishers :: if x == p then mine else if x == q then other else Idle
  }

  /** Two events of one issue, both due. */
  lemma TwoEvents(x: Setting) returns (r: Run)
    ensures Good(x, r) && r.w == NOTHING
    ensures r.s == State(TwoRows(RowOf(1, false, 0, 0), RowOf(2, false, 0, 0)), 0, Holding(x.publishers, {}), {}, [[]])
  {
    hide Good;
    r := Start(x);
    assert NextVersion(r.s.rows, RowOf(1, false, 0, 0));
    r := Take(x, r, Insert(RowOf(1, false, 0, 0)));
    assert r.s.rows[1].event.aggregateId == 7 && HasVersion(r.s.rows, 7, 1);
    assert NextVersion(r.s.rows, RowOf(2, false, 0, 0));
    r := Take(x, r, Insert(RowOf(2, false, 0, 0)));
    assert r.s.rows == TwoRows(RowOf(1, false, 0, 0), RowOf(2, false, 0, 0));
  }

  /** A claim of event 1, when it is due, leaves event 2 as it is. */
  lemma ClaimFirst(s: State, p: nat, attempts: nat, due: Time)
    requires |s.topic| > 0 && Keyed(s) && p in s.publishers && s.publishers[p] == Idle
    requires s.rows == TwoRows(RowOf(1, false, attempts, due), RowOf(2, false, 0, 0)) && due <= s.now && attempts < MAX_PUBLISH_ATTEMPTS
    ensures Enabled(s, Claim(p, {1}))
    ensures Next(s, Claim(p, {1})).rows == TwoRows(RowOf(1, false, attempts, s.now + LEASE_SECONDS), RowOf(2, false, 0, 0))
    ensures Next(s, Claim(p, {1})) == s.(rows := Next(s, Claim(p, {1})).rows, publishers := s.publishers[p := Sending({1}, {})],
                                         claimed := s.claimed + {1})
  {
    hide NextVersion, MarkPublished, RecordFailure, Append;
    assert Claimable(s.rows, s.now, 1);
  }

  lemma OneHoldsAtOnce(x: Setting, p: nat) returns (r: Run)
    requires p in x.publishers
    ensures Good(x, r) && p in r.w.at && r.w.at[p] == 0 && r.w.late == map[]
    ensures r.s == State(TwoRows(RowOf(1, false, 0, 30), RowOf(2, false, 0, 0)), 0, Holding(x.publishers, {p}), {1}, [[]])
  {
    hide Good, Enabled, Next;
    r := TwoEvents(x);
    assert Keyed(r.s);
    ClaimFirst(r.s, p, 0, 0);
    r := Take(x, r, Claim(p, {1}));
    assert r.s.publishers == Holding(x.publishers, {p}) && {} + {1} == {1};
  }

  lemma OneHolds(x: Setting, p: nat) returns (r: Run)
    requires p in x.publishers
    ensures Good(x, r) && p in r.w.at && r.w.at[p] == 0
    ensures r.s == State(TwoRows(RowOf(1, false, 0, 30), RowOf(2, false, 0, 0)), 30, Holding(x.publishers, {p}), {1}, [[]])
  {
    hide Good;
    r := OneHoldsAtOnce(x, p);
    r := Take(x, r, Advance(30));
  }

  /** Publisher p stays away until its lease ends, and publisher q claims the same event. */
  lemma BothHold(x: Setting, p: nat, q: nat) returns (r: Run)
    requires p in x.publishers && q in x.publishers && p != q
    ensures Good(x, r) && p in r.w.at && r.w.at[p] == 0 && q in r.w.at && r.w.at[q] == 30
    ensures r.s == State(TwoRows(RowOf(1, false, 0, 60), RowOf(2, false, 0, 0)), 30,
                         Pair(x.publishers, p, Sending({1}, {}), q, Sending({1}, {})), {1}, [[]])
  {
    hide Good, Enabled, Next;
    r := OneHolds(x, p);
    assert Keyed(r.s);
    ClaimFirst(r.s, q, 0, 30);
    r := Take(x, r, Claim(q, {1}));
    assert r.s.publishers == Pair(x.publishers, p, Sending({1}, {}), q, Sending({1}, {}));
    assert {1} + {1} == {1};
  }

  lemma AppendOne(log: seq<Event>, e: Uuid)
    ensures Append([log], EventOf(e)) == [log + [EventOf(e)]]
  {
  }

  /** Publisher q publishes the head while publisher p still holds it. */
  lemma FirstPublished(x: Setting, p: nat, q: nat) returns (r: Run)
    requires p in x.publishers && q in x.publishers && p != q && x.deadline > LEASE_SECONDS
    ensures Good(x, r) && p in r.w.at && r.w.at[p] == 0 && q in r.w.at && r.w.at[q] == 30
    ensures r.s == State(TwoRows(RowOf(1, true, 0, 60), RowOf(2, false, 0, 0)), 30,
                         Pair(x.publishers, p, Sending({1}, {}), q, Idle), {1}, [[EventOf(1)]])
  {
    hide Good, Append;
    r := BothHold(x, p, q);
    r := Take(x, r, Deliver(q, 1, true));
    AppendOne([], 1);
    assert [] + [EventOf(1)] == [EventOf(1)] && {} + {1} == {1};
    assert r.s.publishers == Pair(x.publishers, p, Sending({1}, {}), q, Sending({1}, {1}));
    r := Take(x, r, Publish(q));
    assert r.s.rows == TwoRows(RowOf(1, true, 0, 60), RowOf(2, false, 0, 0));
    assert r.s.publishers == Pair(x.publishers, p, Sending({1}, {}), q, Idle);
  }

  lemma SecondClaimed(x: Setting, p: nat, q: nat) returns (r: Run)
    requires p in x.publishers && q in x.publishers && p != q && x.deadline > LEASE_SECONDS
    ensures Good(x, r) && p in r.w.at && r.w.at[p] == 0 && q in r.w.at && r.w.at[q] == 30
    ensures r.s == State(TwoRows(RowOf(1, true, 0, 60), RowOf(2, false, 0, 60)), 30,
                         Pair(x.publishers, p, Sending({1}, {}), q, Sending({2}, {})), {1, 2}, [[EventOf(1)]])
  {
    hide Good;
    r := FirstPublished(x, p, q);
    assert Claimable(r.s.rows, 30, 2);
    r := Take(x, r, Claim(q, {2}));
    assert r.s.rows == TwoRows(RowOf(1, true, 0, 60), RowOf(2, false, 0, 60)) && {1} + {2} == {1, 2};
    assert r.s.publishers == Pair(x.publishers, p, Sending({1}, {}), q, Sending({2}, {}));
  }

  lemma SecondSent(x: Setting, p: nat, q: nat) returns (r: Run)
    requires p in x.publishers && q in x.publishers && p != q && x.deadline > LEASE_SECONDS
    ensures Good(x, r) && p in r.w.at && r.w.at[p] == 0
    ensures r.s == State(TwoRows(RowOf(1, true, 0, 60), RowOf(2, false, 0, 60)), 30,
                         Pair(x.publishers, p, Sending({1}, {}), q, Sending({2}, {2})), {1, 2}, [[EventOf(1), EventOf(2)]])
  {
    hide Good, Append;
    r := SecondClaimed(x, p, q);
    r := Take(x, r, Deliver(q, 2, true));
    AppendOne([EventOf(1)], 2);
    assert [EventOf(1)] + [EventOf(2)] == [EventOf(1), EventOf(2)] && {} + {2} == {2};
    assert r.s.publishers == Pair(x.publishers, p, Sending({1}, {}), q, Sending({2}, {2}));
  }

  /** Any two publishers, one of which is allowed to send when its lease has just ended: the log of an issue reads
      1, 2, 1. */
  lemma DuplicatesCanStepBack(x: Setting, p: nat, q: nat) returns (steps: seq<Step>, s: State)
    requires p in x.publishers && q in x.publishers && p != q && x.deadline > LEASE_SECONDS
    ensures RunIn(x, 1, steps, s)
    ensures |s.topic| == 1 && VersionsIn(LogOf(s.topic, 7), 7) == [1, 2, 1]
  {
    var r := SecondSent(x, p, q);
    hide Inv, VersionsIn, Append;
    r := Take(x, r, Deliver(p, 1, true));
    AppendOne([EventOf(1), EventOf(2)], 1);
    assert [EventOf(1), EventOf(2)] + [EventOf(1)] == [EventOf(1), EventOf(2), EventOf(1)];
    assert r.s.topic == [[EventOf(1), EventOf(2), EventOf(1)]];
    StepBackLog();
    steps, s := r.steps, r.s;
  }

  lemma StepBackLog()
    ensures VersionsIn([EventOf(1), EventOf(2), EventOf(1)], 7) == [1, 2, 1]
  {
    var log := [EventOf(1), EventOf(2), EventOf(1)];
    assert log[..2] == [EventOf(1), EventOf(2)] && log[..2][..1] == [EventOf(1)] && [EventOf(1)][..0] == [];
    assert VersionsIn([EventOf(1)], 7) == [1];
    assert VersionsIn(log[..2], 7) == [1, 2];
  }

  // A record that comes late

  /** Publisher p gives up on version 1, whose record is still under way, and records the failure: the row is due again
      in a second. */
  lemma GivenUp(x: Setting, p: nat) returns (r: Run)
    requires p in x.publishers && x.deadline >= 1
    ensures Good(x, r) && r.w.late == map[1 := 1]
    ensures r.s == State(TwoRows(RowOf(1, false, 1, 1), RowOf(2, false, 0, 0)), 0, Holding(x.publishers, {}), {1}, [[]])
  {
    hide Good;
    r := OneHoldsAtOnce(x, p);
    r := Take(x, r, SendFailed(p));
    assert {1} - {} == {1};
    assert r.s.publishers == Holding(x.publishers, {p})[p := Failing({1})];
    assert r.w.gaveUp[p] == {1} && r.w.late == map[1 := 30];
    r := Take(x, r, Record(p, 1));
    assert {1} - {1} == {} && Pow2(0) == 1 && Backoff(0) == 1;
    assert r.s.publishers == Holding(x.publishers, {});
    assert r.s.rows == TwoRows(RowOf(1, false, 1, 1), RowOf(2, false, 0, 0));
    assert r.w.late == map[1 := 1];
  }

  /** When it is due again, p claims it, and this time the send is acknowledged... */
  lemma SentAgain(x: Setting, p: nat) returns (r: Run)
    requires p in x.publishers && x.deadline >= 1
    ensures Good(x, r) && r.w.late == map[1 := 1] && p in r.w.at && r.w.at[p] == 1
    ensures r.s == State(TwoRows(RowOf(1, false, 1, 31), RowOf(2, false, 0, 0)), 1,
                         Holding(x.publishers, {})[p := Sending({1}, {1})], {1}, [[EventOf(1)]])
  {
    hide Good, Append;
    r := GivenUp(x, p);
    r := Take(x, r, Advance(1));
    r := ClaimAgain(x, p, r);
    r := Take(x, r, Deliver(p, 1, true));
    AppendOne([], 1);
    assert [] + [EventOf(1)] == [EventOf(1)] && {} + {1} == {1};
    assert r.s.publishers == Holding(x.publishers, {})[p := Sending({1}, {1})];
  }

  /** ...and the event is marked published. */
  lemma PublishedAgain(x: Setting, p: nat) returns (r: Run)
    requires p in x.publishers && x.deadline >= 1
    ensures Good(x, r) && r.w.late == map[1 := 1]
    ensures r.s == State(TwoRows(RowOf(1, true, 1, 31), RowOf(2, false, 0, 0)), 1, Holding(x.publishers, {}), {1}, [[EventOf(1)]])
  {
    hide Good, Append;
    r := SentAgain(x, p);
    r := Take(x, r, Publish(p));
    assert r.s.rows == TwoRows(RowOf(1, true, 1, 31), RowOf(2, false, 0, 0));
    assert r.s.publishers == Holding(x.publishers, {});
  }

  lemma ClaimAgain(x: Setting, p: nat, r: Run) returns (r': Run)
    requires p in x.publishers && Good(x, r) && r.w.late == map[1 := 1]
    requires r.s == State(TwoRows(RowOf(1, false, 1, 1), RowOf(2, false, 0, 0)), 1, Holding(x.publishers, {}), {1}, [[]])
    ensures Good(x, r') && r'.w.late == map[1 := 1] && p in r'.w.at && r'.w.at[p] == 1
    ensures r'.s == State(TwoRows(RowOf(1, false, 1, 31), RowOf(2, false, 0, 0)), 1, Holding(x.publishers, {p}), {1}, [[]])
  {
    hide Good, Enabled, Next;
    assert Keyed(r.s);
    ClaimFirst(r.s, p, 1, 1);
    r' := Take(x, r, Claim(p, {1}));
    assert r'.s.publishers == Holding(x.publishers, {p}) && {1} + {1} == {1};
  }

  lemma SuccessorSent(x: Setting, p: nat) returns (r: Run)
    requires p in x.publishers && x.deadline >= 1
    ensures Good(x, r) && r.w.late == map[1 := 1] && r.s.now == 1 && 1 in r.s.claimed && r.s.topic == [[EventOf(1), EventOf(2)]]
    ensures 1 in r.s.rows && r.s.rows[1].event == EventOf(1)
  {
    hide Good, Append;
    r := PublishedAgain(x, p);
    assert Claimable(r.s.rows, 1, 2);
    r := Take(x, r, Claim(p, {2}));
    r := Take(x, r, Deliver(p, 2, true));
    AppendOne([EventOf(1)], 2);
    assert [EventOf(1)] + [EventOf(2)] == [EventOf(1), EventOf(2)];
  }

  /** Even one punctual publisher: if the record of a send given up may come at the moment its row falls due again, the log
      of an issue can read 1, 2, 1. */
  lemma LateRecordCanStepBack(x: Setting, p: nat) returns (steps: seq<Step>, s: State)
    requires p in x.publishers && x.deadline >= 1 && x.grace >= 1
    ensures RunIn(x, 1, steps, s)
    ensures |s.topic| == 1 && VersionsIn(LogOf(s.topic, 7), 7) == [1, 2, 1]
  {
    var r := SuccessorSent(x, p);
    hide Inv, VersionsIn, Append;
    r := Take(x, r, LateDeliver(1));
    AppendOne([EventOf(1), EventOf(2)], 1);
    assert [EventOf(1), EventOf(2)] + [EventOf(1)] == [EventOf(1), EventOf(2), EventOf(1)];
    assert r.s.topic == [[EventOf(1), EventOf(2), EventOf(1)]];
    StepBackLog();
    steps, s := r.steps, r.s;
  }

  // The attempt budget

  function OneRow(attempts: nat, due: Time): Rows { map[1 := RowOf(1, false, attempts, due)] }

  /** The run has reached: one event, with this many attempts, not yet overdue, claimed by these holders. */
  ghost predicate At(x: Setting, holders: set<nat>, attempts: nat, r: Run) {
    && Good(x, r) && 1 in r.s.rows && r.s.now <= r.s.rows[1].nextAttemptAt
    && r.s == State(OneRow(attempts, r.s.rows[1].nextAttemptAt), r.s.now, Holding(x.publishers, holders), r.s.claimed, [[]])
  }

  /** The row falls due, and publisher `p` claims it too. */
  lemma ClaimIt(x: Setting, holders: set<nat>, p: nat, attempts: nat, r: Run) returns (r': Run)
    requires At(x, holders, attempts, r) && attempts < MAX_PUBLISH_ATTEMPTS && p in x.publishers && p !in holders
    ensures At(x, holders + {p}, attempts, r')
    ensures r'.s.now == r.s.rows[1].nextAttemptAt && r'.s.rows[1].nextAttemptAt == r'.s.now + LEASE_SECONDS
    ensures r'.w.at == r.w.at[p := r'.s.now]
  {
    hide Good, NextVersion, MarkPublished, RecordFailure, Append, DueAfterLease, Unacked, Requeued, GaveUp;
    var due := r.s.rows[1].nextAttemptAt;
    r' := Take(x, r, Advance(due));
    assert Claimable(r'.s.rows, due, 1);
    r' := Take(x, r', Claim(p, {1}));
    assert r'.s.publishers == Holding(x.publishers, holders + {p});
    assert r'.s.rows == OneRow(attempts, due + LEASE_SECONDS);
  }

  lemma FailIt(x: Setting, holders: set<nat>, p: nat, attempts: nat, r: Run) returns (r': Run)
    requires At(x, holders, attempts, r) && p in x.publishers && p in holders && Open(r.w, r.s.now, p, x.deadline)
    ensures At(x, holders - {p}, attempts + 1, r')
    ensures r'.s.now == r.s.now && r'.w.at == r.w.at
  {
    hide Good, Pow2;
    r' := Take(x, r, SendFailed(p));
    assert r'.s.publishers == Holding(x.publishers, holders)[p := Failing({1})];
    r' := Take(x, r', Record(p, 1));
    assert {1} - {1} == {};
    assert r'.s.publishers == Holding(x.publishers, holders - {p});
    assert r'.s.rows == OneRow(attempts + 1, r'.s.rows[1].nextAttemptAt);
  }

  lemma OneEvent(x: Setting) returns (r: Run)
    ensures At(x, {}, 0, r)
  {
    r := Start(x);
    hide Good;
    assert NextVersion(r.s.rows, RowOf(1, false, 0, 0));
    r := Take(x, r, Insert(RowOf(1, false, 0, 0)));
  }

  lemma FailOnce(x: Setting, p: nat, attempts: nat, r: Run) returns (r': Run)
    requires At(x, {}, attempts, r) && attempts < MAX_PUBLISH_ATTEMPTS && p in x.publishers && x.deadline >= 1
    ensures At(x, {}, attempts + 1, r')
  {
    hide At;
    r' := ClaimIt(x, {}, p, attempts, r);
    r' := FailIt(x, {} + {p}, p, attempts, r');
    assert {} + {p} - {p} == {};
  }

  /** Publisher `p` alone fails as often as it likes. */
  lemma {:induction false} FailTimes(x: Setting, p: nat, attempts: nat) returns (r: Run)
    requires p in x.publishers && attempts < MAX_PUBLISH_ATTEMPTS && x.deadline >= 1
    ensures At(x, {}, attempts, r)
    decreases attempts
  {
    hide At;
    if attempts == 0 {
      r := OneEvent(x);
    } else {
      r := FailTimes(x, p, attempts - 1);
      r := FailOnce(x, p, attempts - 1, r);
    }
  }

  /** The holders claim the row one after another, as each lease ends. */
  lemma {:induction false} ClaimAll(x: Setting, holders: set<nat>, p: nat) returns (r: Run)
    requires p in x.publishers && holders <= x.publishers && x.deadline >= 1
    ensures At(x, holders, 19, r)
    ensures holders != {} ==> r.s.rows[1].nextAttemptAt == r.s.now + LEASE_SECONDS
    ensures forall q :: q in holders ==> q in r.w.at && r.s.now <= r.w.at[q] + (|holders| - 1) * LEASE_SECONDS
    decreases |holders|
  {
    hide At;
    if holders == {} {
      r := FailTimes(x, p, 19);
    } else {
      var q :| q in holders;
      var rest := holders - {q};
      var r0 := ClaimAll(x, rest, p);
      r := ClaimIt(x, rest, q, 19, r0);
      assert rest + {q} == holders && |rest| == |holders| - 1;
    }
  }

  lemma {:induction false} FailAll(x: Setting, holders: set<nat>, attempts: nat, r0: Run) returns (r: Run)
    requires holders <= x.publishers && At(x, holders, attempts, r0)
    requires forall q :: q in holders ==> Open(r0.w, r0.s.now, q, x.deadline)
    ensures At(x, {}, attempts + |holders|, r)
    decreases |holders|
  {
    hide At;
    if holders == {} {
      r := r0;
    } else {
      var q :| q in holders;
      r := FailIt(x, holders, q, attempts, r0);
      assert |holders - {q}| == |holders| - 1;
      r := FailAll(x, holders - {q}, attempts + 1, r);
    }
  }

  /** As many publishers as fit into the deadline, one lease apart, overrun the budget of 20 by all but one of them. */
  lemma PublishersOverrun(x: Setting, holders: set<nat>) returns (steps: seq<Step>, s: State)
    requires holders != {} && holders <= x.publishers && (|holders| - 1) * LEASE_SECONDS < x.deadline
    ensures RunIn(x, 1, steps, s)
    ensures 1 in s.rows && s.rows[1].attempts == MAX_PUBLISH_ATTEMPTS - 1 + |holders|
  {
    hide Inv, RunIn;
    var p :| p in holders;
    var r := ClaimAll(x, holders, p);
    r := FailAll(x, holders, 19, r);
    steps, s := r.steps, r.s;
  }

  // Exactly when

  /** In every run that keeps the bounds, the documented order: no issue's versions step back in the log. */
  ghost predicate KeepsOrder(x: Setting) {
    forall partitions: nat, steps, s :: RunIn(x, partitions, steps, s) ==> |s.topic| > 0 && LogsSorted(s)
  }

  /** In every run that keeps the bounds, no event is attempted more than 20 times. */
  ghost predicate KeepsBudget(x: Setting) {
    forall partitions: nat, steps, s :: RunIn(x, partitions, steps, s) ==> WithinBudget(s)
  }

  /** There is one publisher, or none outlives its lease. */
  predicate WithinLease(x: Setting) { |x.publishers| <= 1 || x.deadline <= LEASE_SECONDS }

  /** Nobody can publish anything. */
  predicate Paralysed(x: Setting) { x.publishers == {} || x.deadline == 0 }

  lemma TwoOf(publishers: set<nat>) returns (p: nat, q: nat)
    requires |publishers| > 1
    ensures p in publishers && q in publishers && p != q
  {
    p :| p in publishers;
    assert |publishers - {p}| == |publishers| - 1;
    q :| q in publishers - {p};
  }

  lemma {:induction false} NobodyLogs(s: State, steps: seq<Step>)
    requires Inv(s) && Executable(s, steps) && s.publishers == map[] && s.claimed == {}
    ensures Timely(s, steps)
    decreases |steps|
  {
    hide RowsInv, PublishedInLog, ClaimsAreHeads, LogInv, AcksInv, Claimable, NextVersion;
    if steps != [] {
      NextKeepsInv(s, steps[0]);
      NobodyLogs(Next(s, steps[0]), steps[1..]);
    }
  }

  lemma ParalysedKeepsOrder(x: Setting, partitions: nat, steps: seq<Step>, s: State)
    requires Paralysed(x) && RunIn(x, partitions, steps, s)
    ensures Inv(s) && LogsSorted(s)
  {
    hide Executable, Punctual, Timely, LogsSorted, RowsInv, PublishedInLog, ClaimsAreHeads, LogInv, AcksInv;
    InitialInv(x.publishers, partitions);
    var s0 := Initial(x.publishers, partitions);
    if x.publishers == {} {
      assert s0.publishers == map[];
      NobodyLogs(s0, steps);
    } else {
      NothingMarked(s0, NOTHING, steps, x.grace);
    }
    NothingLoggedIsSorted(x.publishers, partitions);
    TimelyRunsKeepOrder(s0, steps);
  }

  /** The documented order, exactly: it holds in every run that keeps the bounds if and only if one publisher works or
      none outlives its lease, and the record of a send given up always comes before its row falls due again (or nobody
      can publish at all). */
  lemma OrderHoldsExactlyWhen(x: Setting)
    ensures KeepsOrder(x) <==> (WithinLease(x) && x.grace == 0) || Paralysed(x)
  {
    hide RunIn, Inv, LogsSorted;
    if (WithinLease(x) && x.grace == 0) || Paralysed(x) {
      forall partitions: nat, steps, s | RunIn(x, partitions, steps, s) ensures |s.topic| > 0 && LogsSorted(s) {
        if Paralysed(x) { ParalysedKeepsOrder(x, partitions, steps, s); } else { ProtectedInSetting(x, partitions, steps, s); }
        TopicIsThere(s);
      }
    } else if x.grace == 0 {
      var p, q := TwoOf(x.publishers);
      var steps, s := DuplicatesCanStepBack(x, p, q);
      NotSorted(s);
    } else {
      var p :| p in x.publishers;
      var steps, s := LateRecordCanStepBack(x, p);
      NotSorted(s);
    }
  }

  lemma ProtectedInSetting(x: Setting, partitions: nat, steps: seq<Step>, s: State)
    requires RunIn(x, partitions, steps, s) && WithinLease(x)
    ensures Inv(s) && WithinBudget(s) && (x.grace == 0 ==> LogsSorted(s))
  {
    hide PunctualRun, Inv, LogsSorted, WithinBudget;
    LeasesProtect(x.publishers, partitions, steps, s, x.deadline, x.grace);
  }

  lemma TopicIsThere(s: State)
    requires Inv(s)
    ensures |s.topic| > 0
  {
  }

  lemma NotSorted(s: State)
    requires |s.topic| == 1 && VersionsIn(LogOf(s.topic, 7), 7) == [1, 2, 1]
    ensures !LogsSorted(s)
  {
    assert VersionsIn(LogOf(s.topic, 7), 7)[1] > VersionsIn(LogOf(s.topic, 7), 7)[2];
  }

  /** The attempt budget, exactly: late records do not matter to it. */
  lemma BudgetHoldsExactlyWhen(x: Setting)
    ensures KeepsBudget(x) <==> WithinLease(x)
  {
    hide RunIn, Inv;
    if WithinLease(x) {
      forall partitions: nat, steps, s | RunIn(x, partitions, steps, s) ensures WithinBudget(s) {
        ProtectedInSetting(x, partitions, steps, s);
      }
    } else {
      var p, q := TwoOf(x.publishers);
      assert |{p, q}| == 2;
      var steps, s := PublishersOverrun(x, {p, q});
      assert !WithinBudget(s);
    }
  }

  /** With no bounds at all: the most attempts an event can make is 19 plus one per publisher, and that many are made in
      some run. */
  lemma MostAttempts(publishers: set<nat>) returns (partitions: nat, steps: seq<Step>, s: State)
    requires publishers != {}
    ensures RunsTo(publishers, partitions, steps, s) && 1 in s.rows && s.rows[1].attempts == MAX_PUBLISH_ATTEMPTS - 1 + |publishers|
    ensures forall partitions': nat, steps', s', e :: RunsTo(publishers, partitions', steps', s') && e in s'.rows
              ==> s'.rows[e].attempts <= MAX_PUBLISH_ATTEMPTS - 1 + |publishers|
  {
    hide Executable;
    partitions := 1;
    steps, s := PublishersOverrun(Setting(publishers, |publishers| * LEASE_SECONDS, 0), publishers);
    forall partitions': nat, steps', s', e | RunsTo(publishers, partitions', steps', s') && e in s'.rows
      ensures s'.rows[e].attempts <= MAX_PUBLISH_ATTEMPTS - 1 + |publishers|
    {
      AttemptsBounded(publishers, partitions', steps', s', e);
    }
  }
}
