/** The whole pipeline: issue writes, the outbox and its publishers, the topic, the consumer group and Redis, as one
    state machine. What the parts guarantee is put together end to end. */
module Pipeline {
  import opened Types
  import opened Text
  import Issues
  import D = IssueDatabase
  import H = IssueHistory
  import O = Outbox
  import R = OutboxRuns
  import P = Projection
  import C = Consumer
  import S = ConsumerSafety

  // The envelope

  /** Stands for the text of a UUID; only that it is not blank and names one UUID is used. */
  function UuidText(u: Uuid): (s: string)
    ensures s != "" && IsDigits(s) && Number(s) == u
  {
    if u < 10 then
      assert [DigitChar(u)][..0] == "";
      [DigitChar(u)]
    else
      var s := UuidText(u / 10) + [DigitChar(u % 10)];
      assert s[..|s| - 1] == UuidText(u / 10);
      s
  }

  function StatusText(status: Issues.Status): string {
    match status case Todo => "TODO" case InProgress => "IN_PROGRESS" case Done => "DONE"
  }

  function KeyText(key: Issues.IssueKey): string { key.projectKey + "-" + UuidText(key.number) }

  function TypeOf(payload: D.Payload): P.EventType {
    match payload
    case IssueCreated(_, _, _, _, _) => P.IssueCreated
    case IssueUpdated(_, _, _, _) => P.IssueUpdated
    case IssueAssigned(_, _, _, _) => P.IssueAssigned
    case IssueTransitioned(_, _, _, _) => P.IssueTransitioned
    case IssueCommented(_, _, _, _) => P.IssueCommented
  }

  function JsonOf(users: seq<string>): P.Json {
    P.JArray(seq(|users|, i requires 0 <= i < |users| => P.JString(users[i])))
  }

  /** The event as the consumer decodes it from the published JSON. */
  function Envelope(e: D.Event): P.IssueEvent {
    P.IssueEvent(UuidText(e.eventId), TypeOf(e.payload), 1, UuidText(e.aggregateId), UuidText(e.projectId), e.actor,
                 Some(e.occurredAt), JsonOf(e.payload.recipients), KeyText(e.payload.issueKey),
                 if e.payload.IssueTransitioned? then StatusText(e.payload.toStatus) else "")
  }

  function Encode(e: D.Event): C.Message { C.Message(UuidText(e.aggregateId), P.Decoded(Envelope(e)), []) }

  function EncodeLog(log: seq<D.Event>): seq<C.Message> {
    seq(|log|, i requires 0 <= i < |log| => Encode(log[i]))
  }

  function EncodeTopic(topic: O.Topic): seq<seq<C.Message>> {
    seq(|topic|, p requires 0 <= p < |topic| => EncodeLog(topic[p]))
  }

  lemma EncodeAppend(topic: O.Topic, e: D.Event)
    requires |topic| > 0
    ensures var q := O.PartitionOf(e.aggregateId, |topic|);
            EncodeTopic(O.Append(topic, e)) == EncodeTopic(topic)[q := EncodeTopic(topic)[q] + [Encode(e)]]
  {
    var q := O.PartitionOf(e.aggregateId, |topic|);
    assert EncodeLog(topic[q] + [e]) == EncodeLog(topic[q]) + [Encode(e)];
  }

  lemma {:induction false} StringsOfTexts(users: seq<string>)
    ensures P.StringsFrom(JsonOf(users)) == users
  {
    if users != [] {
      StringsOfTexts(users[1..]);
      assert JsonOf(users).items[1..] == JsonOf(users[1..]).items;
    } else {
      assert JsonOf(users).items == [];
    }
  }

  lemma DigitsAreNotBlank(s: string)
    requires s != "" && IsDigits(s)
    ensures P.TrimSpace(s) == s
  {
  }

  /** Everything the issue service publishes has a complete envelope. */
  lemma EnvelopeIsValid(e: D.Event)
    ensures P.ValidEvent(Envelope(e))
  {
    DigitsAreNotBlank(UuidText(e.eventId));
    DigitsAreNotBlank(UuidText(e.aggregateId));
    DigitsAreNotBlank(UuidText(e.projectId));
  }

  // The state machine

  datatype State = State(h: H.State, o: O.State, c: C.State)

  datatype Step =
    /** A client reads an issue, or a transaction of the issue service runs; what it commits is in the outbox. */
    | IssueStep(h: H.Step)
    /** A publisher, the clock, the network or the operator acts; what reaches the log, consumers can fetch. */
    | OutboxStep(o: O.Step)
    /** A consumer, the group coordinator or a reader acts. */
    | GroupStep(c: C.Step)

  ghost predicate Enabled(s: State, step: Step) {
    match step
    case IssueStep(_) => true
    case OutboxStep(st) => !st.Insert? && O.Enabled(s.o, st)
    case GroupStep(st) => !st.Produce? && C.Enabled(s.c, st)
  }

  ghost function Next(s: State, step: Step): State
    requires Inv(s) && Enabled(s, step)
  {
    match step
    case IssueStep(st) =>
      var h' := H.Next(s.h, st);
      s.(h := h', o := s.o.(rows := h'.db.outbox))
    case OutboxStep(st) =>
      var o' := O.Next(s.o, st);
      State(WithOutbox(s.h, o'.rows), o', s.c.(topic := EncodeTopic(o'.topic)))
    case GroupStep(st) => s.(c := C.Next(s.c, st))
  }

  function WithOutbox(h: H.State, rows: O.Rows): H.State { h.(db := h.db.(outbox := rows)) }

  /** The record handled by an action stands in the log, and the action tells how handling it went. */
  predicate HandledInLog(topic: seq<seq<C.Message>>, a: C.Action) {
    a.Handled? ==>
      && a.partition < |topic| && a.offset < |topic[a.partition]| && topic[a.partition][a.offset].value == a.raw
      && a.outcome == P.Handle(a.raw, a.env).0
  }

  ghost predicate AllHandledInLog(c: C.State) {
    forall i :: 0 <= i < |c.trace| ==> HandledInLog(c.topic, c.trace[i])
  }

  ghost predicate GroupInv(c: C.State) {
    C.Inv(c) && S.TopicsInv(c) && S.RedisInv(c) && S.Audited(c) && AllHandledInLog(c)
  }

  ghost predicate Inv(s: State) {
    && H.Inv(s.h) && O.Inv(s.o) && GroupInv(s.c)
    && s.o.rows == s.h.db.outbox && s.c.topic == EncodeTopic(s.o.topic)
  }

  // Issue steps insert the next version

  lemma AddedEventIsNext(s: H.State, s': H.State, issue: Issues.Issue, row: D.HistoryRow, out: D.OutboxRow)
    requires H.Inv(s) && H.AddsVersion(s, s', issue, row, out) && !out.published && out.attempts == 0
    ensures O.NextVersion(s.db.outbox, out)
  {
    hide H.IssuesInv, H.NumbersInv, H.SnapshotsInv, H.Records, H.RecordsCreation;
    var id := issue.id;
    forall f | f in s.db.outbox && s.db.outbox[f].event.aggregateId == id
      ensures s.db.outbox[f].event.aggregateVersion < out.event.aggregateVersion
    {
      assert H.EventInv(s, f);
    }
    forall v | 1 <= v < out.event.aggregateVersion ensures O.HasVersion(s.db.outbox, id, v) {
      H.EventAtVersion(s, id, v - 1);
    }
  }

  /** The outbox after an issue step: as before, or with one row that Insert accepts. */
  ghost predicate Inserts(rows: O.Rows, rows': O.Rows) {
    rows' == rows || exists out: D.OutboxRow :: O.NextVersion(rows, out) && rows' == rows[out.event.eventId := out]
  }

  lemma CreateInserts(s: H.State, data: D.NewIssue, draw: D.Draw, commits: bool)
    requires H.Inv(s)
    ensures Inserts(s.db.outbox, H.NextCreate(s, data, draw, commits).db.outbox)
  {
    hide H.Inv, H.AddsVersion, O.NextVersion;
    if commits && D.CreateIssue(s.db, data, draw).Ok? {
      var s' := H.NextCreate(s, data, draw, true);
      H.CreateAddsVersion(s, data, draw);
      AddedEventIsNext(s, s', s'.db.issues[draw.issueId], s'.db.history[|s.db.history|], s'.db.outbox[draw.eventId]);
      assert O.NextVersion(s.db.outbox, s'.db.outbox[draw.eventId]);
    }
  }

  lemma SaveInserts(s: H.State, client: nat, request: H.Request, actor: Issues.UserId, draw: D.Draw, commits: bool)
    requires H.Inv(s) && client in s.snapshots
    ensures Inserts(s.db.outbox, H.NextSave(s, s.snapshots[client], request, actor, draw, commits).db.outbox)
  {
    hide H.Inv, H.AddsVersion, O.NextVersion, H.Prepare, D.Updated, D.PayloadFor, D.HistoryFor;
    if commits && H.Saves(s, client, request, actor, draw) {
      var s' := H.NextSave(s, s.snapshots[client], request, actor, draw, true);
      var id := s.snapshots[client].id;
      H.SaveAddsVersion(s, client, request, actor, draw);
      AddedEventIsNext(s, s', s'.db.issues[id], s'.db.history[|s.db.history|], s'.db.outbox[draw.eventId]);
      assert O.NextVersion(s.db.outbox, s'.db.outbox[draw.eventId]);
    }
  }

  lemma IssueStepInserts(s: H.State, step: H.Step)
    requires H.Inv(s)
    ensures Inserts(s.db.outbox, H.Next(s, step).db.outbox)
  {
    hide H.Inv, H.NextCreate, H.NextSave, Inserts;
    match step
    case Create(data, draw, commits) => CreateInserts(s, data, draw, commits);
    case Load(client, id) => NothingInserted(s.db.outbox);
    case Save(client, request, actor, draw, commits) =>
      if client in s.snapshots { SaveInserts(s, client, request, actor, draw, commits); } else { NothingInserted(s.db.outbox); }
  }

  lemma NothingInserted(rows: O.Rows)
    ensures Inserts(rows, rows)
  {
  }

  /** As a step of the outbox protocol, an issue step is an Insert or nothing. */
  lemma InsertKeepsOutboxInv(o: O.State, rows': O.Rows)
    requires O.Inv(o) && Inserts(o.rows, rows')
    ensures O.Inv(o.(rows := rows'))
  {
    hide O.Inv, O.NextVersion;
    if rows' == o.rows {
      assert o.(rows := rows') == o;
    } else {
      var out :| O.NextVersion(o.rows, out) && rows' == o.rows[out.event.eventId := out];
      O.InsertKeepsInv(o, out);
    }
  }

  // Outbox steps only do bookkeeping on the rows

  lemma OutboxStepAdvances(s: O.State, step: O.Step)
    requires O.Inv(s) && O.Enabled(s, step) && !step.Insert?
    ensures O.RowsAdvance(s.rows, O.Next(s, step).rows)
  {
    hide O.RowsInv, O.PublishedInLog, O.ClaimsAreHeads, O.LogInv, O.AcksInv, O.Claimable;
  }

  lemma BookkeepingKeepsIssues(h: H.State, rows: O.Rows)
    requires H.IssuesInv(h) && O.RowsAdvance(h.db.outbox, rows)
    ensures H.IssuesInv(WithOutbox(h, rows))
  {
    hide H.Records, H.RecordsCreation;
    var h' := WithOutbox(h, rows);
    forall id | id in h'.past ensures H.IssueInv(h'.db, h'.past[id], id) {
      assert H.IssueInv(h.db, h.past[id], id);
      var hs := H.HistoryOf(h.db.history, id);
      forall i | 0 <= i < |h.past[id]| ensures H.EntryAgrees(rows, hs, h.past[id], id, i) {
        assert H.EntryAgrees(h.db.outbox, hs, h.past[id], id, i);
      }
    }
  }

  lemma BookkeepingKeepsHistory(h: H.State, rows: O.Rows)
    requires H.Inv(h) && O.RowsAdvance(h.db.outbox, rows)
    ensures H.Inv(WithOutbox(h, rows))
  {
    hide H.IssuesInv, H.Records, H.RecordsCreation;
    var h' := WithOutbox(h, rows);
    BookkeepingKeepsIssues(h, rows);
    forall e | e in h'.db.outbox ensures H.EventInv(h', e) { assert H.EventInv(h, e); }
    forall p, k: nat | p in h'.numbered && k < |h'.numbered[p]| ensures H.NumberSlot(h', p, k) { assert H.NumberSlot(h, p, k); }
    forall id | id in h'.db.issues ensures H.IsNumbered(h', id) { assert H.IsNumbered(h, id); }
    forall c | c in h'.snapshots ensures H.SnapshotInv(h', h'.snapshots[c]) { assert H.SnapshotInv(h, h.snapshots[c]); }
  }

  /** The log grows by at most one record. */
  lemma OutboxStepAppends(s: O.State, step: O.Step)
    requires O.Inv(s) && O.Enabled(s, step)
    ensures O.Next(s, step).topic == s.topic || exists e: D.Event :: O.Next(s, step).topic == O.Append(s.topic, e)
  {
    hide O.RowsInv, O.PublishedInLog, O.ClaimsAreHeads, O.LogInv, O.AcksInv, O.Claimable, O.NextVersion, O.Append;
  }

  // The consumer group's side

  lemma ProduceKeepsGroupInv(c: C.State, q: nat, m: C.Message)
    requires GroupInv(c) && q < |c.topic|
    ensures GroupInv(c.(topic := c.topic[q := c.topic[q] + [m]]))
  {
    hide C.WellFormed, C.CommittedInv, C.PositionsInv, C.PendingInv, S.Audited, S.TopicsInv, S.Audit, S.OpsOf, AllHandledInLog;
    var c' := c.(topic := c.topic[q := c.topic[q] + [m]]);
    C.ProduceKeepsInv(c, q, m);
    assert c' == C.Next(c, C.Produce(q, m));
    S.NextTopics(c, C.Produce(q, m));
    S.NextAudited(c, C.Produce(q, m));
    ProduceKeepsHandled(c, q, m);
  }

  lemma ProduceKeepsHandled(c: C.State, q: nat, m: C.Message)
    requires AllHandledInLog(c) && q < |c.topic|
    ensures AllHandledInLog(c.(topic := c.topic[q := c.topic[q] + [m]]))
  {
    var c' := c.(topic := c.topic[q := c.topic[q] + [m]]);
    forall i | 0 <= i < |c'.trace| ensures HandledInLog(c'.topic, c'.trace[i]) {
      assert HandledInLog(c.topic, c.trace[i]);
    }
  }

  lemma GroupStepKeepsHandled(c: C.State, step: C.Step)
    requires C.WellFormed(c) && AllHandledInLog(c) && C.Enabled(c, step)
    ensures AllHandledInLog(C.Next(c, step))
  {
    hide P.Handle, P.Project, P.Next, C.AfterAttempt;
    var c' := C.Next(c, step);
    forall i | 0 <= i < |c'.trace| ensures HandledInLog(c'.topic, c'.trace[i]) {
      if i < |c.trace| {
        assert c'.trace[i] == c.trace[i] && HandledInLog(c.topic, c.trace[i]);
      }
    }
  }

  lemma GroupStepKeepsGroupInv(c: C.State, step: C.Step)
    requires GroupInv(c) && C.Enabled(c, step)
    ensures GroupInv(C.Next(c, step))
  {
    hide C.WellFormed, C.CommittedInv, C.PositionsInv, C.PendingInv, C.Next, C.Enabled, S.Audited, S.TopicsInv, S.RedisInv, AllHandledInLog;
    C.NextKeepsInv(c, step);
    S.NextTopics(c, step);
    S.NextRedis(c, step);
    S.NextAudited(c, step);
    GroupStepKeepsHandled(c, step);
  }

  lemma GroupStepKeepsTopic(c: C.State, step: C.Step)
    requires C.WellFormed(c) && C.Enabled(c, step) && !step.Produce?
    ensures C.Next(c, step).topic == c.topic
  {
  }

  // The invariant of the whole

  lemma IssueStepKeepsInv(s: State, step: H.Step)
    requires Inv(s)
    ensures Inv(Next(s, IssueStep(step)))
  {
    hide H.Inv, O.Inv, GroupInv, H.Next, Inserts;
    H.NextKeepsInv(s.h, step);
    IssueStepInserts(s.h, step);
    InsertKeepsOutboxInv(s.o, H.Next(s.h, step).db.outbox);
  }

  lemma OutboxStepKeepsGroup(s: State, step: O.Step)
    requires Inv(s) && Enabled(s, OutboxStep(step))
    ensures GroupInv(s.c.(topic := EncodeTopic(O.Next(s.o, step).topic)))
  {
    hide H.Inv, GroupInv, O.Next, O.Append, EncodeTopic, O.RowsInv, O.PublishedInLog, O.ClaimsAreHeads, O.LogInv, O.AcksInv, O.Enabled;
    OutboxStepAppends(s.o, step);
    if O.Next(s.o, step).topic == s.o.topic {
      assert s.c.(topic := EncodeTopic(O.Next(s.o, step).topic)) == s.c;
    } else {
      var e: D.Event :| O.Next(s.o, step).topic == O.Append(s.o.topic, e);
      EncodeAppend(s.o.topic, e);
      assert |EncodeTopic(s.o.topic)| == |s.o.topic| by { EncodedSize(s.o.topic); }
      ProduceKeepsGroupInv(s.c, O.PartitionOf(e.aggregateId, |s.o.topic|), Encode(e));
    }
  }

  lemma EncodedSize(topic: O.Topic)
    ensures |EncodeTopic(topic)| == |topic|
  {
  }

  lemma OutboxStepKeepsInv(s: State, step: O.Step)
    requires Inv(s) && Enabled(s, OutboxStep(step))
    ensures Inv(Next(s, OutboxStep(step)))
  {
    hide H.Inv, GroupInv, O.Next, EncodeTopic, O.RowsInv, O.PublishedInLog, O.ClaimsAreHeads, O.LogInv, O.AcksInv, O.Enabled, O.RowsAdvance;
    O.NextKeepsInv(s.o, step);
    OutboxStepAdvances(s.o, step);
    BookkeepingKeepsHistory(s.h, O.Next(s.o, step).rows);
    OutboxStepKeepsGroup(s, step);
  }

  lemma GroupStepKeepsInv(s: State, step: C.Step)
    requires Inv(s) && Enabled(s, GroupStep(step))
    ensures Inv(Next(s, GroupStep(step)))
  {
    hide H.Inv, O.Inv, S.Audited, S.TopicsInv, S.RedisInv, AllHandledInLog, C.Next, C.Enabled, C.CommittedInv, C.PositionsInv, C.PendingInv;
    GroupStepKeepsGroupInv(s.c, step);
    GroupStepKeepsTopic(s.c, step);
  }

  lemma NextKeepsInv(s: State, step: Step)
    requires Inv(s) && Enabled(s, step)
    ensures Inv(Next(s, step))
  {
    hide Inv, Next;
    match step
    case IssueStep(st) => IssueStepKeepsInv(s, st);
    case OutboxStep(st) => OutboxStepKeepsInv(s, st);
    case GroupStep(st) => GroupStepKeepsInv(s, st);
  }

  /** Every part goes through steps of its own protocol and no others: an issue step is one of the issue service and, for the
      publishers, an insertion or nothing; an outbox step is one of the publishers and, for the group, a new record or
      nothing, and leaves the issue service all but the bookkeeping of its events; a group step is one of the group alone. */
  lemma PartsKeepTheirProtocols(s: State, step: Step)
    requires Inv(s) && Enabled(s, step)
    ensures var s' := Next(s, step);
            && (if step.IssueStep? then s'.h == H.Next(s.h, step.h)
                else s'.h == WithOutbox(s.h, s'.o.rows) && O.RowsAdvance(s.o.rows, s'.o.rows))
            && (if step.OutboxStep? then s'.o == O.Next(s.o, step.o) else s'.o == s.o || InsertsOne(s.o, s'.o))
            && (if step.GroupStep? then s'.c == C.Next(s.c, step.c) else s'.c == s.c || ProducesOne(s.c, s'.c))
  {
    hide H.Inv, O.Inv, GroupInv, H.Next, O.Next, C.Next, O.NextVersion, C.Enabled, EncodeTopic, O.RowsAdvance;
    match step
    case IssueStep(st) =>
      IssueStepInserts(s.h, st);
      InsertionIsStep(s.o, Next(s, step).o);
    case OutboxStep(st) =>
      OutboxStepAdvances(s.o, st);
      AppendIsStep(s, st);
    case GroupStep(st) =>
      assert s.h == WithOutbox(s.h, s.o.rows) && O.RowsAdvance(s.o.rows, s.o.rows) by { NothingAdvances(s); }
  }

  ghost predicate InsertsOne(o: O.State, o': O.State) {
    |o.topic| > 0 && O.Keyed(o) && exists row :: O.Enabled(o, O.Insert(row)) && o' == O.Next(o, O.Insert(row))
  }

  ghost predicate ProducesOne(c: C.State, c': C.State) {
    C.WellFormed(c) && exists q, m :: C.Enabled(c, C.Produce(q, m)) && c' == C.Next(c, C.Produce(q, m))
  }

  lemma InsertionIsStep(o: O.State, o': O.State)
    requires O.Inv(o) && Inserts(o.rows, o'.rows) && o' == o.(rows := o'.rows)
    ensures o' == o || InsertsOne(o, o')
  {
    hide O.NextVersion, O.RowsInv, O.PublishedInLog, O.ClaimsAreHeads, O.LogInv, O.AcksInv;
    if o'.rows != o.rows {
      var out: D.OutboxRow :| O.NextVersion(o.rows, out) && o'.rows == o.rows[out.event.eventId := out];
      assert O.Enabled(o, O.Insert(out)) && o' == O.Next(o, O.Insert(out));
    }
  }

  lemma AppendIsStep(s: State, step: O.Step)
    requires Inv(s) && Enabled(s, OutboxStep(step))
    ensures Next(s, OutboxStep(step)).c == s.c || ProducesOne(s.c, Next(s, OutboxStep(step)).c)
  {
    hide H.Inv, O.Next, O.Append, EncodeTopic, O.RowsInv, O.PublishedInLog, O.ClaimsAreHeads, O.LogInv, O.AcksInv, O.Enabled, S.Audited,
         S.TopicsInv, S.RedisInv, AllHandledInLog, C.CommittedInv, C.PositionsInv, C.PendingInv, C.HolderInv;
    OutboxStepAppends(s.o, step);
    var topic := O.Next(s.o, step).topic;
    if topic == s.o.topic {
      assert s.c.(topic := EncodeTopic(topic)) == s.c;
    } else {
      var e: D.Event :| topic == O.Append(s.o.topic, e);
      EncodeAppend(s.o.topic, e);
      EncodedSize(s.o.topic);
      var q := O.PartitionOf(e.aggregateId, |s.o.topic|);
      assert C.Enabled(s.c, C.Produce(q, Encode(e)));
      assert s.c.(topic := EncodeTopic(topic)) == C.Next(s.c, C.Produce(q, Encode(e)));
    }
  }

  lemma NothingAdvances(s: State)
    requires Inv(s)
    ensures s.h == WithOutbox(s.h, s.o.rows) && O.RowsAdvance(s.o.rows, s.o.rows)
  {
  }

  // Runs

  function Initial(publishers: set<nat>, replicas: set<nat>, partitions: nat, maxTries: nat): State {
    State(H.INITIAL, R.Initial(publishers, partitions), C.Initial(replicas, partitions, maxTries))
  }

  lemma InitialInv(publishers: set<nat>, replicas: set<nat>, partitions: nat, maxTries: nat)
    requires partitions > 0 && maxTries >= 1
    ensures Inv(Initial(publishers, replicas, partitions, maxTries))
  {
    var s := Initial(publishers, replicas, partitions, maxTries);
    R.InitialInv(publishers, partitions);
    C.InitialInv(replicas, partitions, maxTries);
    assert EncodeTopic(s.o.topic) == s.c.topic;
  }

  ghost predicate Executable(s: State, steps: seq<Step>)
    requires Inv(s)
    decreases |steps|
  {
    steps == [] || (Enabled(s, steps[0]) && (NextKeepsInv(s, steps[0]); Executable(Next(s, steps[0]), steps[1..])))
  }

  ghost function After(s: State, steps: seq<Step>): (s': State)
    requires Inv(s) && Executable(s, steps)
    ensures Inv(s')
    decreases |steps|
  {
    if steps == [] then s else NextKeepsInv(s, steps[0]); After(Next(s, steps[0]), steps[1..])
  }

  ghost predicate RunsTo(publishers: set<nat>, replicas: set<nat>, partitions: nat, maxTries: nat, steps: seq<Step>, s: State) {
    partitions > 0 && maxTries >= 1 && (InitialInv(publishers, replicas, partitions, maxTries);
    Executable(Initial(publishers, replicas, partitions, maxTries), steps) &&
    s == After(Initial(publishers, replicas, partitions, maxTries), steps))
  }

  ghost predicate Reachable(s: State) {
    exists publishers, replicas, partitions, maxTries, steps :: RunsTo(publishers, replicas, partitions, maxTries, steps, s)
  }

  lemma ReachableInv(s: State)
    requires Reachable(s)
    ensures Inv(s)
  {
    hide Inv, Executable;
    var publishers, replicas, partitions, maxTries, steps :| RunsTo(publishers, replicas, partitions, maxTries, steps, s);
    InitialInv(publishers, replicas, partitions, maxTries);
  }

  // End to end: no loss

  /** Offset `i` of the event's partition holds the record of event `e`. */
  predicate StandsAt(s: State, e: Uuid, i: nat)
    requires e in s.h.db.outbox && |s.o.topic| > 0 && |s.c.topic| == |s.o.topic|
  {
    var event := s.h.db.outbox[e].event;
    var q := O.PartitionOf(event.aggregateId, |s.o.topic|);
    i < |s.c.topic[q]| && s.c.topic[q][i] == Encode(event)
  }

  /** The event is still to be published, or stands in the log, where, below the committed offset, it has been
      projected or copied to the dead-letter topic. */
  ghost predicate AccountedFor(s: State, e: Uuid)
    requires e in s.h.db.outbox && |s.o.topic| > 0 && |s.c.topic| == |s.o.topic| == |s.c.committed|
  {
    var q := O.PartitionOf(s.h.db.outbox[e].event.aggregateId, |s.o.topic|);
    || !s.h.db.outbox[e].published
    || exists i: nat :: StandsAt(s, e, i) && (i < s.c.committed[q] ==> C.Settled(s.c.trace, q, i))
  }

  lemma PublishedEventIsSettled(s: State, e: Uuid)
    requires Inv(s) && e in s.h.db.outbox
    ensures |s.o.topic| > 0 && |s.c.topic| == |s.o.topic| == |s.c.committed| && AccountedFor(s, e)
  {
    hide H.Inv, C.Settled, O.RowsInv, O.LogInv, O.ClaimsAreHeads, O.AcksInv, C.HolderInv, C.PositionsInv, C.PendingInv, S.Audited, S.RedisInv,
         S.TopicsInv, AllHandledInLog, Encode;
    var event := s.h.db.outbox[e].event;
    var q := O.PartitionOf(event.aggregateId, |s.o.topic|);
    if s.h.db.outbox[e].published {
      assert event in O.LogOf(s.o.topic, event.aggregateId);
      var i: nat :| i < |s.o.topic[q]| && s.o.topic[q][i] == event;
      assert s.c.topic[q] == EncodeLog(s.o.topic[q]);
      assert StandsAt(s, e, i);
      assert C.SettledBelow(s.c.trace, q, s.c.committed[q]);
    }
  }

  /** Every version of every issue was announced by exactly one event, and that event is not lost: it waits in the
      outbox, or stands in the log, and once the group has committed past it, it has been settled. */
  lemma EveryWriteIsAccountedFor(s: State, id: Uuid, v: nat)
    requires Reachable(s) && id in s.h.db.issues && 1 <= v <= s.h.db.issues[id].version
    ensures |s.o.topic| > 0 && |s.c.topic| == |s.o.topic| == |s.c.committed|
    ensures exists e :: e in H.EventsOf(s.h.db.outbox, id) && s.h.db.outbox[e].event.aggregateVersion == v && AccountedFor(s, e)
    ensures forall e, f :: e in H.EventsOf(s.h.db.outbox, id) && f in H.EventsOf(s.h.db.outbox, id) && e != f
              ==> s.h.db.outbox[e].event.aggregateVersion != s.h.db.outbox[f].event.aggregateVersion
  {
    hide GroupInv, AccountedFor, O.Inv, H.IssueInv, H.NumbersInv, H.SnapshotsInv;
    ReachableInv(s);
    H.CurrentVersion(s.h, id);
    H.EventAtVersion(s.h, id, v - 1);
    var e := s.h.past[id][v - 1].eventId;
    PublishedEventIsSettled(s, e);
    forall f | f in H.EventsOf(s.h.db.outbox, id)
      ensures s.h.past[id][s.h.db.outbox[f].event.aggregateVersion - 1].eventId == f
    {
      assert H.EventInv(s.h, f);
    }
  }

  // End to end: order

  /** While a replica holds a record, every earlier version of its issue has already been projected or copied to the
      dead-letter topic: an issue's changes are taken up in version order, duplicates aside. */
  lemma EarlierVersionsAreSettledFirst(s: State, c: nat, f: Uuid)
    requires Reachable(s) && c in s.c.pending && s.c.pending[c].Some?
    ensures var p := s.c.pending[c].value;
            && p.partition < |s.o.topic| && p.offset < |s.o.topic[p.partition]|
            && C.InLog(s.c, p) && C.HeldMessage(s.c, p) == Encode(s.o.topic[p.partition][p.offset])
            && var event := s.o.topic[p.partition][p.offset];
            (f in s.h.db.outbox && s.h.db.outbox[f].event.aggregateId == event.aggregateId &&
             s.h.db.outbox[f].event.aggregateVersion < event.aggregateVersion)
            ==> SettledBefore(s, f, p.partition, p.offset)
  {
    hide H.Inv, C.Settled, Reachable, Encode, O.PublishedInLog, O.AcksInv, O.ClaimsAreHeads, O.RowsInv, C.CommittedInv, C.PositionsInv,
         S.TopicsInv, S.RedisInv, S.Audited, AllHandledInLog;
    ReachableInv(s);
    var p := s.c.pending[c].value;
    assert C.HolderInv(s.c, p) && C.HeldInv(s.c, p);
    assert s.c.topic[p.partition] == EncodeLog(s.o.topic[p.partition]);
    assert O.RecordInv(s.o, p.partition, p.offset);
    var event := s.o.topic[p.partition][p.offset];
    if f in s.h.db.outbox && s.h.db.outbox[f].event.aggregateId == event.aggregateId &&
       s.h.db.outbox[f].event.aggregateVersion < event.aggregateVersion {
      var front := s.o.topic[p.partition][..p.offset];
      var i: nat :| i < |front| && front[i] == s.h.db.outbox[f].event;
      assert s.o.topic[p.partition][i] == s.h.db.outbox[f].event;
      assert C.Settled(s.c.trace, p.partition, i);
    }
  }

  /** The event of row `f` stands in the partition before offset `o`, and has been settled there. */
  ghost predicate SettledBefore(s: State, f: Uuid, q: nat, o: nat)
    requires f in s.h.db.outbox && q < |s.o.topic| && o < |s.o.topic[q]|
  {
    exists i: nat :: i < o && s.o.topic[q][i] == s.h.db.outbox[f].event && C.Settled(s.c.trace, q, i)
  }

  // End to end: effectively once

  /** The record handled is the envelope of a committed event. */
  ghost predicate IsCommitted(rows: O.Rows, event: P.IssueEvent) {
    exists e :: e in rows && rows[e].event.eventId == e && event == Envelope(rows[e].event)
  }

  lemma HandledIsCommitted(s: State, i: nat)
    requires Inv(s) && i < |s.c.trace| && s.c.trace[i].Handled?
    ensures s.c.trace[i].raw.Decoded? && IsCommitted(s.h.db.outbox, s.c.trace[i].raw.event)
    ensures s.c.trace[i].outcome == P.Handle(s.c.trace[i].raw, s.c.trace[i].env).0
  {
    hide P.Handle, H.Inv, C.Inv, S.TopicsInv, S.RedisInv, S.Audited, O.PublishedInLog, O.AcksInv, O.ClaimsAreHeads, Envelope;
    var a := s.c.trace[i];
    assert HandledInLog(s.c.topic, a);
    var event := s.o.topic[a.partition][a.offset];
    assert s.c.topic[a.partition] == EncodeLog(s.o.topic[a.partition]);
    assert O.RecordInv(s.o, a.partition, a.offset);
    assert O.RowInv(s.o.rows, event.eventId);
  }

  lemma {:induction false} OpsAreHandled(trace: seq<C.Action>, j: nat)
    requires j < |S.OpsOf(trace)| && P.IsEvent(S.OpsOf(trace)[j])
    ensures exists i :: 0 <= i < |trace| && trace[i].Handled? && trace[i].raw == S.OpsOf(trace)[j].raw && trace[i].env == S.OpsOf(trace)[j].env
  {
    var n := |trace| - 1;
    if j < |S.OpsOf(trace[..n])| {
      OpsAreHandled(trace[..n], j);
      var i :| 0 <= i < n && trace[..n][i].Handled? && trace[..n][i].raw == S.OpsOf(trace[..n])[j].raw &&
               trace[..n][i].env == S.OpsOf(trace[..n])[j].env;
      assert trace[i] == trace[..n][i];
    } else {
      assert trace[n].Handled?;
    }
  }

  lemma OpIsCommitted(s: State, j: nat)
    requires Inv(s) && j < |S.OpsOf(s.c.trace)| && P.IsEvent(S.OpsOf(s.c.trace)[j])
    ensures IsCommitted(s.h.db.outbox, S.OpsOf(s.c.trace)[j].raw.event)
  {
    hide Inv, S.OpsOf, IsCommitted;
    OpsAreHandled(s.c.trace, j);
    var i: nat :| i < |s.c.trace| && s.c.trace[i].Handled? && s.c.trace[i].raw == S.OpsOf(s.c.trace)[j].raw;
    HandledIsCommitted(s, i);
  }

  lemma CommittedEventsAreConsistent(rows: O.Rows, x: P.IssueEvent, y: P.IssueEvent)
    requires IsCommitted(rows, x) && IsCommitted(rows, y)
    ensures x.occurredAt.Some? && (x.eventId == y.eventId ==> x == y)
  {
    hide UuidText;
    var e :| e in rows && rows[e].event.eventId == e && x == Envelope(rows[e].event);
    var f :| f in rows && rows[f].event.eventId == f && y == Envelope(rows[f].event);
    if UuidText(e) == UuidText(f) { assert Number(UuidText(e)) == Number(UuidText(f)); }
  }

  lemma OpsAreConsistent(s: State)
    requires Inv(s)
    ensures P.Consistent(S.OpsOf(s.c.trace))
  {
    hide Inv, S.OpsOf, IsCommitted;
    var ops := S.OpsOf(s.c.trace);
    forall i | 0 <= i < |ops| && P.IsEvent(ops[i]) ensures ops[i].raw.event.occurredAt.Some? {
      OpIsCommitted(s, i);
      CommittedEventsAreConsistent(s.h.db.outbox, ops[i].raw.event, ops[i].raw.event);
    }
    forall i, j | 0 <= i < |ops| && 0 <= j < |ops| && P.IsEvent(ops[i]) && P.IsEvent(ops[j]) &&
                  ops[i].raw.event.eventId == ops[j].raw.event.eventId
      ensures ops[i].raw.event == ops[j].raw.event
    {
      OpIsCommitted(s, i);
      OpIsCommitted(s, j);
      CommittedEventsAreConsistent(s.h.db.outbox, ops[i].raw.event, ops[j].raw.event);
    }
  }

  /** What Redis stands for: the (event, user) pairs that some handling found eligible and wrote. */
  ghost function Notified(s: State): set<(P.IssueEvent, string)> { P.After(P.INITIAL, S.OpsOf(s.c.trace)).notified }

  /** Effectively once, with no hypothesis left: whatever was written, sent twice, redelivered, retried or read, Redis
      holds exactly one notification for each pair some handling found eligible and wrote, and nothing else. */
  lemma EffectivelyOnce(s: State)
    requires Reachable(s)
    ensures P.Inv(P.State(s.c.redis, Notified(s)))
    ensures forall p :: p in Notified(s) <==> P.FoundEligible(S.OpsOf(s.c.trace), p)
  {
    hide Inv, P.Inv, P.FoundEligible, S.OpsOf, Reachable;
    ReachableInv(s);
    OpsAreConsistent(s);
    P.ExactlyOnce(S.OpsOf(s.c.trace));
    RedisIsProjection(s);
  }

  lemma RedisIsProjection(s: State)
    requires Inv(s)
    ensures P.State(s.c.redis, Notified(s)) == P.After(P.INITIAL, S.OpsOf(s.c.trace))
  {
    hide P.After, S.OpsOf, C.Inv, S.TopicsInv, S.Audited, AllHandledInLog, O.Inv, H.Inv;
  }

  /** No notification comes from nowhere: each stored hash announces a committed event to a user the event names, who
      is not its actor, and tells what that event did. */
  lemma NoPhantoms(s: State, key: P.Key)
    requires Reachable(s) && key in s.c.redis.hashes
    ensures exists e :: e in s.h.db.outbox && Announces(s.h.db.outbox[e].event, key)
                        && Tells(s.c.redis.hashes[key], s.h.db.outbox[e].event, key.user)
    ensures key.user in s.c.redis.index && key.id in s.c.redis.index[key.user]
  {
    hide Inv, S.OpsOf, Reachable, P.KeyKnown, P.FoundEligible, Announces, Tells, P.ShowsNotification, P.NotificationOf, Notified;
    EffectivelyOnce(s);
    ReachableInv(s);
    var p := PairFor(s, key);
    var e := NotifiedIsNamed(s, p);
    PairTells(s.c.redis, p, s.h.db.outbox[e].event);
  }

  ghost predicate Announces(event: D.Event, key: P.Key) {
    && key == P.KeyOf(UuidText(event.eventId), key.user)
    && key.user != P.NormalizeUserId(event.actor)
    && exists u :: u in event.payload.recipients && P.NormalizeUserId(u) == key.user
  }

  /** What the notification says of the event: which issue and project, when, and what was done. */
  predicate Tells(hash: P.Hash, event: D.Event, user: string) {
    && hash.Keys == {P.FId, P.FUser, P.FEvent, P.FType, P.FTitle, P.FBody, P.FIssue, P.FProject, P.FCreatedAt, P.FReadAt}
    && hash[P.FUser] == P.Text(user) && hash[P.FEvent] == P.Text(UuidText(event.eventId))
    && hash[P.FIssue] == P.Text(UuidText(event.aggregateId)) && hash[P.FProject] == P.Text(UuidText(event.projectId))
    && hash[P.FCreatedAt] == P.At(event.occurredAt)
    && Worded(hash[P.FType], hash[P.FTitle], hash[P.FBody], event.payload)
  }

  predicate Worded(kind: P.Value, title: P.Value, body: P.Value, payload: D.Payload) {
    var key := KeyText(payload.issueKey);
    match payload
    case IssueCreated(_, _, _, _, _) =>
      kind == P.Kind(P.IssueCreated) && title == P.Text("Issue assigned") && body == P.Text(key + " was created and assigned to you")
    case IssueUpdated(_, _, _, _) =>
      kind == P.Kind(P.IssueUpdated) && title == P.Text("Issue updated") && body == P.Text(key + " was updated")
    case IssueAssigned(_, _, _, _) =>
      kind == P.Kind(P.IssueAssigned) && title == P.Text("Issue assignment changed") && body == P.Text("Assignment changed on " + key)
    case IssueTransitioned(_, _, to, _) =>
      kind == P.Kind(P.IssueTransitioned) && title == P.Text("Issue status changed") &&
      body == P.Text(key + " moved to " + (match to case Todo => "TODO" case InProgress => "IN_PROGRESS" case Done => "DONE"))
    case IssueCommented(_, _, _, _) =>
      kind == P.Kind(P.IssueCommented) && title == P.Text("New issue comment") && body == P.Text("A comment was added to " + key)
  }

  lemma PairTells(r: P.Redis, p: (P.IssueEvent, string), event: D.Event)
    requires P.PairStored(r, p) && p.0 == Envelope(event)
    ensures Tells(r.hashes[P.PairKey(p)], event, p.1)
    ensures p.1 in r.index && P.PairKey(p).id in r.index[p.1] && r.index[p.1][P.PairKey(p).id] == event.occurredAt
  {
    var (hash, fields) := (r.hashes[P.PairKey(p)], P.FieldsOf(P.NotificationOf(p)));
    FieldsTell(event, p.1);
    assert P.NotificationOf(p).createdAt == event.occurredAt;
    hide P.FieldsOf, P.NotificationOf, Envelope, Worded, UuidText;
    assert hash[P.FReadAt := P.Blank] == fields;
    ReadTimeTellsNothing(hash, fields, event, p.1);
  }

  lemma ContentIsWorded(event: D.Event)
    ensures var content := P.Content(Envelope(event));
            Worded(P.Kind(Envelope(event).eventType), P.Text(content.0), P.Text(content.1), event.payload)
  {
    hide UuidText, JsonOf;
  }

  lemma ReadTimeTellsNothing(hash: P.Hash, fields: P.Hash, event: D.Event, user: string)
    requires P.FReadAt in hash && hash[P.FReadAt := P.Blank] == fields && Tells(fields, event, user)
    ensures Tells(hash, event, user)
  {
    hide Worded, UuidText;
    assert fields.Keys == hash.Keys;
    assert forall f :: f in hash && f != P.FReadAt ==> hash[f] == fields[f];
  }

  lemma FieldsTell(event: D.Event, user: string)
    ensures Tells(P.FieldsOf(P.NotificationFor(Envelope(event), user, 0)), event, user)
  {
    ContentIsWorded(event);
    hide UuidText, P.DeterministicId, JsonOf, Worded, P.Content, KeyText, StatusText, TypeOf;
    var fields := P.FieldsOf(P.NotificationFor(Envelope(event), user, 0));
    assert fields.Keys == {P.FId, P.FUser, P.FEvent, P.FType, P.FTitle, P.FBody, P.FIssue, P.FProject, P.FCreatedAt, P.FReadAt};
  }

  lemma PairFor(s: State, key: P.Key) returns (p: (P.IssueEvent, string))
    requires P.Inv(P.State(s.c.redis, Notified(s))) && key in s.c.redis.hashes
    ensures p in Notified(s) && P.PairKey(p) == key
  {
    hide P.PairStored, P.Distinct;
    assert P.KeyKnown(Notified(s), key);
    p :| p in Notified(s) && P.PairKey(p) == key;
  }

  lemma NotifiedIsNamed(s: State, p: (P.IssueEvent, string)) returns (e: Uuid)
    requires Inv(s) && p in Notified(s)
    ensures e in s.h.db.outbox && p.0 == Envelope(s.h.db.outbox[e].event) && Announces(s.h.db.outbox[e].event, P.PairKey(p))
  {
    hide Inv, S.OpsOf, P.Handle;
    var ops := S.OpsOf(s.c.trace);
    P.NotifiedMeaning(ops, p);
    var j :| 0 <= j < |ops| && P.Notifies(ops[j], p);
    OpIsCommitted(s, j);
    e :| e in s.h.db.outbox && s.h.db.outbox[e].event.eventId == e && p.0 == Envelope(s.h.db.outbox[e].event);
    NamedUser(ops[j], p, s.h.db.outbox[e].event);
  }

  lemma NamedUser(op: P.Op, p: (P.IssueEvent, string), event: D.Event)
    requires P.Notifies(op, p) && p.0 == Envelope(event)
    ensures Announces(event, P.PairKey(p))
  {
    hide P.Handle, UuidText, P.NormalizeUserId, TypeOf, KeyText;
    P.NotifiedAreRecipients(op.raw, op.env, p.1);
    StringsOfTexts(event.payload.recipients);
    var i :| 0 <= i < |event.payload.recipients| && P.NormalizeUserId(event.payload.recipients[i]) == p.1;
    assert event.payload.recipients[i] in event.payload.recipients;
  }

  lemma {:induction false} HandledIsOp(trace: seq<C.Action>, i: nat) returns (j: nat)
    requires i < |trace| && trace[i].Handled?
    ensures j < |S.OpsOf(trace)| && S.OpsOf(trace)[j] == P.Process(trace[i].raw, trace[i].env)
  {
    var n := |trace| - 1;
    if i < n {
      j := HandledIsOp(trace[..n], i);
    } else {
      j := |S.OpsOf(trace[..n])|;
    }
  }

  /** The record handled stands for an event, and the event names a user other than its actor. */
  lemma NamedIsAddressed(event: D.Event, u: string)
    requires u in event.payload.recipients && P.NormalizeUserId(u) != "" && P.NormalizeUserId(u) != P.NormalizeUserId(event.actor)
    ensures P.Addresses(Envelope(event), P.NormalizeUserId(u))
  {
    hide P.NormalizeUserId, UuidText, KeyText, TypeOf;
    var users := event.payload.recipients;
    var k :| 0 <= k < |users| && users[k] == u;
    assert JsonOf(users).items[k] == P.JString(u);
  }

  /** A record that was handled successfully is the envelope of a committed event, and it has reached everybody: each user
      that event names, other than its actor, was found to have access and has the notification in Redis, or was found to
      have none. */
  lemma SuccessNotifiesEveryone(s: State, i: nat)
    requires Reachable(s) && i < |s.c.trace| && s.c.trace[i].Handled? && s.c.trace[i].outcome == P.Succeeded
    ensures s.c.trace[i].raw.Decoded?
    ensures exists e :: IsRecordOf(s.c.trace[i].raw.event, s.h.db.outbox, e)
    ensures forall e, u :: IsRecordOf(s.c.trace[i].raw.event, s.h.db.outbox, e) && u in s.h.db.outbox[e].event.payload.recipients
                           ==> Reached(s, i, s.h.db.outbox[e].event, u)
  {
    hide Inv, Reachable, Envelope, IsCommitted, Reached;
    ReachableInv(s);
    HandledIsCommitted(s, i);
    SomeEvent(s.h.db.outbox, s.c.trace[i].raw.event);
    forall e, u | IsRecordOf(s.c.trace[i].raw.event, s.h.db.outbox, e) && u in s.h.db.outbox[e].event.payload.recipients
      ensures Reached(s, i, s.h.db.outbox[e].event, u)
    {
      NamedUserIsReached(s, i, s.h.db.outbox[e].event, u);
    }
  }

  lemma SomeEvent(rows: O.Rows, event: P.IssueEvent)
    requires IsCommitted(rows, event)
    ensures exists e :: IsRecordOf(event, rows, e)
  {
    hide Envelope;
    var e :| e in rows && rows[e].event.eventId == e && event == Envelope(rows[e].event);
    assert IsRecordOf(event, rows, e);
  }

  /** The record is the envelope of the row's event. */
  predicate IsRecordOf(event: P.IssueEvent, rows: O.Rows, e: Uuid) { e in rows && event == Envelope(rows[e].event) }

  /** In handling `i` the user was found to have no access, or to have it and now has the notification of the event; a blank
      name, or another spelling of the actor's, stands for nobody. */
  ghost predicate Reached(s: State, i: nat, event: D.Event, u: string)
    requires i < |s.c.trace| && s.c.trace[i].Handled?
  {
    var (user, access) := (P.NormalizeUserId(u), s.c.trace[i].env.access);
    || user == "" || user == P.NormalizeUserId(event.actor) || access(user) == P.NotEligible
    || (access(user) == P.Eligible && P.PairStored(s.c.redis, (Envelope(event), user)))
  }

  lemma NamedUserIsReached(s: State, i: nat, event: D.Event, u: string)
    requires Reachable(s) && i < |s.c.trace| && s.c.trace[i].Handled? && s.c.trace[i].outcome == P.Succeeded
    requires s.c.trace[i].raw == P.Decoded(Envelope(event)) && s.c.trace[i].outcome == P.Handle(s.c.trace[i].raw, s.c.trace[i].env).0
    requires u in event.payload.recipients
    ensures Reached(s, i, event, u)
  {
    hide Inv, Reachable, P.Handle, P.PairStored, S.OpsOf, P.NormalizeUserId, P.FoundEligible, P.ValidEvent, Envelope, P.Addresses;
    var (raw, env, user) := (s.c.trace[i].raw, s.c.trace[i].env, P.NormalizeUserId(u));
    if user != "" && user != P.NormalizeUserId(event.actor) {
      NamedIsAddressed(event, u);
      P.HandleMeans(raw, env);
      if env.access(user) == P.Eligible {
        var j := HandledIsOp(s.c.trace, i);
        assert P.Notifies(S.OpsOf(s.c.trace)[j], (raw.event, user));
        EffectivelyOnce(s);
        P.NotifiedMeaning(S.OpsOf(s.c.trace), (raw.event, user));
        assert (raw.event, user) in Notified(s) by { WasFound(S.OpsOf(s.c.trace), j, (raw.event, user)); }
      }
    }
  }

  /** From the issue to the inbox: once the record of an issue's version was handled successfully, the reporter and the
      assignee which the issue had in that version have been reached, unless one of them made the change. */
  lemma ReporterAndAssigneeHear(s: State, i: nat, id: Uuid, v: nat, u: string)
    requires Reachable(s) && i < |s.c.trace| && s.c.trace[i].Handled? && s.c.trace[i].outcome == P.Succeeded
    requires id in s.h.db.issues && 1 <= v <= |H.Past(s.h, id)| && H.Past(s.h, id)[v - 1].eventId in s.h.db.outbox
    requires s.c.trace[i].raw == P.Decoded(Envelope(s.h.db.outbox[H.Past(s.h, id)[v - 1].eventId].event))
    requires var row := H.Past(s.h, id)[v - 1].row; u == row.reporter || row.assignee == Some(u)
    ensures u == "" || Reached(s, i, s.h.db.outbox[H.Past(s.h, id)[v - 1].eventId].event, u)
  {
    hide H.Inv, Reachable, Envelope, Reached, P.Handle, P.NormalizeUserId, O.Inv, GroupInv;
    ReachableInv(s);
    HandledIsCommitted(s, i);
    var e := H.Past(s.h, id)[v - 1].eventId;
    var event := s.h.db.outbox[e].event;
    VersionIsAnnounced(s.h, id, v);
    if u != "" && u != event.actor { NamedUserIsReached(s, i, event, u); }
    if u == event.actor { ActorIsReached(s, i, event); }
  }

  lemma ActorIsReached(s: State, i: nat, event: D.Event)
    requires i < |s.c.trace| && s.c.trace[i].Handled?
    ensures Reached(s, i, event, event.actor)
  {
  }

  lemma VersionIsAnnounced(h: H.State, id: Uuid, v: nat)
    requires H.Inv(h) && 1 <= v <= |H.Past(h, id)|
    ensures var entry := H.Past(h, id)[v - 1];
            entry.eventId in h.db.outbox && D.Announces(h.db.outbox[entry.eventId].event, entry.row, h.db.outbox[entry.eventId].event.actor)
  {
    hide H.NumbersInv, H.SnapshotsInv, H.OutboxInv, H.Records, H.RecordsCreation;
    assert H.IssueInv(h.db, h.past[id], id);
    assert H.EntryAgrees(h.db.outbox, H.HistoryOf(h.db.history, id), h.past[id], id, v - 1);
  }

  lemma WasFound(ops: seq<P.Op>, j: nat, p: (P.IssueEvent, string))
    requires j < |ops| && P.Notifies(ops[j], p)
    ensures P.FoundEligible(ops, p)
  {
  }

  // End to end: what reaches the dead-letter topic

  /** The consumer never rejects what the issue service published: a record fails only because a service around the
      consumer does. */
  lemma PublishedEventsAreNeverRejected(s: State, i: nat)
    requires Reachable(s) && i < |s.c.trace| && s.c.trace[i].Handled?
    ensures s.c.trace[i].outcome != P.PermanentFailure
  {
    hide Reachable, Envelope, Inv, P.ValidEvent;
    ReachableInv(s);
    HandledIsCommitted(s, i);
    var e :| e in s.h.db.outbox && s.h.db.outbox[e].event.eventId == e && s.c.trace[i].raw.event == Envelope(s.h.db.outbox[e].event);
    EnvelopeIsValid(s.h.db.outbox[e].event);
  }
}
