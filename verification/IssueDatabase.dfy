/** The issue database and the transactions that write it, as values
    (apps/issue-service-nest/src/infrastructure/postgres-issue.repository.ts). */
module IssueDatabase {
  import opened Types
  import opened Issues

  const MAX_PUBLISH_ATTEMPTS := 20

  datatype Fields = Fields(summary: string, description: Option<string>, kind: Kind, priority: Priority)

  /** The JSON stored in a history row's from_value and to_value. */
  datatype Change =
    | NoValue
    | Created(key: IssueKey, summary: string, kind: Kind, priority: Priority, status: Status, assignee: Option<UserId>)
    | FieldsValue(fields: Fields)
    | AssigneeValue(assignee: Option<UserId>)
    | StatusValue(status: Status)
    | CommentValue(commentId: Uuid)

  datatype Action = CREATED | UPDATED | ASSIGNEE_CHANGED | STATUS_CHANGED | COMMENT_ADDED

  datatype HistoryRow = HistoryRow(issueId: Uuid, actor: UserId, action: Action, fromValue: Change, toValue: Change)

  /** The payload of an event; the constructor is its type. */
  datatype Payload =
    | IssueCreated(issueKey: IssueKey, summary: string, reporter: UserId, assignee: Option<UserId>, recipients: seq<UserId>)
    | IssueUpdated(issueKey: IssueKey, from: Fields, to: Fields, recipients: seq<UserId>)
    | IssueAssigned(issueKey: IssueKey, previous: Option<UserId>, assignee: Option<UserId>, recipients: seq<UserId>)
    | IssueTransitioned(issueKey: IssueKey, fromStatus: Status, toStatus: Status, recipients: seq<UserId>)
    | IssueCommented(issueKey: IssueKey, commentId: Uuid, preview: string, recipients: seq<UserId>)

  /** What a publisher sends, and what never changes in an outbox row. */
  datatype Event = Event(
    eventId: Uuid, aggregateId: Uuid, aggregateVersion: nat, projectId: Uuid, actor: UserId, payload: Payload, occurredAt: Time)

  datatype OutboxRow = OutboxRow(event: Event, published: bool, attempts: nat, nextAttemptAt: Time)

  datatype Comment = Comment(issueId: Uuid, author: UserId, body: string, createdAt: Time)

  datatype Db = Db(
    issues: map<Uuid, Issue>, history: seq<HistoryRow>, outbox: map<Uuid, OutboxRow>,
    sequences: map<Uuid, nat>, comments: map<Uuid, Comment>)

  const EMPTY := Db(map[], [], map[], map[], map[])

  datatype NewIssue = NewIssue(
    projectId: Uuid, projectKey: string, summary: string, description: Option<string>, kind: Kind, priority: Priority,
    reporter: UserId, assignee: Option<UserId>, epicId: Option<Uuid>, sprintId: Option<Uuid>)

  /** What a write changes in an issue row. */
  datatype Write =
    | Update(fields: Fields)
    | Assign(assignee: Option<UserId>)
    | Transit(transition: Transition)
    | AddComment(body: string)

  /** The random ids and the clock reading a transaction draws. */
  datatype Draw = Draw(issueId: Uuid, eventId: Uuid, commentId: Uuid, now: Time)

  datatype DbError = Conflict | DuplicateKey | Aborted

  // recipients()

  function Distinct(values: seq<UserId>): seq<UserId> {
    if values == [] then []
    else
      var front := Distinct(values[..|values| - 1]);
      var last := values[|values| - 1];
      if last in front then front else front + [last]
  }

  function Present(values: seq<Option<UserId>>): seq<UserId> {
    if values == [] then []
    else (match values[0] case Some(v) => if v == "" then [] else [v] case None => []) + Present(values[1..])
  }

  function Without(values: seq<UserId>, actor: UserId): seq<UserId> {
    if values == [] then []
    else (if values[0] == actor then [] else [values[0]]) + Without(values[1..], actor)
  }

  function Recipients(values: seq<Option<UserId>>, actor: UserId): seq<UserId> {
    Without(Distinct(Present(values)), actor)
  }

  // Transactions

  function FieldsOf(issue: Issue): Fields {
    Fields(issue.summary, issue.description, issue.kind, issue.priority)
  }

  function CreatedValue(issue: Issue): Change {
    Created(issue.key, issue.summary, issue.kind, issue.priority, issue.status, issue.assignee)
  }

  /** A new outbox row has made no attempts and is due at once. */
  function NewRow(issue: Issue, actor: UserId, payload: Payload, draw: Draw): OutboxRow {
    OutboxRow(Event(draw.eventId, issue.id, issue.version, issue.projectId, actor, payload, draw.now), false, 0, draw.now)
  }

  function NextNumber(db: Db, projectId: Uuid): nat {
    if projectId in db.sequences then db.sequences[projectId] + 1 else 1
  }

  function NewIssueRow(data: NewIssue, number: nat, draw: Draw): Issue {
    Issue(draw.issueId, data.projectId, number, IssueKey(data.projectKey, number),
          data.summary, data.description, data.kind, data.priority, Todo,
          data.reporter, data.assignee, data.epicId, data.sprintId, 1, draw.now, draw.now)
  }

  function CreateIssue(db: Db, data: NewIssue, draw: Draw): Result<Db, DbError> {
    if draw.issueId in db.issues || draw.eventId in db.outbox then Err(DuplicateKey)
    else
      var number := NextNumber(db, data.projectId);
      var issue := NewIssueRow(data, number, draw);
      var payload := IssueCreated(issue.key, issue.summary, issue.reporter, issue.assignee,
                                  Recipients([issue.assignee], data.reporter));
      Ok(db.(
        sequences := db.sequences[data.projectId := number],
        issues := db.issues[issue.id := issue],
        history := db.history + [HistoryRow(issue.id, data.reporter, CREATED, NoValue, CreatedValue(issue))],
        outbox := db.outbox[draw.eventId := NewRow(issue, data.reporter, payload, draw)]))
  }

  /** The setters of each write, with the version bump every one of them makes. */
  function Updated(row: Issue, w: Write, now: Time): Issue {
    var bumped := row.(version := row.version + 1, updatedAt := now);
    match w
    case Update(f) => bumped.(summary := f.summary, description := f.description, kind := f.kind, priority := f.priority)
    case Assign(a) => bumped.(assignee := a)
    case Transit(t) => bumped.(status := t.to)
    case AddComment(_) => bumped
  }

  /** The history row. Its from value comes from the snapshot the caller holds, not from the stored row. */
  function HistoryFor(snapshot: Issue, updated: Issue, w: Write, actor: UserId, draw: Draw): HistoryRow {
    match w
    case Update(_) => HistoryRow(updated.id, actor, UPDATED, FieldsValue(FieldsOf(snapshot)), FieldsValue(FieldsOf(updated)))
    case Assign(a) => HistoryRow(updated.id, actor, ASSIGNEE_CHANGED, AssigneeValue(snapshot.assignee), AssigneeValue(a))
    case Transit(t) => HistoryRow(updated.id, actor, STATUS_CHANGED, StatusValue(t.from), StatusValue(t.to))
    case AddComment(_) => HistoryRow(updated.id, actor, COMMENT_ADDED, NoValue, CommentValue(draw.commentId))
  }

  function Preview(body: string): string { if |body| <= 160 then body else body[..160] }

  function PayloadFor(snapshot: Issue, updated: Issue, w: Write, actor: UserId, draw: Draw): Payload {
    var current := Recipients([Some(updated.reporter), updated.assignee], actor);
    match w
    case Update(_) => IssueUpdated(updated.key, FieldsOf(snapshot), FieldsOf(updated), current)
    case Assign(a) => IssueAssigned(updated.key, snapshot.assignee, a, Recipients([Some(updated.reporter), a], actor))
    case Transit(t) => IssueTransitioned(updated.key, t.from, t.to, current)
    case AddComment(body) => IssueCommented(snapshot.key, draw.commentId, Preview(body),
                                            Recipients([Some(snapshot.reporter), snapshot.assignee], actor))
  }

  /** updateIssue, assignIssue, transitionIssue and addComment: compare-and-swap on the version, then one
      history row and one outbox row in the same transaction. */
  function WriteIssue(db: Db, snapshot: Issue, expectedVersion: nat, w: Write, actor: UserId, draw: Draw): Result<Db, DbError> {
    if snapshot.id !in db.issues || db.issues[snapshot.id].version != expectedVersion then Err(Conflict)
    else if draw.eventId in db.outbox || (w.AddComment? && draw.commentId in db.comments) then Err(DuplicateKey)
    else
      var updated := Updated(db.issues[snapshot.id], w, draw.now);
      Ok(db.(
        issues := db.issues[snapshot.id := updated],
        history := db.history + [HistoryFor(snapshot, updated, w, actor, draw)],
        outbox := db.outbox[draw.eventId := NewRow(updated, actor, PayloadFor(snapshot, updated, w, actor, draw), draw)],
        comments := if w.AddComment? then db.comments[draw.commentId := Comment(snapshot.id, actor, w.body, draw.now)]
                    else db.comments))
  }

  datatype Tx =
    | CreateTx(data: NewIssue)
    | WriteTx(snapshot: Issue, expectedVersion: nat, write: Write, actor: UserId)

  function Run(db: Db, tx: Tx, draw: Draw): Result<Db, DbError> {
    match tx
    case CreateTx(data) => CreateIssue(db, data, draw)
    case WriteTx(snapshot, expected, w, actor) => WriteIssue(db, snapshot, expected, w, actor, draw)
  }

  /** A transaction as the database keeps it: an error or a failed commit leaves no trace. */
  function Commit(db: Db, tx: Tx, draw: Draw, commits: bool): Db {
    match Run(db, tx, draw)
    case Ok(db') => if commits then db' else db
    case Err(_) => db
  }

  // Recipients are exactly the named users other than the actor, each once

  predicate NoDuplicates<T(==)>(s: seq<T>) {
    forall i, j :: 0 <= i < j < |s| ==> s[i] != s[j]
  }

  lemma {:induction false} DistinctKeepsMembers(values: seq<UserId>)
    ensures NoDuplicates(Distinct(values)) && forall u :: u in Distinct(values) <==> u in values
  {
    if values != [] {
      var n := |values| - 1;
      DistinctKeepsMembers(values[..n]);
      assert values == values[..n] + [values[n]];
    }
  }

  lemma {:induction false} PresentMembers(values: seq<Option<UserId>>)
    ensures forall u :: u in Present(values) <==> u != "" && Some(u) in values
  {
    if values != [] {
      PresentMembers(values[1..]);
      assert values == [values[0]] + values[1..];
    }
  }

  lemma {:induction false} WithoutMembers(values: seq<UserId>, actor: UserId)
    ensures forall u :: u in Without(values, actor) <==> u != actor && u in values
    ensures NoDuplicates(values) ==> NoDuplicates(Without(values, actor))
  {
    if values != [] {
      WithoutMembers(values[1..], actor);
      assert values == [values[0]] + values[1..];
      if NoDuplicates(values) {
        assert NoDuplicates(values[1..]);
        assert values[0] !in values[1..];
      }
    }
  }

  /** The candidate recipients of an event: the users named, except the actor and blanks, none twice. */
  lemma RecipientsExact(values: seq<Option<UserId>>, actor: UserId)
    ensures NoDuplicates(Recipients(values, actor))
    ensures forall u :: u in Recipients(values, actor) <==> u != actor && u != "" && Some(u) in values
  {
    PresentMembers(values);
    DistinctKeepsMembers(Present(values));
    WithoutMembers(Distinct(Present(values)), actor);
  }

  // What a transaction stores

  /** The event announces this version of the issue, on behalf of `actor`, to its reporter and its assignee: each of them
      once, if named and not the actor. */
  ghost predicate Announces(event: Event, issue: Issue, actor: UserId) {
    && event.aggregateId == issue.id && event.aggregateVersion == issue.version && event.projectId == issue.projectId
    && event.actor == actor && event.occurredAt == issue.updatedAt && event.payload.issueKey == issue.key
    && NoDuplicates(event.payload.recipients)
    && forall u :: u in event.payload.recipients <==> u != actor && u != "" && (u == issue.reporter || issue.assignee == Some(u))
  }

  /** The row is due at once, and nobody has tried to publish it. */
  predicate IsFresh(row: OutboxRow) { !row.published && row.attempts == 0 && row.nextAttemptAt == row.event.occurredAt }

  /** The issue is the one asked for, as it is when nobody has changed it. */
  predicate AsAsked(issue: Issue, data: NewIssue, draw: Draw) {
    && issue.id == draw.issueId && issue.version == 1 && issue.status == Todo && issue.createdAt == issue.updatedAt == draw.now
    && issue.projectId == data.projectId && issue.key == IssueKey(data.projectKey, issue.number)
    && issue.summary == data.summary && issue.description == data.description
    && issue.kind == data.kind && issue.priority == data.priority
    && issue.reporter == data.reporter && issue.assignee == data.assignee
    && issue.epicId == data.epicId && issue.sprintId == data.sprintId
  }

  /** The event of a comment shows its first 160 characters. */
  predicate IsPreview(payload: Payload, commentId: Uuid, body: string) {
    payload.IssueCommented? && payload.commentId == commentId && payload.preview <= body && |payload.preview| == Min(|body|, 160)
  }

  /** With ids that are new, a creation stores the issue asked for and its event, and touches no other issue, event or
      comment. */
  lemma CreateStoresRequest(db: Db, data: NewIssue, draw: Draw)
    ensures CreateIssue(db, data, draw).Ok? <==> draw.issueId !in db.issues && draw.eventId !in db.outbox
    ensures CreateIssue(db, data, draw).Ok? ==>
            var db' := CreateIssue(db, data, draw).value;
            && draw.issueId in db'.issues && draw.eventId in db'.outbox
            && AsAsked(db'.issues[draw.issueId], data, draw)
            && Announces(db'.outbox[draw.eventId].event, db'.issues[draw.issueId], data.reporter)
            && db'.outbox[draw.eventId].event.payload.IssueCreated? && IsFresh(db'.outbox[draw.eventId])
            && db'.issues - {draw.issueId} == db.issues && db'.outbox - {draw.eventId} == db.outbox && db'.comments == db.comments
  {
    RecipientsExact([data.assignee], data.reporter);
    if CreateIssue(db, data, draw).Ok? {
      var db' := CreateIssue(db, data, draw).value;
      assert db'.issues - {draw.issueId} == db.issues && db'.outbox - {draw.eventId} == db.outbox;
    }
  }

  /** The event of a write made on the row itself announces the row it produces. */
  lemma WriteAnnounces(row: Issue, w: Write, actor: UserId, draw: Draw)
    ensures var updated := Updated(row, w, draw.now);
            var out := NewRow(updated, actor, PayloadFor(row, updated, w, actor, draw), draw);
            && Announces(out.event, updated, actor) && IsFresh(out) && out.event.eventId == draw.eventId
            && (w.AddComment? ==> IsPreview(out.event.payload, draw.commentId, w.body))
  {
    var updated := Updated(row, w, draw.now);
    RecipientsExact([Some(updated.reporter), updated.assignee], actor);
  }
}
