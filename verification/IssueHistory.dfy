/** Issue writes under concurrency: clients read a snapshot, check it, and compare-and-swap later
    (apps/issue-service-nest/src/application/issue-application.service.ts). */
module IssueHistory {
  import opened Types
  import opened Issues
  import opened IssueDatabase

  // The service's checks, made on the snapshot

  datatype Patch = Patch(
    summary: Option<string>, description: Option<Option<string>>, kind: Option<Kind>, priority: Option<Priority>)

  datatype Request =
    | UpdateRequest(patch: Patch, expectedVersion: nat)
    | AssignRequest(assignee: Option<UserId>, expectedVersion: nat)
    | TransitionRequest(to: Status, expectedVersion: nat)
    | CommentRequest(body: string)

  function Or<T>(value: Option<T>, default: T): T {
    match value case Some(v) => v case None => default
  }

  function Merge(issue: Issue, patch: Patch): Fields {
    Fields(Or(patch.summary, issue.summary), Or(patch.description, issue.description),
           Or(patch.kind, issue.kind), Or(patch.priority, issue.priority))
  }

  /** The write a request becomes after the checks on the snapshot. A comment expects the snapshot's version. */
  function Prepare(snapshot: Issue, request: Request): Result<(nat, Write), DomainError> {
    match request
    case CommentRequest(body) => Ok((snapshot.version, AddComment(body)))
    case UpdateRequest(patch, expected) =>
      if snapshot.version != expected then Err(ConcurrentModification)
      else Ok((expected, Update(Merge(snapshot, patch))))
    case AssignRequest(assignee, expected) =>
      if snapshot.version != expected then Err(ConcurrentModification)
      else Ok((expected, Assign(assignee)))
    case TransitionRequest(to, expected) =>
      if snapshot.version != expected then Err(ConcurrentModification)
      else match AssertTransition(snapshot.status, to)
        case Err(error) => Err(error)
        case Ok(t) => Ok((expected, Transit(t)))
  }

  // What a request asks for

  /** The service accepts it on this row: it names the row's version, and a status change follows the workflow. */
  predicate Accepts(issue: Issue, request: Request) {
    request.CommentRequest? ||
    (request.expectedVersion == issue.version && (request.TransitionRequest? ==> LegalEdge(issue.status, request.to)))
  }

  /** What is asked for is taken over; what is not stays. */
  predicate Takes<T(==)>(asked: Option<T>, before: T, after: T) {
    (asked.Some? ==> after == asked.value) && (asked.None? ==> after == before)
  }

  /** `after` is the next version of `before`, changed as the request asks and in nothing else. */
  predicate Fulfils(before: Issue, after: Issue, request: Request, now: Time) {
    && after.version == before.version + 1 && after.updatedAt == now
    && after.id == before.id && after.projectId == before.projectId && after.number == before.number && after.key == before.key
    && after.reporter == before.reporter && after.epicId == before.epicId && after.sprintId == before.sprintId
    && after.createdAt == before.createdAt
    && (if request.UpdateRequest? then
          && Takes(request.patch.summary, before.summary, after.summary)
          && Takes(request.patch.description, before.description, after.description)
          && Takes(request.patch.kind, before.kind, after.kind) && Takes(request.patch.priority, before.priority, after.priority)
        else
          && after.summary == before.summary && after.description == before.description
          && after.kind == before.kind && after.priority == before.priority)
    && after.assignee == (if request.AssignRequest? then request.assignee else before.assignee)
    && after.status == (if request.TransitionRequest? then request.to else before.status)
  }

  function ActionFor(request: Request): Action {
    match request
    case UpdateRequest(_, _) => UPDATED
    case AssignRequest(_, _) => ASSIGNEE_CHANGED
    case TransitionRequest(_, _) => STATUS_CHANGED
    case CommentRequest(_) => COMMENT_ADDED
  }

  /** The checks let through exactly the requests the service accepts, expecting the version of the row checked, and the
      write they become does what was asked. */
  lemma PreparedAsAsked(issue: Issue, request: Request, now: Time)
    ensures Prepare(issue, request).Ok? <==> Accepts(issue, request)
    ensures Prepare(issue, request) == Err(InvalidTransition) <==>
              request.TransitionRequest? && request.expectedVersion == issue.version && !LegalEdge(issue.status, request.to)
    ensures Prepare(issue, request).Ok? ==>
              var (expected, w) := Prepare(issue, request).value;
              expected == issue.version && Fulfils(issue, Updated(issue, w, now), request, now) &&
              (request.CommentRequest? <==> w.AddComment?) && (w.AddComment? ==> w.body == request.body)
  {
    if request.TransitionRequest? { WorkflowEdges(issue.status, request.to); }
  }

  // The state machine

  /** One version of an issue: its row and the event that announced it. */
  datatype Entry = Entry(row: Issue, eventId: Uuid)

  /** The database, what each client last read, and two history variables: every version each issue has had,
      and the issues of each project in number order. */
  datatype State = State(
    db: Db, snapshots: map<nat, Issue>, past: map<Uuid, seq<Entry>>, numbered: map<Uuid, seq<Uuid>>)

  datatype Step =
    | Create(data: NewIssue, draw: Draw, commits: bool)
    | Load(client: nat, issueId: Uuid)
    | Save(client: nat, request: Request, actor: UserId, draw: Draw, commits: bool)

  const INITIAL := State(EMPTY, map[], map[], map[])

  function Numbered(s: State, projectId: Uuid): seq<Uuid> {
    if projectId in s.numbered then s.numbered[projectId] else []
  }

  function Past(s: State, id: Uuid): seq<Entry> { if id in s.past then s.past[id] else [] }

  function NextCreate(s: State, data: NewIssue, draw: Draw, commits: bool): State {
    match CreateIssue(s.db, data, draw)
    case Err(_) => s
    case Ok(db') =>
      if !commits then s
      else s.(db := db',
              past := s.past[draw.issueId := [Entry(db'.issues[draw.issueId], draw.eventId)]],
              numbered := s.numbered[data.projectId := Numbered(s, data.projectId) + [draw.issueId]])
  }

  function NextSave(s: State, snapshot: Issue, request: Request, actor: UserId, draw: Draw, commits: bool): State {
    match Prepare(snapshot, request)
    case Err(_) => s
    case Ok((expected, w)) =>
      match WriteIssue(s.db, snapshot, expected, w, actor, draw)
      case Err(_) => s
      case Ok(db') =>
        if !commits then s
        else s.(db := db',
                past := s.past[snapshot.id := Past(s, snapshot.id) + [Entry(db'.issues[snapshot.id], draw.eventId)]])
  }

  function Next(s: State, step: Step): State {
    match step
    case Create(data, draw, commits) => NextCreate(s, data, draw, commits)
    case Load(client, id) => if id in s.db.issues then s.(snapshots := s.snapshots[client := s.db.issues[id]]) else s
    case Save(client, request, actor, draw, commits) =>
      if client in s.snapshots then NextSave(s, s.snapshots[client], request, actor, draw, commits) else s
  }

  function After(s: State, steps: seq<Step>): State
    decreases |steps|
  {
    if steps == [] then s else After(Next(s, steps[0]), steps[1..])
  }

  // The invariant

  function HistoryOf(h: seq<HistoryRow>, id: Uuid): seq<HistoryRow> {
    if h == [] then []
    else
      var front := HistoryOf(h[..|h| - 1], id);
      var last := h[|h| - 1];
      if last.issueId == id then front + [last] else front
  }

  lemma HistoryOfAppend(h: seq<HistoryRow>, row: HistoryRow, id: Uuid)
    ensures HistoryOf(h + [row], id) == HistoryOf(h, id) + (if row.issueId == id then [row] else [])
  {
    assert (h + [row])[..|h|] == h;
  }

  /** A history row and an event tell the truth about the step from one version to the next. */
  predicate Records(prev: Issue, next: Issue, row: HistoryRow, payload: Payload) {
    match row.action
    case CREATED => false
    case UPDATED =>
      && row.fromValue == FieldsValue(FieldsOf(prev)) && row.toValue == FieldsValue(FieldsOf(next))
      && next == Updated(prev, Update(FieldsOf(next)), next.updatedAt)
      && payload.IssueUpdated? && payload.from == FieldsOf(prev) && payload.to == FieldsOf(next)
    case ASSIGNEE_CHANGED =>
      && row.fromValue == AssigneeValue(prev.assignee) && row.toValue == AssigneeValue(next.assignee)
      && next == Updated(prev, Assign(next.assignee), next.updatedAt)
      && payload.IssueAssigned? && payload.previous == prev.assignee && payload.assignee == next.assignee
    case STATUS_CHANGED =>
      && LegalEdge(prev.status, next.status)
      && row.fromValue == StatusValue(prev.status) && row.toValue == StatusValue(next.status)
      && next == Updated(prev, Transit(Transition(prev.status, next.status)), next.updatedAt)
      && payload.IssueTransitioned? && payload.fromStatus == prev.status && payload.toStatus == next.status
    case COMMENT_ADDED =>
      && row.fromValue == NoValue && row.toValue.CommentValue?
      && next == Updated(prev, AddComment(""), next.updatedAt)
      && payload.IssueCommented? && payload.commentId == row.toValue.commentId
  }

  predicate RecordsCreation(first: Issue, row: HistoryRow, payload: Payload) {
    && row.action == CREATED && row.fromValue == NoValue && row.toValue == CreatedValue(first)
    && first.status == Todo && payload.IssueCreated? && payload.issueKey == first.key
  }

  /** Version i + 1 of an issue, its event and its history row agree. */
  ghost predicate EntryAgrees(outbox: map<Uuid, OutboxRow>, hs: seq<HistoryRow>, entries: seq<Entry>, id: Uuid, i: nat)
    requires i < |entries| == |hs|
  {
    var entry := entries[i];
    && entry.row.id == id && entry.row.version == i + 1
    && entry.eventId in outbox
    && Announces(outbox[entry.eventId].event, entry.row, hs[i].actor)
    && (if i == 0 then RecordsCreation(entry.row, hs[0], outbox[entry.eventId].event.payload)
        else Records(entries[i - 1].row, entry.row, hs[i], outbox[entry.eventId].event.payload))
  }

  ghost predicate EntriesAgree(outbox: map<Uuid, OutboxRow>, hs: seq<HistoryRow>, entries: seq<Entry>, id: Uuid) {
    && |entries| == |hs| > 0
    && forall i :: 0 <= i < |entries| ==> EntryAgrees(outbox, hs, entries, id, i)
  }

  ghost predicate IssueInv(db: Db, entries: seq<Entry>, id: Uuid) {
    && EntriesAgree(db.outbox, HistoryOf(db.history, id), entries, id)
    && id in db.issues && db.issues[id] == entries[|entries| - 1].row
  }

  ghost predicate IssuesInv(s: State) {
    && s.past.Keys == s.db.issues.Keys
    && (forall id :: id in s.past ==> IssueInv(s.db, s.past[id], id))
    && (forall id :: id !in s.past ==> HistoryOf(s.db.history, id) == [])
  }

  /** Event `e` announces one of the versions of its issue. */
  ghost predicate EventInv(s: State, e: Uuid)
    requires e in s.db.outbox
  {
    var event := s.db.outbox[e].event;
    && event.eventId == e && event.aggregateId in s.past
    && 1 <= event.aggregateVersion <= |s.past[event.aggregateId]|
    && s.past[event.aggregateId][event.aggregateVersion - 1].eventId == e
  }

  ghost predicate OutboxInv(s: State) { forall e :: e in s.db.outbox ==> EventInv(s, e) }

  /** Place `k` of a project's list holds its issue number k + 1. */
  ghost predicate NumberSlot(s: State, p: Uuid, k: nat)
    requires p in s.numbered && k < |s.numbered[p]|
  {
    var id := s.numbered[p][k];
    id in s.db.issues && s.db.issues[id].projectId == p && s.db.issues[id].number == k + 1
  }

  /** An issue stands in its project's list, at its number. */
  ghost predicate IsNumbered(s: State, id: Uuid)
    requires id in s.db.issues
  {
    var issue := s.db.issues[id];
    && issue.projectId in s.numbered && 1 <= issue.number <= |s.numbered[issue.projectId]|
    && s.numbered[issue.projectId][issue.number - 1] == id
  }

  ghost predicate NumbersInv(s: State) {
    && s.numbered.Keys == s.db.sequences.Keys
    && (forall p :: p in s.numbered ==> |s.numbered[p]| == s.db.sequences[p])
    && (forall p, k: nat :: p in s.numbered && k < |s.numbered[p]| ==> NumberSlot(s, p, k))
    && (forall id :: id in s.db.issues ==> IsNumbered(s, id))
  }

  /** What a client holds is a version its issue has had. */
  ghost predicate SnapshotInv(s: State, snapshot: Issue) {
    && snapshot.id in s.past && 1 <= snapshot.version <= |s.past[snapshot.id]|
    && s.past[snapshot.id][snapshot.version - 1].row == snapshot
  }

  ghost predicate SnapshotsInv(s: State) {
    forall c :: c in s.snapshots ==> SnapshotInv(s, s.snapshots[c])
  }

  ghost predicate Inv(s: State) {
    IssuesInv(s) && OutboxInv(s) && NumbersInv(s) && SnapshotsInv(s)
  }

  lemma CurrentVersion(s: State, id: Uuid)
    requires IssuesInv(s) && id in s.past
    ensures |s.past[id]| > 0 && id in s.db.issues
    ensures s.db.issues[id] == s.past[id][|s.past[id]| - 1].row
    ensures s.db.issues[id].id == id && s.db.issues[id].version == |s.past[id]|
  {
    var entries := s.past[id];
    assert IssueInv(s.db, entries, id);
    assert EntryAgrees(s.db.outbox, HistoryOf(s.db.history, id), entries, id, |entries| - 1);
  }

  /** A snapshot whose version equals the stored version is the stored row. */
  lemma EqualVersionsEqualRows(s: State, client: nat)
    requires Inv(s) && client in s.snapshots
    ensures var snapshot := s.snapshots[client];
            && snapshot.id in s.db.issues && snapshot.version <= s.db.issues[snapshot.id].version
            && (snapshot.version == s.db.issues[snapshot.id].version ==> snapshot == s.db.issues[snapshot.id])
  {
    CurrentVersion(s, s.snapshots[client].id);
  }

  /** What one committed transaction does, whichever it is: it stores the next version of one issue, and adds one
      history row and one event that tell the truth about it. */
  ghost predicate AddsVersion(s: State, s': State, issue: Issue, row: HistoryRow, out: OutboxRow) {
    var id := issue.id;
    var entries := Past(s, id);
    && s'.db.issues == s.db.issues[id := issue]
    && s'.db.history == s.db.history + [row] && row.issueId == id
    && out.event.eventId !in s.db.outbox && s'.db.outbox == s.db.outbox[out.event.eventId := out]
    && Announces(out.event, issue, row.actor) && issue.version == |entries| + 1
    && s'.past == s.past[id := entries + [Entry(issue, out.event.eventId)]]
    && s'.snapshots == s.snapshots
    && (if entries == [] then RecordsCreation(issue, row, out.event.payload)
        else Records(entries[|entries| - 1].row, issue, row, out.event.payload))
  }

  lemma EntriesKeepAgreeing(outbox: map<Uuid, OutboxRow>, out: OutboxRow, hs: seq<HistoryRow>, entries: seq<Entry>, id: Uuid)
    requires EntriesAgree(outbox, hs, entries, id) && out.event.eventId !in outbox
    ensures EntriesAgree(outbox[out.event.eventId := out], hs, entries, id)
  {
    var outbox' := outbox[out.event.eventId := out];
    forall i | 0 <= i < |entries| ensures EntryAgrees(outbox', hs, entries, id, i) {
      assert EntryAgrees(outbox, hs, entries, id, i);
    }
  }

  lemma EntryAdded(outbox: map<Uuid, OutboxRow>, hs: seq<HistoryRow>, entries: seq<Entry>, id: Uuid, row: HistoryRow, entry: Entry)
    requires entries != [] ==> EntriesAgree(outbox, hs, entries, id)
    requires |entries| == |hs|
    requires EntryAgrees(outbox, hs + [row], entries + [entry], id, |entries|)
    ensures EntriesAgree(outbox, hs + [row], entries + [entry], id)
  {
    forall i | 0 <= i < |entries| ensures EntryAgrees(outbox, hs + [row], entries + [entry], id, i) {
      assert EntryAgrees(outbox, hs, entries, id, i);
    }
  }

  lemma OtherIssuesKeepInv(s: State, s': State, issue: Issue, row: HistoryRow, out: OutboxRow, id: Uuid)
    requires IssuesInv(s) && AddsVersion(s, s', issue, row, out) && id != issue.id
    ensures id in s.past ==> IssueInv(s'.db, s'.past[id], id)
    ensures id !in s.past ==> HistoryOf(s'.db.history, id) == []
  {
    HistoryOfAppend(s.db.history, row, id);
    if id in s.past {
      EntriesKeepAgreeing(s.db.outbox, out, HistoryOf(s.db.history, id), s.past[id], id);
    }
  }

  lemma ChangedIssueKeepsInv(s: State, s': State, issue: Issue, row: HistoryRow, out: OutboxRow)
    requires IssuesInv(s) && AddsVersion(s, s', issue, row, out)
    ensures IssueInv(s'.db, s'.past[issue.id], issue.id)
  {
    var id := issue.id;
    var (entries, hs) := (Past(s, id), HistoryOf(s.db.history, id));
    HistoryOfAppend(s.db.history, row, id);
    if id in s.past {
      assert IssueInv(s.db, s.past[id], id);
      EntriesKeepAgreeing(s.db.outbox, out, hs, entries, id);
    }
    assert EntryAgrees(s'.db.outbox, hs + [row], s'.past[id], id, |entries|);
    EntryAdded(s'.db.outbox, hs, entries, id, row, Entry(issue, out.event.eventId));
  }

  lemma AddKeepsIssues(s: State, s': State, issue: Issue, row: HistoryRow, out: OutboxRow)
    requires IssuesInv(s) && AddsVersion(s, s', issue, row, out)
    ensures IssuesInv(s')
  {
    ChangedIssueKeepsInv(s, s', issue, row, out);
    forall id | id != issue.id
      ensures id in s'.past ==> IssueInv(s'.db, s'.past[id], id)
      ensures id !in s'.past ==> HistoryOf(s'.db.history, id) == []
    {
      OtherIssuesKeepInv(s, s', issue, row, out, id);
    }
  }

  lemma AddKeepsOutbox(s: State, s': State, issue: Issue, row: HistoryRow, out: OutboxRow)
    requires OutboxInv(s) && SnapshotsInv(s) && AddsVersion(s, s', issue, row, out)
    ensures OutboxInv(s') && SnapshotsInv(s')
  {
    forall e | e in s'.db.outbox ensures EventInv(s', e) {
      if e != out.event.eventId { assert EventInv(s, e); }
    }
    forall c | c in s'.snapshots ensures SnapshotInv(s', s'.snapshots[c]) {
      assert SnapshotInv(s, s.snapshots[c]);
    }
  }

  lemma CreateAddsVersion(s: State, data: NewIssue, draw: Draw)
    requires Inv(s) && CreateIssue(s.db, data, draw).Ok?
    ensures var s' := NextCreate(s, data, draw, true);
            && draw.issueId in s'.db.issues && draw.eventId in s'.db.outbox
            && AddsVersion(s, s', s'.db.issues[draw.issueId], s'.db.history[|s.db.history|], s'.db.outbox[draw.eventId])
  {
    assert Past(s, draw.issueId) == [];
    CreateStoresRequest(s.db, data, draw);
    var entry := Entry(NextCreate(s, data, draw, true).db.issues[draw.issueId], draw.eventId);
    assert [] + [entry] == [entry];
  }

  lemma CreateKeepsNumbers(s: State, s': State, issue: Issue)
    requires NumbersInv(s) && issue.id !in s.db.issues
    requires s'.db.issues == s.db.issues[issue.id := issue] && issue.number == NextNumber(s.db, issue.projectId)
    requires s'.db.sequences == s.db.sequences[issue.projectId := issue.number]
    requires s'.numbered == s.numbered[issue.projectId := Numbered(s, issue.projectId) + [issue.id]]
    ensures NumbersInv(s')
  {
    var list := Numbered(s, issue.projectId);
    assert |list| + 1 == issue.number;
    assert s'.numbered.Keys == s'.db.sequences.Keys;
    forall p, k: nat | p in s'.numbered && k < |s'.numbered[p]| ensures NumberSlot(s', p, k) {
      if p != issue.projectId || k < |list| { assert NumberSlot(s, p, k); }
    }
    forall id | id in s'.db.issues ensures IsNumbered(s', id) {
      if id != issue.id { assert IsNumbered(s, id); }
    }
  }

  lemma CreateKeepsInv(s: State, data: NewIssue, draw: Draw)
    requires Inv(s) && CreateIssue(s.db, data, draw).Ok?
    ensures Inv(NextCreate(s, data, draw, true))
  {
    var s' := NextCreate(s, data, draw, true);
    CreateAddsVersion(s, data, draw);
    var (issue, row, out) := (s'.db.issues[draw.issueId], s'.db.history[|s.db.history|], s'.db.outbox[draw.eventId]);
    AddKeepsIssues(s, s', issue, row, out);
    AddKeepsOutbox(s, s', issue, row, out);
    CreateKeepsNumbers(s, s', issue);
  }

  /** The checks of a request pass and its compare-and-swap succeeds. */
  ghost predicate Saves(s: State, client: nat, request: Request, actor: UserId, draw: Draw) {
    && client in s.snapshots && Prepare(s.snapshots[client], request).Ok?
    && var (expected, w) := Prepare(s.snapshots[client], request).value;
    WriteIssue(s.db, s.snapshots[client], expected, w, actor, draw).Ok?
  }

  /** A write that passed the checks on a snapshot records the truth about the row it produces from it. */
  lemma PreparedWriteRecords(snapshot: Issue, request: Request, actor: UserId, draw: Draw)
    requires Prepare(snapshot, request).Ok?
    ensures var w := Prepare(snapshot, request).value.1;
            var updated := Updated(snapshot, w, draw.now);
            Records(snapshot, updated, HistoryFor(snapshot, updated, w, actor, draw), PayloadFor(snapshot, updated, w, actor, draw)) &&
            HistoryFor(snapshot, updated, w, actor, draw).action == ActionFor(request)
  {
    if request.TransitionRequest? { WorkflowEdges(snapshot.status, request.to); }
  }

  lemma HistoryNamesIssue(snapshot: Issue, w: Write, actor: UserId, draw: Draw)
    ensures HistoryFor(snapshot, Updated(snapshot, w, draw.now), w, actor, draw).issueId == snapshot.id
    ensures HistoryFor(snapshot, Updated(snapshot, w, draw.now), w, actor, draw).actor == actor
  {
  }

  lemma SaveAddsVersion(s: State, client: nat, request: Request, actor: UserId, draw: Draw)
    requires Inv(s) && Saves(s, client, request, actor, draw)
    ensures var snapshot := s.snapshots[client];
            var s' := NextSave(s, snapshot, request, actor, draw, true);
            && snapshot.id in s.db.issues && s.db.issues[snapshot.id] == snapshot
            && snapshot.id in s'.db.issues && draw.eventId in s'.db.outbox && |s'.db.history| > |s.db.history|
            && AddsVersion(s, s', s'.db.issues[snapshot.id], s'.db.history[|s.db.history|], s'.db.outbox[draw.eventId])
  {
    hide Records, HistoryFor, PayloadFor, Recipients, IssueInv, NumbersInv, Announces, IsFresh, Preview;
    var snapshot := s.snapshots[client];
    EqualVersionsEqualRows(s, client);
    CurrentVersion(s, snapshot.id);
    HistoryNamesIssue(snapshot, Prepare(snapshot, request).value.1, actor, draw);
    WriteAnnounces(snapshot, Prepare(snapshot, request).value.1, actor, draw);
    PreparedWriteRecords(snapshot, request, actor, draw);
  }

  lemma SaveKeepsInv(s: State, client: nat, request: Request, actor: UserId, draw: Draw)
    requires Inv(s) && Saves(s, client, request, actor, draw)
    ensures Inv(NextSave(s, s.snapshots[client], request, actor, draw, true))
  {
    hide IssuesInv, OutboxInv, SnapshotsInv, NumbersInv, Records, RecordsCreation, HistoryFor, PayloadFor, NewRow;
    var id := s.snapshots[client].id;
    var s' := NextSave(s, s.snapshots[client], request, actor, draw, true);
    SaveAddsVersion(s, client, request, actor, draw);
    var (issue, row, out) := (s'.db.issues[id], s'.db.history[|s.db.history|], s'.db.outbox[draw.eventId]);
    AddKeepsIssues(s, s', issue, row, out);
    AddKeepsOutbox(s, s', issue, row, out);
    SaveKeepsNumbers(s, s', s.db.issues[id], issue);
  }

  lemma SaveKeepsNumbers(s: State, s': State, before: Issue, issue: Issue)
    requires NumbersInv(s) && issue.id in s.db.issues && s.db.issues[issue.id] == before
    requires s'.db.issues == s.db.issues[issue.id := issue]
    requires issue.projectId == before.projectId && issue.number == before.number
    requires s'.db.sequences == s.db.sequences && s'.numbered == s.numbered
    ensures NumbersInv(s')
  {
    forall p, k: nat | p in s'.numbered && k < |s'.numbered[p]| ensures NumberSlot(s', p, k) {
      assert NumberSlot(s, p, k);
    }
    forall id | id in s'.db.issues ensures IsNumbered(s', id) {
      assert IsNumbered(s, id);
    }
  }

  lemma LoadKeepsInv(s: State, client: nat, id: Uuid)
    requires Inv(s) && id in s.db.issues
    ensures Inv(s.(snapshots := s.snapshots[client := s.db.issues[id]]))
  {
    hide IssueInv;
    var s' := s.(snapshots := s.snapshots[client := s.db.issues[id]]);
    CurrentVersion(s, id);
    forall e | e in s'.db.outbox ensures EventInv(s', e) { assert EventInv(s, e); }
    SaveKeepsNumbers(s, s', s.db.issues[id], s.db.issues[id]);
    forall c | c in s'.snapshots ensures SnapshotInv(s', s'.snapshots[c]) {
      if c != client { assert SnapshotInv(s, s.snapshots[c]); }
    }
  }

  lemma NextKeepsInv(s: State, step: Step)
    requires Inv(s)
    ensures Inv(Next(s, step))
  {
    match step
    case Create(data, draw, commits) =>
      if commits && CreateIssue(s.db, data, draw).Ok? { CreateKeepsInv(s, data, draw); }
    case Load(client, id) =>
      if id in s.db.issues { LoadKeepsInv(s, client, id); }
    case Save(client, request, actor, draw, commits) =>
      if commits && Saves(s, client, request, actor, draw) { SaveKeepsInv(s, client, request, actor, draw); }
  }

  lemma {:induction false} RunKeepsInv(s: State, steps: seq<Step>)
    requires Inv(s)
    ensures Inv(After(s, steps))
    decreases |steps|
  {
    if steps != [] {
      NextKeepsInv(s, steps[0]);
      RunKeepsInv(Next(s, steps[0]), steps[1..]);
    }
  }

  ghost predicate Reachable(s: State) { exists steps :: s == After(INITIAL, steps) }

  lemma ReachableInv(s: State)
    requires Reachable(s)
    ensures Inv(s)
  {
    var steps :| s == After(INITIAL, steps);
    RunKeepsInv(INITIAL, steps);
  }

  // What holds in every reachable state

  /** A request is checked on a snapshot that may be old, but when its compare-and-swap succeeds the snapshot is
      the row stored at that moment: the request is accepted on the stored row, and changes it as it asks. */
  lemma StaleChecksHold(s: State, client: nat, request: Request, actor: UserId, draw: Draw)
    requires Reachable(s) && Saves(s, client, request, actor, draw)
    ensures var (snapshot, s') := (s.snapshots[client], Next(s, Save(client, request, actor, draw, true)));
            && snapshot.id in s.db.issues && s.db.issues[snapshot.id] == snapshot
            && Accepts(s.db.issues[snapshot.id], request)
            && snapshot.id in s'.db.issues
            && Fulfils(s.db.issues[snapshot.id], s'.db.issues[snapshot.id], request, draw.now)
  {
    hide Reachable, IssueInv, NumbersInv, OutboxInv, Fulfils, Accepts, Prepare, HistoryFor, PayloadFor, Updated;
    ReachableInv(s);
    EqualVersionsEqualRows(s, client);
    PreparedAsAsked(s.snapshots[client], request, draw.now);
  }

  /** A client that has just loaded an issue gets its request through, when the service accepts it on the row as it is, the
      ids drawn are new and the commit succeeds: the stored row then fulfils it. */
  lemma FreshRequestGoesThrough(s: State, client: nat, id: Uuid, request: Request, actor: UserId, draw: Draw)
    requires Reachable(s) && id in s.db.issues && Accepts(s.db.issues[id], request)
    requires draw.eventId !in s.db.outbox && draw.commentId !in s.db.comments
    ensures var (loaded, saved) := (Next(s, Load(client, id)), Next(Next(s, Load(client, id)), Save(client, request, actor, draw, true)));
            && client in loaded.snapshots && loaded.snapshots[client] == s.db.issues[id] && loaded.db == s.db
            && id in saved.db.issues && Fulfils(s.db.issues[id], saved.db.issues[id], request, draw.now)
  {
    hide Reachable, IssueInv, NumbersInv, OutboxInv, SnapshotsInv, Fulfils, Accepts, Prepare, HistoryFor, PayloadFor, Updated;
    ReachableInv(s);
    CurrentVersion(s, id);
    PreparedAsAsked(s.db.issues[id], request, draw.now);
  }

  /** Every version of every issue was announced by one event, to its reporter and assignee as they were then: whoever of
      them did not make the change himself. */
  lemma EventsNameReporterAndAssignee(s: State, e: Uuid)
    requires Reachable(s) && e in s.db.outbox
    ensures var event := s.db.outbox[e].event;
            && event.aggregateId in s.db.issues && 1 <= event.aggregateVersion <= |Past(s, event.aggregateId)|
            && |Past(s, event.aggregateId)| == |HistoryOf(s.db.history, event.aggregateId)|
            && Announces(event, Past(s, event.aggregateId)[event.aggregateVersion - 1].row,
                         HistoryOf(s.db.history, event.aggregateId)[event.aggregateVersion - 1].actor)
  {
    hide Reachable, NumbersInv, SnapshotsInv, Announces;
    ReachableInv(s);
    assert EventInv(s, e);
    var (id, i) := (s.db.outbox[e].event.aggregateId, s.db.outbox[e].event.aggregateVersion - 1);
    assert IssueInv(s.db, s.past[id], id);
    assert EntryAgrees(s.db.outbox, HistoryOf(s.db.history, id), s.past[id], id, i);
  }

  /** Replaying the to-values of a history, in commit order. CREATED does not record the description. */
  datatype Known = Known(
    summary: string, kind: Kind, priority: Priority, status: Status, assignee: Option<UserId>,
    description: Option<Option<string>>)

  function ReplayRow(k: Option<Known>, row: HistoryRow): Option<Known> {
    match row.toValue
    case Created(_, summary, kind, priority, status, assignee) => Some(Known(summary, kind, priority, status, assignee, None))
    case FieldsValue(f) =>
      if k.None? then None
      else Some(k.value.(summary := f.summary, kind := f.kind, priority := f.priority, description := Some(f.description)))
    case AssigneeValue(a) => if k.None? then None else Some(k.value.(assignee := a))
    case StatusValue(status) => if k.None? then None else Some(k.value.(status := status))
    case CommentValue(_) => k
    case NoValue => k
  }

  function Replay(hs: seq<HistoryRow>): Option<Known> {
    if hs == [] then None else ReplayRow(Replay(hs[..|hs| - 1]), hs[|hs| - 1])
  }

  predicate Shows(k: Option<Known>, issue: Issue) {
    && k.Some? && k.value.summary == issue.summary && k.value.kind == issue.kind && k.value.priority == issue.priority
    && k.value.status == issue.status && k.value.assignee == issue.assignee
    && (k.value.description.Some? ==> k.value.description.value == issue.description)
  }

  lemma ReplayStep(prev: Issue, next: Issue, row: HistoryRow, payload: Payload, k: Option<Known>)
    requires Records(prev, next, row, payload) && Shows(k, prev)
    ensures Shows(ReplayRow(k, row), next)
  {
  }

  lemma {:induction false} ReplayShowsVersion(outbox: map<Uuid, OutboxRow>, hs: seq<HistoryRow>, entries: seq<Entry>, id: Uuid, n: nat)
    requires EntriesAgree(outbox, hs, entries, id) && 0 < n <= |entries|
    ensures Shows(Replay(hs[..n]), entries[n - 1].row)
  {
    assert EntryAgrees(outbox, hs, entries, id, n - 1);
    assert hs[..n][..n - 1] == hs[..n - 1];
    if n > 1 {
      ReplayShowsVersion(outbox, hs, entries, id, n - 1);
      ReplayStep(entries[n - 2].row, entries[n - 1].row, hs[n - 1], outbox[entries[n - 1].eventId].event.payload,
                 Replay(hs[..n - 1]));
    } else {
      assert hs[..0] == [];
    }
  }

  /** Replaying an issue's history gives its current summary, type, priority, status and assignee, and its
      description once an update has recorded it. */
  lemma HistoryReplaysToRow(s: State, id: Uuid)
    requires Reachable(s) && id in s.db.issues
    ensures Shows(Replay(HistoryOf(s.db.history, id)), s.db.issues[id])
  {
    ReachableInv(s);
    assert IssueInv(s.db, s.past[id], id);
    var hs := HistoryOf(s.db.history, id);
    ReplayShowsVersion(s.db.outbox, hs, s.past[id], id, |hs|);
    assert hs[..|hs|] == hs;
  }

  /** The from-value a truthful history row must carry, given the row before the change. */
  function TrueFromValue(action: Action, prior: Issue): Change {
    match action
    case CREATED => NoValue
    case UPDATED => FieldsValue(FieldsOf(prior))
    case ASSIGNEE_CHANGED => AssigneeValue(prior.assignee)
    case STATUS_CHANGED => StatusValue(prior.status)
    case COMMENT_ADDED => NoValue
  }

  /** Although it is copied from a snapshot, the from-value of row i of an issue's history is what version i of
      the issue held when version i + 1 replaced it; and between them the status kept still or moved along an
      edge of the workflow. */
  lemma FromValuesAreTrue(s: State, id: Uuid, i: nat)
    requires Reachable(s) && id in s.db.issues && 0 < i < |HistoryOf(s.db.history, id)|
    ensures var rows := Past(s, id);
            && |rows| == |HistoryOf(s.db.history, id)|
            && var (prior, next) := (rows[i - 1].row, rows[i].row);
            && prior.version == i && next.version == i + 1
            && HistoryOf(s.db.history, id)[i].fromValue == TrueFromValue(HistoryOf(s.db.history, id)[i].action, prior)
            && (prior.status == next.status || AssertTransition(prior.status, next.status).Ok?)
  {
    hide Reachable, OutboxInv, NumbersInv, SnapshotsInv;
    ReachableInv(s);
    assert IssueInv(s.db, s.past[id], id);
    var hs := HistoryOf(s.db.history, id);
    assert EntryAgrees(s.db.outbox, hs, s.past[id], id, i - 1);
    assert EntryAgrees(s.db.outbox, hs, s.past[id], id, i);
    WorkflowEdges(s.past[id][i - 1].row.status, s.past[id][i].row.status);
  }

  function UpTo(n: nat): (r: set<nat>)
    ensures forall k :: k in r <==> 1 <= k <= n
  {
    if n == 0 then {} else UpTo(n - 1) + {n}
  }

  ghost function EventsOf(outbox: map<Uuid, OutboxRow>, id: Uuid): set<Uuid> {
    set e | e in outbox && outbox[e].event.aggregateId == id
  }

  ghost function VersionsOf(outbox: map<Uuid, OutboxRow>, id: Uuid): set<nat> {
    set e | e in EventsOf(outbox, id) :: outbox[e].event.aggregateVersion
  }

  lemma {:induction false} InjectiveImageSize(s: seq<Uuid>, image: set<Uuid>)
    requires NoDuplicates(s) && image == set x | x in s
    ensures |image| == |s|
  {
    if s == [] {
      assert image == {};
    } else {
      var n := |s| - 1;
      InjectiveImageSize(s[..n], image - {s[n]});
    }
  }

  lemma EventAtVersion(s: State, id: Uuid, i: nat)
    requires Inv(s) && id in s.past && i < |s.past[id]|
    ensures var e := s.past[id][i].eventId;
            e in EventsOf(s.db.outbox, id) && s.db.outbox[e].event.aggregateVersion == i + 1
  {
    assert IssueInv(s.db, s.past[id], id);
    assert EntryAgrees(s.db.outbox, HistoryOf(s.db.history, id), s.past[id], id, i);
  }

  lemma EventsAreTheEntries(s: State, id: Uuid, ids: seq<Uuid>)
    requires Inv(s) && id in s.past && |ids| == |s.past[id]|
    requires forall i :: 0 <= i < |ids| ==> ids[i] == s.past[id][i].eventId
    ensures NoDuplicates(ids) && EventsOf(s.db.outbox, id) == set x | x in ids
  {
    forall i | 0 <= i < |ids|
      ensures ids[i] in EventsOf(s.db.outbox, id) && s.db.outbox[ids[i]].event.aggregateVersion == i + 1
    {
      EventAtVersion(s, id, i);
    }
    forall e | e in EventsOf(s.db.outbox, id) ensures e in ids {
      assert EventInv(s, e);
      assert ids[s.db.outbox[e].event.aggregateVersion - 1] == e;
    }
  }

  lemma VersionsAreUpTo(s: State, id: Uuid)
    requires Inv(s) && id in s.past
    ensures VersionsOf(s.db.outbox, id) == UpTo(|s.past[id]|)
  {
    hide IssuesInv, NumbersInv, SnapshotsInv;
    forall v | v in UpTo(|s.past[id]|) ensures v in VersionsOf(s.db.outbox, id) { EventAtVersion(s, id, v - 1); }
    forall e | e in EventsOf(s.db.outbox, id) ensures s.db.outbox[e].event.aggregateVersion in UpTo(|s.past[id]|) {
      assert EventInv(s, e);
    }
  }

  lemma EventsCountVersions(s: State, id: Uuid)
    requires Inv(s) && id in s.past
    ensures |EventsOf(s.db.outbox, id)| == |s.past[id]|
  {
    hide Inv;
    var entries := s.past[id];
    var ids := seq(|entries|, i requires 0 <= i < |entries| => entries[i].eventId);
    EventsAreTheEntries(s, id, ids);
    InjectiveImageSize(ids, EventsOf(s.db.outbox, id));
  }

  /** version = number of history rows = number of outbox rows, and the outbox versions are exactly 1..version. */
  lemma VersionCountsWrites(s: State, id: Uuid)
    requires Reachable(s) && id in s.db.issues
    ensures var version := s.db.issues[id].version;
            && |HistoryOf(s.db.history, id)| == version == |EventsOf(s.db.outbox, id)|
            && VersionsOf(s.db.outbox, id) == UpTo(version)
  {
    hide Reachable, EntryAgrees, EventsOf, VersionsOf, OutboxInv, NumbersInv, SnapshotsInv;
    ReachableInv(s);
    CurrentVersion(s, id);
    assert IssueInv(s.db, s.past[id], id);
    VersionsAreUpTo(s, id);
    EventsCountVersions(s, id);
  }

  ghost function IssuesOf(db: Db, projectId: Uuid): set<Uuid> {
    set id | id in db.issues && db.issues[id].projectId == projectId
  }

  ghost function NumbersOf(db: Db, projectId: Uuid): set<nat> {
    set id | id in IssuesOf(db, projectId) :: db.issues[id].number
  }

  /** The issues of a project carry exactly the numbers 1..last_number, one each, however many transactions
      rolled back. */
  lemma NumbersHaveNoGaps(s: State, projectId: Uuid)
    requires Reachable(s) && projectId in s.db.sequences
    ensures NumbersOf(s.db, projectId) == UpTo(s.db.sequences[projectId])
    ensures |IssuesOf(s.db, projectId)| == s.db.sequences[projectId]
  {
    ReachableInv(s);
    var list := s.numbered[projectId];
    forall k: nat | k < |list|
      ensures list[k] in IssuesOf(s.db, projectId) && s.db.issues[list[k]].number == k + 1
    {
      assert NumberSlot(s, projectId, k);
    }
    forall id | id in IssuesOf(s.db, projectId)
      ensures 1 <= s.db.issues[id].number <= |list| && list[s.db.issues[id].number - 1] == id
    {
      assert IsNumbered(s, id);
    }
    forall k | k in UpTo(|list|) ensures k in NumbersOf(s.db, projectId) { assert list[k - 1] in IssuesOf(s.db, projectId); }
    assert NoDuplicates(list);
    InjectiveImageSize(list, IssuesOf(s.db, projectId));
  }
}
