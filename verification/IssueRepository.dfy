/** The repository and the service as objects: transactions that update the tables in place and roll back, and
    service calls whose read and write are separated by other clients' transactions. */
module IssueRepository {
  import opened Types
  import opened Issues
  import opened IssueDatabase
  import opened IssueHistory

  datatype Txn = Txn(tx: Tx, draw: Draw, commits: bool)

  function AfterTxns(db: Db, txns: seq<Txn>): Db
    decreases |txns|
  {
    if txns == [] then db else AfterTxns(Commit(db, txns[0].tx, txns[0].draw, txns[0].commits), txns[1..])
  }

  /** No transaction changes a row without raising its version. */
  lemma {:induction false} VersionGuardsRow(db: Db, txns: seq<Txn>, id: Uuid)
    requires id in db.issues
    ensures id in AfterTxns(db, txns).issues
    ensures var row := AfterTxns(db, txns).issues[id];
            row.version >= db.issues[id].version && (row.version == db.issues[id].version ==> row == db.issues[id])
    decreases |txns|
  {
    if txns != [] {
      VersionGuardsRow(Commit(db, txns[0].tx, txns[0].draw, txns[0].commits), txns[1..], id);
    }
  }

  class Repository {
    var issues: map<Uuid, Issue>
    var history: seq<HistoryRow>
    var outbox: map<Uuid, OutboxRow>
    var sequences: map<Uuid, nat>
    var comments: map<Uuid, Comment>

    function View(): Db
      reads this
    {
      Db(issues, history, outbox, sequences, comments)
    }

    constructor ()
      ensures View() == EMPTY
    {
      issues, history, outbox, sequences, comments := map[], [], map[], map[], map[];
    }

    method Restore(saved: Db)
      modifies this
      ensures View() == saved
    {
      issues, history, outbox, sequences, comments :=
        saved.issues, saved.history, saved.outbox, saved.sequences, saved.comments;
    }

    method UpdateWithVersion(id: Uuid, expectedVersion: nat, w: Write, now: Time) returns (updated: Option<Issue>)
      modifies this
      ensures updated.Some? <==> id in old(issues) && old(issues)[id].version == expectedVersion
      ensures updated.None? ==> View() == old(View())
      ensures updated.Some? ==>
                updated.value == Updated(old(issues)[id], w, now) &&
                View() == old(View()).(issues := old(issues)[id := updated.value])
    {
      if id !in issues || issues[id].version != expectedVersion { return None; }
      var row := issues[id];
      row := row.(version := row.version + 1, updatedAt := now);
      match w {
        case Update(f) => row := row.(summary := f.summary, description := f.description, kind := f.kind, priority := f.priority);
        case Assign(a) => row := row.(assignee := a);
        case Transit(t) => row := row.(status := t.to);
        case AddComment(_) =>
      }
      issues := issues[id := row];
      return Some(row);
    }

    method InsertHistory(row: HistoryRow)
      modifies this
      ensures View() == old(View()).(history := old(history) + [row])
    {
      history := history + [row];
    }

    method InsertEvent(row: OutboxRow) returns (ok: bool)
      modifies this
      ensures ok <==> row.event.eventId !in old(outbox)
      ensures View() == if ok then old(View()).(outbox := old(outbox)[row.event.eventId := row]) else old(View())
    {
      ok := row.event.eventId !in outbox;
      if ok { outbox := outbox[row.event.eventId := row]; }
    }

    method CreateIssue(data: NewIssue, draw: Draw, commits: bool) returns (r: Result<Issue, DbError>)
      modifies this
      ensures View() == Commit(old(View()), CreateTx(data), draw, commits)
      ensures r.Ok? <==> commits && draw.issueId !in old(issues) && draw.eventId !in old(outbox)
      ensures r.Err? ==> r.error == if draw.issueId in old(issues) || draw.eventId in old(outbox) then DuplicateKey else Aborted
      ensures r.Ok? ==> draw.issueId in issues && r.value == issues[draw.issueId] && AsAsked(r.value, data, draw)
    {
      var saved := View();
      var number := 1;
      if data.projectId in sequences { number := sequences[data.projectId] + 1; }
      sequences := sequences[data.projectId := number];
      if draw.issueId in issues {
        Restore(saved);
        return Err(DuplicateKey);
      }
      var issue := NewIssueRow(data, number, draw);
      issues := issues[draw.issueId := issue];
      InsertHistory(HistoryRow(issue.id, data.reporter, CREATED, NoValue, CreatedValue(issue)));
      var payload := IssueCreated(issue.key, issue.summary, issue.reporter, issue.assignee,
                                  Recipients([issue.assignee], data.reporter));
      var inserted := InsertEvent(NewRow(issue, data.reporter, payload, draw));
      if !inserted || !commits {
        Restore(saved);
        return Err(if inserted then Aborted else DuplicateKey);
      }
      return Ok(issue);
    }

    /** updateIssue, assignIssue, transitionIssue and addComment. */
    method WriteIssue(issue: Issue, expectedVersion: nat, w: Write, actor: UserId, draw: Draw, commits: bool)
      returns (r: Result<Issue, DbError>)
      modifies this
      ensures View() == Commit(old(View()), WriteTx(issue, expectedVersion, w, actor), draw, commits)
      ensures r.Ok? <==>
                commits && issue.id in old(issues) && old(issues)[issue.id].version == expectedVersion && draw.eventId !in old(outbox) &&
                (w.AddComment? ==> draw.commentId !in old(comments))
      ensures r.Ok? ==> issue.id in old(issues) && r.value == Updated(old(issues)[issue.id], w, draw.now)
      ensures r == Err(Conflict) <==> issue.id !in old(issues) || old(issues)[issue.id].version != expectedVersion
      ensures r.Err? && r.error != Conflict ==>
                r.error == if draw.eventId in old(outbox) || (w.AddComment? && draw.commentId in old(comments)) then DuplicateKey else Aborted
    {
      var saved := View();
      var updated := UpdateWithVersion(issue.id, expectedVersion, w, draw.now);
      if updated.None? { return Err(Conflict); }
      if w.AddComment? {
        if draw.commentId in comments {
          Restore(saved);
          return Err(DuplicateKey);
        }
        comments := comments[draw.commentId := Comment(issue.id, actor, w.body, draw.now)];
      }
      InsertHistory(HistoryFor(issue, updated.value, w, actor, draw));
      var inserted := InsertEvent(NewRow(updated.value, actor, PayloadFor(issue, updated.value, w, actor, draw), draw));
      if !inserted || !commits {
        Restore(saved);
        return Err(if inserted then Aborted else DuplicateKey);
      }
      return Ok(updated.value);
    }

    /** The transactions other clients commit meanwhile. */
    method RunOthers(others: seq<Txn>)
      modifies this
      ensures View() == AfterTxns(old(View()), others)
    {
      var i := 0;
      while i < |others|
        invariant 0 <= i <= |others|
        invariant AfterTxns(View(), others[i..]) == AfterTxns(old(View()), others)
      {
        var (tx, draw, commits) := (others[i].tx, others[i].draw, others[i].commits);
        assert others[i..][1..] == others[i + 1..];
        match tx {
          case CreateTx(data) => var _ := CreateIssue(data, draw, commits);
          case WriteTx(snapshot, expected, w, actor) => var _ := WriteIssue(snapshot, expected, w, actor, draw, commits);
        }
        i := i + 1;
      }
    }
  }

  datatype ServiceError = NotFound | Rejected(domain: DomainError) | Failed(db: DbError)

  /** How a request read from `before` and written to `mid` ends: it needs the issue to be there, to be acceptable on what
      was read, the row to have the version read still, new ids, and a commit that goes through, in this order. */
  function Verdict(before: Db, mid: Db, issueId: Uuid, request: Request, draw: Draw, commits: bool): Option<ServiceError> {
    if issueId !in before.issues then Some(NotFound)
    else if !Accepts(before.issues[issueId], request) then
      Some(Rejected(if request.expectedVersion == before.issues[issueId].version then InvalidTransition else ConcurrentModification))
    else if issueId !in mid.issues || mid.issues[issueId].version != before.issues[issueId].version then Some(Failed(Conflict))
    else if draw.eventId in mid.outbox || (request.CommentRequest? && draw.commentId in mid.comments) then Some(Failed(DuplicateKey))
    else if !commits then Some(Failed(Aborted))
    else None
  }

  class Service {
    const repository: Repository

    constructor (repository: Repository)
      ensures this.repository == repository
    {
      this.repository := repository;
    }

    /** Reads the issue, lets other clients commit, then checks and writes. A call that succeeds has changed, by
        one legal write, the row that was stored after the other clients; any other leaves their result alone. */
    method Save(issueId: Uuid, request: Request, actor: UserId, others: seq<Txn>, draw: Draw, commits: bool)
      returns (r: Result<Issue, ServiceError>)
      requires forall id :: id in repository.issues ==> repository.issues[id].id == id
      modifies repository
      ensures var mid := AfterTxns(old(repository.View()), others);
              && r.Err? == Verdict(old(repository.View()), mid, issueId, request, draw, commits).Some?
              && (r.Err? ==> r.error == Verdict(old(repository.View()), mid, issueId, request, draw, commits).value)
              && (r.Err? ==> repository.View() == mid)
              && (r.Ok? ==>
                    && issueId in mid.issues
                    && var (row, now) := (mid.issues[issueId], repository.View());
                    && Accepts(row, request) && Fulfils(row, r.value, request, draw.now)
                    && now.issues == mid.issues[issueId := r.value] && now.sequences == mid.sequences
                    && |now.history| == |mid.history| + 1 && mid.history <= now.history
                    && now.history[|mid.history|].issueId == issueId && now.history[|mid.history|].actor == actor
                    && now.history[|mid.history|].action == ActionFor(request)
                    && draw.eventId in now.outbox && now.outbox == mid.outbox[draw.eventId := now.outbox[draw.eventId]]
                    && Records(row, r.value, now.history[|mid.history|], now.outbox[draw.eventId].event.payload)
                    && Announces(now.outbox[draw.eventId].event, r.value, actor) && IsFresh(now.outbox[draw.eventId])
                    && (request.CommentRequest? ==>
                          IsPreview(now.outbox[draw.eventId].event.payload, draw.commentId, request.body))
                    && now.comments == if request.CommentRequest?
                                       then mid.comments[draw.commentId := Comment(issueId, actor, request.body, draw.now)]
                                       else mid.comments)
    {
      ghost var before := repository.View();
      if issueId !in repository.issues {
        repository.RunOthers(others);
        return Err(NotFound);
      }
      var issue := repository.issues[issueId];
      repository.RunOthers(others);
      VersionGuardsRow(before, others, issueId);
      PreparedAsAsked(issue, request, draw.now);
      match Prepare(issue, request) {
        case Err(error) => return Err(Rejected(error));
        case Ok((expected, w)) =>
          PreparedWriteRecords(issue, request, actor, draw);
          HistoryNamesIssue(issue, w, actor, draw);
          WriteAnnounces(issue, w, actor, draw);
          var written := repository.WriteIssue(issue, expected, w, actor, draw, commits);
          match written {
            case Err(error) => return Err(Failed(error));
            case Ok(updated) => return Ok(updated);
          }
      }
    }
  }
}
