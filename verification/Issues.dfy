/** The issue domain (apps/issue-service-nest/src/domain/issue.ts). */
module Issues {
  import opened Types

  type UserId = string

  datatype Kind = Task | Bug | Story
  datatype Priority = Low | Medium | High | Critical
  datatype Status = Todo | InProgress | Done

  /** The key shown to users: the project's key and the issue's number. */
  datatype IssueKey = IssueKey(projectKey: string, number: nat)

  datatype Issue = Issue(
    id: Uuid, projectId: Uuid, number: nat, key: IssueKey,
    summary: string, description: Option<string>, kind: Kind, priority: Priority, status: Status,
    reporter: UserId, assignee: Option<UserId>, epicId: Option<Uuid>, sprintId: Option<Uuid>,
    version: nat, createdAt: Time, updatedAt: Time)

  /** A status change that has passed the workflow check. */
  datatype Transition = Transition(from: Status, to: Status)

  datatype DomainError = InvalidTransition | ConcurrentModification

  function Transitions(from: Status): seq<Status> {
    match from
    case Todo => [InProgress]
    case InProgress => [Todo, Done]
    case Done => [InProgress]
  }

  function AssertTransition(from: Status, to: Status): Result<Transition, DomainError> {
    if from == to || to !in Transitions(from) then Err(InvalidTransition) else Ok(Transition(from, to))
  }

  /** An edge of the workflow, in either direction: to do - in progress - done. */
  predicate LegalEdge(from: Status, to: Status) {
    (from == InProgress) != (to == InProgress)
  }

  lemma WorkflowEdges(from: Status, to: Status)
    ensures AssertTransition(from, to) == (if LegalEdge(from, to) then Ok(Transition(from, to)) else Err(InvalidTransition))
  {
  }
}
