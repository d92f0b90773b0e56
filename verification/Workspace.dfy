/** Workspace ownership under concurrency: use cases read and count first and write later, and a deferred trigger locks
    the workspace row and looks again at commit
    (apps/project-service-dotnet/Infrastructure/Data/Migrations/20260824140000_EnforceWorkspaceOwnerInvariant.cs). */
module Workspace {
  import opened Types

  datatype Role = Owner | Admin | Member

  /** A row of workspace_members. */
  datatype Row = Row(workspace: Uuid, user: string, role: Role)

  type Members = map<Uuid, Row>

  /** What EF sends: only changed columns. A role equal to the one loaded leaves the stored role alone. */
  datatype Write = SetRole(role: Role) | Touch | Delete

  /** One request. Its reads are done before its only transaction begins with the write. */
  datatype Stage =
    | Idle
    | Found(id: Uuid, loaded: Row)
    | Counted(id: Uuid, loaded: Row, owners: nat)
    /** In the transaction, holding the member row's lock. */
    | Wrote(id: Uuid, write: Write, before: Row)
    /** Committing, holding the workspace row's lock too. */
    | Locked(id: Uuid, write: Write, before: Row)
    /** The trigger has found an owner. */
    | Passed(id: Uuid, write: Write, before: Row)

  /** The database as it is, or as it would be with a weaker trigger. */
  datatype Trigger = NoTrigger | CheckOnly | LockAndCheck

  datatype State = State(members: Members, workspaces: set<Uuid>, requests: map<nat, Stage>, trigger: Trigger)

  datatype Step =
    | CreateWorkspace(workspace: Uuid, id: Uuid, user: string)
    | AddMember(id: Uuid, row: Row)
    | Find(t: nat, id: Uuid)
    | Count(t: nat)
    | Save(t: nat, write: Write)
    | Lock(t: nat)
    | Check(t: nat)
    | Commit(t: nat)
    /** Refused, failed, or rolled back. */
    | Abort(t: nat)

  predicate InTransaction(stage: Stage) { stage.Wrote? || stage.Locked? || stage.Passed? }

  predicate HoldsWorkspace(stage: Stage) { stage.Locked? || stage.Passed? }

  /** Whether the trigger looks at the write at all. */
  predicate Fires(write: Write, before: Row) {
    match write
    case SetRole(role) => before.role == Owner && role != Owner
    case Touch => false
    case Delete => true
  }

  function Apply(members: Members, id: Uuid, write: Write): Members
    requires id in members
  {
    match write
    case SetRole(role) => members[id := members[id].(role := role)]
    case Touch => members
    case Delete => members - {id}
  }

  /** A write leaves every row but its own alone; to its own it gives the role asked for, or nothing new, or it removes it. */
  lemma ApplyTouchesOneRow(members: Members, id: Uuid, write: Write)
    requires id in members
    ensures Apply(members, id, write) - {id} == members - {id}
    ensures id in Apply(members, id, write) <==> !write.Delete?
    ensures !write.Delete? ==>
              var row := Apply(members, id, write)[id];
              row.workspace == members[id].workspace && row.user == members[id].user &&
              row.role == if write.SetRole? then write.role else members[id].role
  {
    assert Apply(members, id, write) - {id} == members - {id};
  }

  predicate HasOwner(members: Members, w: Uuid) {
    exists id :: id in members && members[id].workspace == w && members[id].role == Owner
  }

  function Owners(members: Members, w: Uuid): set<Uuid> {
    set id | id in members && members[id].workspace == w && members[id].role == Owner
  }

  /** The use case counts the owners before it takes the role from one. */
  predicate MustCount(loaded: Row, write: Write) {
    loaded.role == Owner && (write.Delete? || (write.SetRole? && write.role != Owner))
  }

  predicate RowLocked(s: State, id: Uuid, t: nat) {
    exists u :: u in s.requests && u != t && InTransaction(s.requests[u]) && s.requests[u].id == id
  }

  predicate WorkspaceLocked(s: State, w: Uuid, t: nat) {
    exists u :: u in s.requests && u != t && HoldsWorkspace(s.requests[u]) && s.requests[u].before.workspace == w
  }

  predicate MaySave(stage: Stage, write: Write) {
    && (stage.Found? || stage.Counted?)
    && (write.SetRole? ==> write.role != stage.loaded.role)
    && (MustCount(stage.loaded, write) ==> stage.Counted? && stage.owners > 1)
  }

  /** No trigger fires, or it has passed; a trigger that does not find the workspace lets the write pass. */
  predicate MayCommit(s: State, stage: Stage) {
    || stage.Passed?
    || (stage.Wrote? && (s.trigger.NoTrigger? || !Fires(stage.write, stage.before) || stage.before.workspace !in s.workspaces))
  }

  predicate MayCheck(s: State, stage: Stage) {
    stage.Locked? || (stage.Wrote? && s.trigger.CheckOnly? && Fires(stage.write, stage.before) && stage.before.workspace in s.workspaces)
  }

  predicate MayLock(s: State, t: nat)
    requires t in s.requests
  {
    var stage := s.requests[t];
    && stage.Wrote? && s.trigger.LockAndCheck? && Fires(stage.write, stage.before) && stage.before.workspace in s.workspaces
    && !WorkspaceLocked(s, stage.before.workspace, t)
  }

  predicate Enabled(s: State, step: Step) {
    match step
    case CreateWorkspace(w, id, _) => w !in s.workspaces && id !in s.members && !RowsOf(s.members, w)
    case AddMember(id, row) =>
      && id !in s.members && row.workspace in s.workspaces
      && forall other :: other in s.members ==> s.members[other].workspace != row.workspace || s.members[other].user != row.user
    case Find(t, id) => t in s.requests && s.requests[t].Idle? && id in s.members
    case Count(t) => t in s.requests && s.requests[t].Found?
    case Save(t, write) => t in s.requests && MaySave(s.requests[t], write) && s.requests[t].id in s.members && !RowLocked(s, s.requests[t].id, t)
    case Lock(t) => t in s.requests && MayLock(s, t)
    case Check(t) => t in s.requests && MayCheck(s, s.requests[t]) && s.requests[t].id in s.members
    case Commit(t) => t in s.requests && MayCommit(s, s.requests[t]) && s.requests[t].id in s.members
    case Abort(t) => t in s.requests
  }

  /** Some row names the workspace. */
  predicate RowsOf(members: Members, w: Uuid) { exists id :: id in members && members[id].workspace == w }

  function Next(s: State, step: Step): State
    requires Enabled(s, step)
  {
    match step
    case CreateWorkspace(w, id, user) => s.(workspaces := s.workspaces + {w}, members := s.members[id := Row(w, user, Owner)])
    case AddMember(id, row) => s.(members := s.members[id := row])
    case Find(t, id) => s.(requests := s.requests[t := Found(id, s.members[id])])
    case Count(t) =>
      var r := s.requests[t];
      s.(requests := s.requests[t := Counted(r.id, r.loaded, |Owners(s.members, r.loaded.workspace)|)])
    case Save(t, write) =>
      var id := s.requests[t].id;
      s.(requests := s.requests[t := Wrote(id, write, s.members[id])])
    case Lock(t) =>
      var r := s.requests[t];
      s.(requests := s.requests[t := Locked(r.id, r.write, r.before)])
    case Check(t) =>
      var r := s.requests[t];
      var ok := HasOwner(Apply(s.members, r.id, r.write), r.before.workspace);
      s.(requests := s.requests[t := if ok then Passed(r.id, r.write, r.before) else Idle])
    case Commit(t) =>
      var r := s.requests[t];
      s.(members := Apply(s.members, r.id, r.write), requests := s.requests[t := Idle])
    case Abort(t) => s.(requests := s.requests[t := Idle])
  }

  // The invariant

  /** A transaction's row is as it found it: the lock keeps it so. And a passed check stays true. */
  predicate RequestInv(s: State, stage: Stage) {
    && (InTransaction(stage) ==> stage.id in s.members && s.members[stage.id] == stage.before)
    && (HoldsWorkspace(stage) ==> Fires(stage.write, stage.before))
    && (stage.Passed? ==> HasOwner(Apply(s.members, stage.id, stage.write), stage.before.workspace))
  }

  ghost predicate LocksInv(s: State) {
    && (forall t, u :: (t in s.requests && u in s.requests && t != u && InTransaction(s.requests[t]) && InTransaction(s.requests[u]))
          ==> s.requests[t].id != s.requests[u].id)
    && (forall t, u :: (t in s.requests && u in s.requests && t != u && HoldsWorkspace(s.requests[t]) && HoldsWorkspace(s.requests[u]))
          ==> s.requests[t].before.workspace != s.requests[u].before.workspace)
  }

  ghost predicate Inv(s: State) {
    && s.trigger == LockAndCheck
    && (forall id :: id in s.members ==> s.members[id].workspace in s.workspaces)
    && (forall w :: w in s.workspaces ==> HasOwner(s.members, w))
    && (forall t :: t in s.requests ==> RequestInv(s, s.requests[t]))
    && LocksInv(s)
  }

  lemma StillOwned(members: Members, members': Members, w: Uuid)
    requires HasOwner(members, w)
    requires forall id :: id in members && members[id].workspace == w && members[id].role == Owner ==> id in members' && members'[id] == members[id]
    ensures HasOwner(members', w)
  {
  }

  lemma InsertKeepsRequest(s: State, s': State, id: Uuid, row: Row, stage: Stage)
    requires RequestInv(s, stage) && id !in s.members && s'.members == s.members[id := row]
    ensures RequestInv(s', stage)
  {
    if stage.Passed? { StillOwned(Apply(s.members, stage.id, stage.write), Apply(s'.members, stage.id, stage.write), stage.before.workspace); }
  }

  lemma InsertKeepsInv(s: State, s': State, id: Uuid, row: Row)
    requires Inv(s) && id !in s.members && s'.members == s.members[id := row] && s'.requests == s.requests && s'.trigger == s.trigger
    requires s.workspaces <= s'.workspaces && row.workspace in s'.workspaces
    requires forall w :: w in s'.workspaces && w !in s.workspaces ==> row.workspace == w && row.role == Owner
    ensures Inv(s')
  {
    hide HasOwner;
    forall w | w in s'.workspaces ensures HasOwner(s'.members, w) {
      if w in s.workspaces { StillOwned(s.members, s'.members, w); } else { IsOwned(s'.members, id, w); }
    }
    forall t | t in s'.requests ensures RequestInv(s', s'.requests[t]) { InsertKeepsRequest(s, s', id, row, s.requests[t]); }
  }

  lemma IsOwned(members: Members, id: Uuid, w: Uuid)
    requires id in members && members[id].workspace == w && members[id].role == Owner
    ensures HasOwner(members, w)
  {
  }

  /** A step that changes only one request's stage, and takes no lock another request holds. */
  lemma StageKeepsInv(s: State, t: nat, stage: Stage)
    requires Inv(s) && t in s.requests && RequestInv(s, stage)
    requires InTransaction(stage) ==> !RowLocked(s, stage.id, t)
    requires HoldsWorkspace(stage) ==> !WorkspaceLocked(s, stage.before.workspace, t)
    ensures Inv(s.(requests := s.requests[t := stage]))
  {
    hide HasOwner;
    var s' := s.(requests := s.requests[t := stage]);
    forall u | u in s'.requests ensures RequestInv(s', s'.requests[u]) {
      if u != t { assert RequestInv(s, s.requests[u]); }
    }
  }

  lemma LocksAreHeld(s: State, t: nat)
    requires LocksInv(s) && t in s.requests
    ensures InTransaction(s.requests[t]) ==> !RowLocked(s, s.requests[t].id, t)
    ensures HoldsWorkspace(s.requests[t]) ==> !WorkspaceLocked(s, s.requests[t].before.workspace, t)
  {
  }

  /** A committed write that the trigger does not look at, or that it has let pass, leaves every workspace an owner. */
  lemma CommitKeepsOwners(s: State, t: nat, w: Uuid)
    requires Inv(s) && Enabled(s, Commit(t)) && w in s.workspaces
    ensures HasOwner(Next(s, Commit(t)).members, w)
  {
    var r := s.requests[t];
    assert RequestInv(s, r);
    var id :| id in s.members && s.members[id].workspace == w && s.members[id].role == Owner;
    if r.before.workspace != w || !Fires(r.write, r.before) {
      IsOwned(Apply(s.members, r.id, r.write), id, w);
    }
  }

  /** The lock at work: while a request waits to commit after its check, no commit can take the owner it has seen. */
  lemma CommitKeepsPassed(s: State, t: nat, u: nat)
    requires Inv(s) && Enabled(s, Commit(t)) && u in s.requests && u != t
    ensures RequestInv(Next(s, Commit(t)), s.requests[u])
  {
    hide LocksInv;
    LocksAreHeld(s, t);
    LocksAreHeld(s, u);
    var (r, v) := (s.requests[t], s.requests[u]);
    assert RequestInv(s, r) && RequestInv(s, v);
    if v.Passed? {
      var members := Apply(s.members, v.id, v.write);
      var id :| id in members && members[id].workspace == v.before.workspace && members[id].role == Owner;
      assert v.id != r.id;
      assert Fires(r.write, r.before) ==> r.before.workspace != v.before.workspace;
      IsOwned(Apply(Apply(s.members, r.id, r.write), v.id, v.write), id, v.before.workspace);
    }
  }

  lemma CommitKeepsInv(s: State, t: nat)
    requires Inv(s) && Enabled(s, Commit(t))
    ensures Inv(Next(s, Commit(t)))
  {
    hide HasOwner, RequestInv;
    var s' := Next(s, Commit(t));
    forall w | w in s'.workspaces ensures HasOwner(s'.members, w) { CommitKeepsOwners(s, t, w); }
    forall u | u in s'.requests ensures RequestInv(s', s'.requests[u]) {
      if u == t { IdleIsFine(s'); } else {
        CommitKeepsPassed(s, t, u);
        SameMembers(s', Next(s, Commit(t)), s.requests[u]);
      }
    }
  }

  lemma IdleIsFine(s: State)
    ensures RequestInv(s, Idle)
  {
  }

  lemma SameMembers(s: State, s': State, stage: Stage)
    requires s.members == s'.members && RequestInv(s', stage)
    ensures RequestInv(s, stage)
  {
  }

  lemma NextKeepsInv(s: State, step: Step)
    requires Inv(s) && Enabled(s, step)
    ensures Inv(Next(s, step))
  {
    hide HasOwner, Fires, LocksInv;
    match step
    case CreateWorkspace(w, id, user) => InsertKeepsInv(s, Next(s, step), id, Row(w, user, Owner));
    case AddMember(id, row) => InsertKeepsInv(s, Next(s, step), id, row);
    case Find(t, id) => StageKeepsInv(s, t, Found(id, s.members[id]));
    case Count(t) =>
      StageKeepsInv(s, t, Next(s, step).requests[t]);
    case Save(t, write) => StageKeepsInv(s, t, Wrote(s.requests[t].id, write, s.members[s.requests[t].id]));
    case Lock(t) =>
      LocksAreHeld(s, t);
      assert RequestInv(s, s.requests[t]);
      StageKeepsInv(s, t, Next(s, step).requests[t]);
    case Check(t) =>
      LocksAreHeld(s, t);
      assert RequestInv(s, s.requests[t]);
      StageKeepsInv(s, t, Next(s, step).requests[t]);
    case Commit(t) => CommitKeepsInv(s, t);
    case Abort(t) => StageKeepsInv(s, t, Idle);
  }

  // Runs

  predicate Executable(s: State, steps: seq<Step>)
    decreases |steps|
  {
    steps == [] || (Enabled(s, steps[0]) && Executable(Next(s, steps[0]), steps[1..]))
  }

  function After(s: State, steps: seq<Step>): State
    requires Executable(s, steps)
    decreases |steps|
  {
    if steps == [] then s else After(Next(s, steps[0]), steps[1..])
  }

  function Initial(requests: set<nat>, trigger: Trigger): State { State(map[], {}, map t | t in requests :: Idle, trigger) }

  lemma {:induction false} RunKeepsInv(s: State, steps: seq<Step>)
    requires Inv(s) && Executable(s, steps)
    ensures Inv(After(s, steps))
    decreases |steps|
  {
    hide Inv, Enabled, Next;
    if steps != [] {
      NextKeepsInv(s, steps[0]);
      RunKeepsInv(Next(s, steps[0]), steps[1..]);
    }
  }

  /** After any interleaving of creations, additions, role changes and removals, with owner counts as stale as you like,
      every workspace has an owner. */
  lemma EveryWorkspaceHasAnOwner(requests: set<nat>, steps: seq<Step>, w: Uuid)
    requires Executable(Initial(requests, LockAndCheck), steps)
    requires w in After(Initial(requests, LockAndCheck), steps).workspaces
    ensures HasOwner(After(Initial(requests, LockAndCheck), steps).members, w)
  {
    RunKeepsInv(Initial(requests, LockAndCheck), steps);
  }

  /** The locks never stop everybody: a request in its transaction can move, or another one holding the workspace can. */
  lemma NeverStuck(s: State, t: nat)
    requires Inv(s) && t in s.requests && InTransaction(s.requests[t])
    ensures exists u :: u in s.requests && (Enabled(s, Lock(u)) || Enabled(s, Check(u)) || Enabled(s, Commit(u)))
  {
    hide HasOwner, LocksInv;
    var r := s.requests[t];
    assert RequestInv(s, r);
    if r.Wrote? && Fires(r.write, r.before) && r.before.workspace in s.workspaces && WorkspaceLocked(s, r.before.workspace, t) {
      var u :| u in s.requests && u != t && HoldsWorkspace(s.requests[u]) && s.requests[u].before.workspace == r.before.workspace;
      assert RequestInv(s, s.requests[u]);
      assert Enabled(s, Check(u)) || Enabled(s, Commit(u));
    } else {
      assert Enabled(s, Lock(t)) || Enabled(s, Check(t)) || Enabled(s, Commit(t));
    }
  }

  /** On current data the use case's count and the trigger's check agree: an owner may go exactly when it is not the
      only one. Only staleness separates them. */
  lemma CountAgreesWithTrigger(members: Members, id: Uuid, write: Write)
    requires id in members && MustCount(members[id], write)
    ensures HasOwner(Apply(members, id, write), members[id].workspace) <==> |Owners(members, members[id].workspace)| > 1
  {
    var w := members[id].workspace;
    var (owners, left) := (Owners(members, w), Apply(members, id, write));
    assert id in owners;
    assert |owners - {id}| == |owners| - 1;
    if HasOwner(left, w) {
      var other :| other in left && left[other].workspace == w && left[other].role == Owner;
      assert other in owners - {id};
    }
    if |owners| > 1 {
      assert owners - {id} != {};
      var other :| other in owners - {id};
      IsOwned(left, other, w);
    }
  }

  lemma {:induction false} RunsConcatenate(s: State, a: seq<Step>, b: seq<Step>)
    requires Executable(s, a) && Executable(After(s, a), b)
    ensures Executable(s, a + b) && After(s, a + b) == After(After(s, a), b)
    decreases |a|
  {
    hide Enabled, Next;
    if a == [] {
      assert a + b == b;
    } else {
      RunsConcatenate(Next(s, a[0]), a[1..], b);
      assert (a + b)[1..] == a[1..] + b;
    }
  }

  lemma OneMore(s: State, steps: seq<Step>, step: Step)
    requires Executable(s, steps) && Enabled(After(s, steps), step)
    ensures Executable(s, steps + [step]) && After(s, steps + [step]) == Next(After(s, steps), step)
  {
    hide Enabled, Next;
    assert [step][1..] == [];
    RunsConcatenate(s, steps, [step]);
  }

  // Without the lock

  predicate Ran(trigger: Trigger, steps: seq<Step>, s: State) {
    Executable(Initial({0, 1}, trigger), steps) && s == After(Initial({0, 1}, trigger), steps)
  }

  lemma Take(trigger: Trigger, steps: seq<Step>, s: State, step: Step) returns (steps': seq<Step>, s': State)
    requires Ran(trigger, steps, s) && Enabled(s, step)
    ensures Ran(trigger, steps', s') && s' == Next(s, step)
  {
    hide Enabled, Next;
    steps', s' := steps + [step], Next(s, step);
    OneMore(Initial({0, 1}, trigger), steps, step);
  }

  lemma NothingRan(trigger: Trigger)
    ensures Ran(trigger, [], Initial({0, 1}, trigger))
  {
  }

  function Pair(a: Stage, b: Stage): map<nat, Stage> { map[0 := a, 1 := b] }

  const ANN := Row(7, "ann", Owner)
  const BOB := Row(7, "bob", Owner)

  function TwoOwners(trigger: Trigger, a: Stage, b: Stage): State {
    State(map[1 := ANN, 2 := BOB], {7}, Pair(a, b), trigger)
  }

  lemma OwnersAreTwo(trigger: Trigger, a: Stage, b: Stage)
    ensures |Owners(TwoOwners(trigger, a, b).members, 7)| == 2
  {
    assert Owners(TwoOwners(trigger, a, b).members, 7) == {1, 2};
  }

  lemma BothFound(trigger: Trigger) returns (steps: seq<Step>, s: State)
    ensures Ran(trigger, steps, s) && s == TwoOwners(trigger, Found(1, ANN), Found(2, BOB))
  {
    hide Ran;
    NothingRan(trigger);
    steps, s := Take(trigger, [], Initial({0, 1}, trigger), CreateWorkspace(7, 1, "ann"));
    steps, s := Take(trigger, steps, s, AddMember(2, BOB));
    steps, s := Take(trigger, steps, s, Find(0, 1));
    steps, s := Take(trigger, steps, s, Find(1, 2));
    assert s.members == map[1 := ANN, 2 := BOB] && s.requests == Pair(Found(1, ANN), Found(2, BOB)) && s.workspaces == {7};
  }

  /** Both requests have counted two owners, and each has written its demotion. */
  lemma BothWrote(trigger: Trigger) returns (steps: seq<Step>, s: State)
    ensures Ran(trigger, steps, s) && s == TwoOwners(trigger, Wrote(1, SetRole(Member), ANN), Wrote(2, SetRole(Member), BOB))
  {
    hide Ran, Owners;
    steps, s := BothFound(trigger);
    OwnersAreTwo(trigger, Found(1, ANN), Found(2, BOB));
    steps, s := Take(trigger, steps, s, Count(0));
    steps, s := Take(trigger, steps, s, Count(1));
    assert s == TwoOwners(trigger, Counted(1, ANN, 2), Counted(2, BOB, 2));
    steps, s := Take(trigger, steps, s, Save(0, SetRole(Member)));
    steps, s := Take(trigger, steps, s, Save(1, SetRole(Member)));
    assert s.requests == Pair(Wrote(1, SetRole(Member), ANN), Wrote(2, SetRole(Member), BOB));
  }

  /** Each sees the other's owner, whose demotion is not committed. */
  lemma BothCheck() returns (steps: seq<Step>, s: State)
    ensures Ran(CheckOnly, steps, s) && s == TwoOwners(CheckOnly, Passed(1, SetRole(Member), ANN), Passed(2, SetRole(Member), BOB))
  {
    hide Ran, HasOwner;
    steps, s := BothWrote(CheckOnly);
    IsOwned(Apply(s.members, 1, SetRole(Member)), 2, 7);
    steps, s := Take(CheckOnly, steps, s, Check(0));
    IsOwned(Apply(s.members, 2, SetRole(Member)), 1, 7);
    steps, s := Take(CheckOnly, steps, s, Check(1));
    assert s.requests == Pair(Passed(1, SetRole(Member), ANN), Passed(2, SetRole(Member), BOB));
  }

  /** Write skew: without the trigger, or with a trigger that checks but does not lock, two demotions that overlap leave
      a workspace with no owner. */
  lemma WithoutTheLockOwnersCanVanish(trigger: Trigger) returns (steps: seq<Step>, s: State)
    requires trigger != LockAndCheck
    ensures Ran(trigger, steps, s) && 7 in s.workspaces && !HasOwner(s.members, 7)
  {
    hide Ran, HasOwner;
    if trigger == CheckOnly { steps, s := BothCheck(); } else { steps, s := BothWrote(trigger); }
    steps, s := Take(trigger, steps, s, Commit(0));
    steps, s := Take(trigger, steps, s, Commit(1));
    assert s.members == map[1 := ANN.(role := Member), 2 := BOB.(role := Member)];
    NobodyOwns(s.members);
  }

  lemma NobodyOwns(members: Members)
    requires members == map[1 := ANN.(role := Member), 2 := BOB.(role := Member)]
    ensures !HasOwner(members, 7)
  {
  }
}
