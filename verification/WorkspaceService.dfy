/** The membership use cases as code, each a few reads and one transaction, with every other request acting in between
    (apps/project-service-dotnet/Application/UseCases and Infrastructure/Data/Repositories/EfWorkspaceMemberRepository.cs). */
module WorkspaceService {
  import opened Types
  import opened Workspace

  datatype Outcome = Done | MemberNotFound | LastOwner | Failed

  /** The way one request went: whether it counted owners, what it wrote, and how its transaction ended. */
  datatype Path =
    | NotFound
    | Refused(id: Uuid)
    | GaveUp(id: Uuid, counted: bool, saved: Option<Write>)
    | Rejected(id: Uuid, counted: bool, write: Write)
    | Committed(id: Uuid, counted: bool, write: Write, fired: bool)

  function OutcomeOf(path: Path): Outcome {
    match path
    case NotFound => MemberNotFound
    case Refused(_) => LastOwner
    case GaveUp(_, _, _) => Failed
    case Rejected(_, _, _) => LastOwner
    case Committed(_, _, _, _) => Done
  }

  /** The steps of a request that went this way. */
  function StepsOf(t: nat, path: Path): seq<Step> {
    if path.NotFound? then [] else [Find(t, path.id)] + AfterFind(t, path)
  }

  function AfterFind(t: nat, path: Path): seq<Step>
    requires !path.NotFound?
  {
    if path.Refused? then [Count(t), Abort(t)]
    else if path.counted then [Count(t)] + SaveSteps(t, path)
    else SaveSteps(t, path)
  }

  /** The steps of the transaction. */
  function SaveSteps(t: nat, path: Path): seq<Step>
    requires path.GaveUp? || path.Rejected? || path.Committed?
  {
    match path
    case GaveUp(_, _, None) => [Abort(t)]
    case GaveUp(_, _, Some(w)) => [Save(t, w), Abort(t)]
    case Rejected(_, _, w) => [Save(t, w), Lock(t), Check(t)]
    case Committed(_, _, w, true) => [Save(t, w), Lock(t), Check(t), Commit(t)]
    case Committed(_, _, w, false) => [Save(t, w), Commit(t)]
  }

  /** The steps after the write, when the trigger fires. */
  function LockedSteps(t: nat, path: Path): seq<Step>
    requires path.GaveUp? || path.Rejected? || path.Committed?
  {
    match path
    case GaveUp(_, _, _) => [Abort(t)]
    case Rejected(_, _, _) => [Lock(t), Check(t)]
    case Committed(_, _, _, _) => [Lock(t), Check(t), Commit(t)]
  }

  lemma Joined(base: seq<Step>, a: Step, b: Step, c: Step, d: Step)
    ensures base + [a] + [b] == base + [a, b]
    ensures base + [a] + [b] + [c] == base + [a, b, c]
    ensures base + [a] + [b] + [c] + [d] == base + [a, b, c, d]
  {
  }

  lemma Prefixed(base: seq<Step>, a: Step, rest: seq<Step>)
    ensures base + [a] + rest == base + ([a] + rest)
  {
  }

  predicate OwnedBy(step: Step, t: nat) { !step.CreateWorkspace? && !step.AddMember? && step.t == t }

  function StepsBy(steps: seq<Step>, t: nat): seq<Step> {
    if steps == [] then []
    else StepsBy(steps[..|steps| - 1], t) + (if OwnedBy(steps[|steps| - 1], t) then [steps[|steps| - 1]] else [])
  }

  lemma StepsByOne(steps: seq<Step>, step: Step, t: nat)
    ensures StepsBy(steps + [step], t) == StepsBy(steps, t) + (if OwnedBy(step, t) then [step] else [])
  {
    assert (steps + [step])[..|steps|] == steps;
  }

  class Database {
    var members: Members
    var workspaces: set<Uuid>
    /** The transactions, with the locks they hold. */
    var requests: map<nat, Stage>
    ghost var origin: State
    ghost var trace: seq<Step>

    constructor (names: set<nat>)
      ensures Valid() && members == map[] && workspaces == {} && trace == [] && requests.Keys == names
    {
      members, workspaces, requests := map[], {}, map t | t in names :: Idle;
      origin, trace := Initial(names, LockAndCheck), [];
    }

    function View(): State
      reads this
    {
      State.State(members, workspaces, requests, LockAndCheck)
    }

    ghost predicate Valid()
      reads this
    {
      Executable(origin, trace) && View() == After(origin, trace) && Inv(View())
    }

    ghost predicate At(t: nat, stage: Stage)
      reads this
    {
      t in requests && requests[t] == stage
    }

    /** The state after one more step of `t`. */
    ghost predicate Took(before: State, steps: seq<Step>, step: Step, t: nat)
      reads this
    {
      Valid() && trace == steps + [step] && Enabled(before, step) && View() == Next(before, step) &&
      StepsBy(trace, t) == StepsBy(steps, t) + (if OwnedBy(step, t) then [step] else [])
    }

    /** The run has come past this point. */
    ghost predicate Was(steps: seq<Step>)
      reads this
    {
      Executable(origin, steps) && steps <= trace
    }

    lemma Extend(before: State, steps: seq<Step>, step: Step, t: nat)
      requires Executable(origin, steps) && before == After(origin, steps) && Inv(before)
      requires Enabled(before, step) && View() == Next(before, step) && trace == steps + [step]
      ensures Took(before, steps, step, t)
    {
      hide Enabled, Next, Inv, Executable, After;
      NextKeepsInv(before, step);
      OneMore(origin, steps, step);
      StepsByOne(steps, step, t);
    }

    /** Whatever the other requests do now: callers learn only that it is a run of the protocol. */
    method Interfere(ghost t: nat, ghost stage: Stage)
      requires Valid() && At(t, stage)
      modifies this
      ensures Valid() && At(t, stage) && StepsBy(trace, t) == StepsBy(old(trace), t) && origin == old(origin)
      ensures old(trace) <= trace
    {
    }

    /** Moves request `t` to the stage that `step` leads to. */
    method Move(t: nat, ghost step: Step, stage: Stage)
      requires Valid() && t in requests && Enabled(View(), step) && OwnedBy(step, t)
      requires Next(View(), step) == View().(requests := requests[t := stage])
      modifies this`requests, this`trace
      ensures Took(old(View()), old(trace), step, t) && At(t, stage)
    {
      hide Inv, Enabled, Next, Executable, After;
      ghost var (before, steps) := (View(), trace);
      requests := requests[t := stage];
      trace := trace + [step];
      Extend(before, steps, step, t);
    }

    /** CreateWorkspaceUseCase: the workspace and its first owner in one commit. */
    method Create(workspace: Uuid, id: Uuid, user: string) returns (ok: bool)
      requires Valid()
      modifies this
      ensures Valid() && origin == old(origin)
      ensures ok <==> Enabled(old(View()), CreateWorkspace(workspace, id, user))
      ensures ok ==> old(workspace !in workspaces) && workspaces == old(workspaces) + {workspace}
      ensures ok ==> members == old(members)[id := Row(workspace, user, Owner)]
      ensures !ok ==> unchanged(this)
    {
      hide Inv, Executable, After;
      ghost var (before, steps) := (View(), trace);
      if workspace in workspaces || id in members || RowsOf(members, workspace) { return false; }
      workspaces, members := workspaces + {workspace}, members[id := Row(workspace, user, Owner)];
      trace := trace + [CreateWorkspace(workspace, id, user)];
      Extend(before, steps, CreateWorkspace(workspace, id, user), 0);
      ok := true;
    }

    method FindMembership(t: nat, workspace: Uuid, user: string) returns (found: Option<Uuid>)
      requires Valid() && At(t, Idle)
      modifies this`requests, this`trace
      ensures Valid() && old(trace) <= trace
      ensures found.None? ==> unchanged(this) && forall id :: id in members ==> members[id].workspace != workspace || members[id].user != user
      ensures found.Some? ==> found.value in members && members[found.value].workspace == workspace && members[found.value].user == user
      ensures found.Some? ==> At(t, Found(found.value, members[found.value]))
      ensures found.Some? ==> StepsBy(trace, t) == StepsBy(old(trace), t) + [Find(t, found.value)]
      ensures members == old(members)
    {
      hide Inv, Executable, After, StepsBy;
      var ids := members.Keys;
      while ids != {}
        invariant ids <= members.Keys && unchanged(this)
        invariant forall id :: id in members && id !in ids ==> members[id].workspace != workspace || members[id].user != user
        decreases |ids|
      {
        var id :| id in ids;
        if members[id].workspace == workspace && members[id].user == user {
          Move(t, Find(t, id), Found(id, members[id]));
          return Some(id);
        }
        ids := ids - {id};
      }
      found := None;
    }

    method CountOwners(t: nat, id: Uuid, loaded: Row) returns (n: nat)
      requires Valid() && At(t, Found(id, loaded))
      modifies this`requests, this`trace
      ensures Valid() && n == |Owners(members, loaded.workspace)| && At(t, Counted(id, loaded, n)) && members == old(members)
      ensures trace == old(trace) + [Count(t)]
      ensures StepsBy(trace, t) == StepsBy(old(trace), t) + [Count(t)]
    {
      hide Inv, Executable, After, StepsBy;
      n := |Owners(members, loaded.workspace)|;
      Move(t, Count(t), Counted(id, loaded, n));
    }

    method Rollback(t: nat, ghost stage: Stage)
      requires Valid() && At(t, stage)
      modifies this`requests, this`trace
      ensures Valid() && At(t, Idle) && StepsBy(trace, t) == StepsBy(old(trace), t) + [Abort(t)]
      ensures trace == old(trace) + [Abort(t)] && View() == old(View()).(requests := old(View()).requests[t := Idle])
    {
      hide Inv, Executable, After, StepsBy;
      Move(t, Abort(t), Idle);
    }

    /** The UPDATE or DELETE that opens the transaction. It waits for the row, up to a limit, and finds it gone or not. */
    method WriteRow(t: nat, stage: Stage, write: Write, patience: nat) returns (ok: bool, before: Row)
      requires Valid() && At(t, stage) && MaySave(stage, write)
      modifies this
      ensures Valid() && origin == old(origin)
      ensures ok ==> At(t, Wrote(stage.id, write, before)) && StepsBy(trace, t) == StepsBy(old(trace), t) + [Save(t, write)]
      ensures !ok ==> At(t, stage) && StepsBy(trace, t) == StepsBy(old(trace), t)
      ensures !ok ==> patience == 0 || stage.id !in members || RowLocked(View(), stage.id, t)
      ensures old(trace) <= trace
    {
      hide Inv, Executable, After, StepsBy, Owners;
      var waited := 0;
      before := stage.loaded;
      while waited < patience
        invariant Valid() && At(t, stage) && origin == old(origin) && StepsBy(trace, t) == StepsBy(old(trace), t)
        invariant waited > 0 ==> stage.id !in members || RowLocked(View(), stage.id, t)
        invariant old(trace) <= trace
      {
        Interfere(t, stage);
        if stage.id in members && !RowLocked(View(), stage.id, t) {
          before := members[stage.id];
          Move(t, Save(t, write), Wrote(stage.id, write, before));
          return true, before;
        }
        waited := waited + 1;
      }
      ok := false;
    }

    lemma RowIsAsFound(t: nat)
      requires Inv(View()) && t in requests && InTransaction(requests[t])
      ensures requests[t].id in members && members[requests[t].id] == requests[t].before
      ensures requests[t].before.workspace in workspaces
    {
      assert RequestInv(View(), requests[t]);
    }

    /** The trigger's UPDATE of the workspace row, which waits for other holders. */
    method LockWorkspace(t: nat, id: Uuid, write: Write, before: Row, patience: nat) returns (ok: bool)
      requires Valid() && At(t, Wrote(id, write, before)) && Fires(write, before)
      modifies this
      ensures Valid() && origin == old(origin)
      ensures ok ==> At(t, Locked(id, write, before)) && StepsBy(trace, t) == StepsBy(old(trace), t) + [Lock(t)]
      ensures !ok ==> At(t, Wrote(id, write, before)) && StepsBy(trace, t) == StepsBy(old(trace), t)
      ensures !ok ==> patience == 0 || WorkspaceLocked(View(), before.workspace, t)
      ensures old(trace) <= trace
    {
      hide Inv, Executable, After, StepsBy, Fires;
      var waited := 0;
      while waited < patience
        invariant Valid() && At(t, Wrote(id, write, before)) && origin == old(origin) && StepsBy(trace, t) == StepsBy(old(trace), t)
        invariant waited > 0 ==> WorkspaceLocked(View(), before.workspace, t)
        invariant old(trace) <= trace
      {
        Interfere(t, Wrote(id, write, before));
        RowIsAsFound(t);
        if before.workspace in workspaces && !WorkspaceLocked(View(), before.workspace, t) {
          Move(t, Lock(t), Locked(id, write, before));
          return true;
        }
        waited := waited + 1;
      }
      ok := false;
    }

    /** The trigger's SELECT. */
    method CheckOwners(t: nat, id: Uuid, write: Write, before: Row) returns (ok: bool)
      requires Valid() && At(t, Locked(id, write, before))
      modifies this`requests, this`trace
      ensures Valid() && StepsBy(trace, t) == StepsBy(old(trace), t) + [Check(t)]
      ensures id in members && members[id] == before && (ok <==> HasOwner(Apply(members, id, write), before.workspace))
      ensures old(trace) <= trace
      ensures At(t, if ok then Passed(id, write, before) else Idle)
    {
      RowIsAsFound(t);
      hide Inv, Executable, After, StepsBy, HasOwner;
      ok := HasOwner(Apply(members, id, write), before.workspace);
      Move(t, Check(t), if ok then Passed(id, write, before) else Idle);
    }

    lemma CommitIsNext(t: nat, stage: Stage)
      requires At(t, stage) && MayCommit(View(), stage) && stage.id in members
      ensures Enabled(View(), Commit(t))
      ensures Next(View(), Commit(t)) == View().(members := Apply(members, stage.id, stage.write), requests := requests[t := Idle])
    {
      hide MayCommit;
    }

    method CommitWrite(t: nat, stage: Stage)
      requires Valid() && At(t, stage) && MayCommit(View(), stage)
      modifies this
      ensures Valid() && At(t, Idle) && origin == old(origin) && StepsBy(trace, t) == StepsBy(old(trace), t) + [Commit(t)]
      ensures stage.id in old(members) && members == Apply(old(members), stage.id, stage.write)
      ensures trace == old(trace) + [Commit(t)]
    {
      RowIsAsFound(t);
      CommitIsNext(t, stage);
      hide Inv, Executable, After, StepsBy, Enabled, Next, MayCommit;
      ghost var (before, steps) := (View(), trace);
      members := match stage.write
        case SetRole(role) => members[stage.id := members[stage.id].(role := role)]
        case Touch => members
        case Delete => members - {stage.id};
      requests := requests[t := Idle];
      trace := trace + [Commit(t)];
      Extend(before, steps, Commit(t), t);
    }

    /** What the table shows when the request is over: a committed write is there; a write rejected would have left its
        workspace without an owner; and a request that gave up had no patience, or had last found its row gone or locked,
        or its workspace locked. */
    ghost predicate Justified(t: nat, path: Path, patience: nat)
      reads this
    {
      match path
      case NotFound => true
      case Refused(_) => true
      case GaveUp(id, _, None) => patience == 0 || id !in members || RowLocked(View(), id, t)
      case GaveUp(id, _, Some(_)) => patience == 0 || exists w :: WorkspaceLocked(View(), w, t)
      case Rejected(id, _, write) => id in members && !HasOwner(Apply(members, id, write), members[id].workspace)
      case Committed(id, _, write, _) =>
        (id in members <==> !write.Delete?) && (write.SetRole? ==> members[id].role == write.role)
    }

    /** SaveChangesAsync: the write, the deferred trigger, the commit. */
    method SaveChanges(t: nat, stage: Stage, write: Write, patience: nat, ghost counted: bool) returns (outcome: Outcome, ghost path: Path)
      requires Valid() && At(t, stage) && MaySave(stage, write) && (stage.Found? || stage.Counted?)
      modifies this
      ensures Valid() && At(t, Idle) && origin == old(origin) && outcome == OutcomeOf(path)
      ensures path.GaveUp? || path.Rejected? || path.Committed?
      ensures path.id == stage.id && path.counted == counted
      ensures path.Rejected? || path.Committed? ==> path.write == write
      ensures StepsBy(trace, t) == StepsBy(old(trace), t) + SaveSteps(t, path) && old(trace) <= trace
      ensures Justified(t, path, patience)
    {
      hide Valid, At, View, Inv, Executable, After, StepsBy, Fires, MaySave, HasOwner, MayCommit, Apply;
      var id := stage.id;
      ghost var base := StepsBy(trace, t);
      Joined(base, Save(t, write), Commit(t), Abort(t), Commit(t));
      Joined(base, Save(t, write), Abort(t), Abort(t), Commit(t));
      var ok, before := WriteRow(t, stage, write, patience);
      if !ok {
        ghost var last := View();
        Rollback(t, stage);
        OthersStillLock(last, View(), t, id);
        return Failed, GaveUp(id, counted, None);
      }
      if Fires(write, before) {
        outcome, path := CommitUnderLock(t, id, write, before, patience, counted);
        Prefixed(base, Save(t, write), LockedSteps(t, path));
        return;
      }
      Interfere(t, Wrote(id, write, before));
      QuietMayCommit(t, id, write, before);
      ghost var table := members;
      CommitWrite(t, Wrote(id, write, before));
      ApplyTouchesOneRow(table, id, write);
      return Done, Committed(id, counted, write, false);
    }

    /** The trigger locks and looks, then the commit. */
    method CommitUnderLock(t: nat, id: Uuid, write: Write, before: Row, patience: nat, ghost counted: bool)
      returns (outcome: Outcome, ghost path: Path)
      requires Valid() && At(t, Wrote(id, write, before)) && Fires(write, before)
      modifies this
      ensures Valid() && At(t, Idle) && origin == old(origin) && outcome == OutcomeOf(path)
      ensures (path.GaveUp? && path.saved == Some(write)) || (path.Rejected? && path.write == write) ||
              (path.Committed? && path.write == write && path.fired)
      ensures path.id == id && path.counted == counted
      ensures StepsBy(trace, t) == StepsBy(old(trace), t) + LockedSteps(t, path) && old(trace) <= trace
      ensures Justified(t, path, patience)
    {
      hide Valid, At, View, Inv, Executable, After, StepsBy, Fires, MaySave, HasOwner, MayCommit, Apply;
      Joined(StepsBy(trace, t), Lock(t), Check(t), Commit(t), Abort(t));
      var ok := LockWorkspace(t, id, write, before, patience);
      if !ok {
        ghost var last := View();
        Rollback(t, Wrote(id, write, before));
        OthersStillLock(last, View(), t, id);
        return Failed, GaveUp(id, counted, Some(write));
      }
      Interfere(t, Locked(id, write, before));
      ok := CheckOwners(t, id, write, before);
      if !ok { return LastOwner, Rejected(id, counted, write); }
      Interfere(t, Passed(id, write, before));
      PassedMayCommit(t, id, write, before);
      ghost var table := members;
      CommitWrite(t, Passed(id, write, before));
      ApplyTouchesOneRow(table, id, write);
      return Done, Committed(id, counted, write, true);
    }

    static lemma OthersStillLock(s: State, s': State, t: nat, id: Uuid)
      requires s' == s.(requests := s.requests[t := Idle])
      ensures RowLocked(s, id, t) ==> RowLocked(s', id, t)
      ensures forall w :: WorkspaceLocked(s, w, t) ==> WorkspaceLocked(s', w, t)
    {
      if RowLocked(s, id, t) {
        var u :| u in s.requests && u != t && InTransaction(s.requests[u]) && s.requests[u].id == id;
        assert u in s'.requests;
      }
      forall w | WorkspaceLocked(s, w, t) ensures WorkspaceLocked(s', w, t) {
        var u :| u in s.requests && u != t && HoldsWorkspace(s.requests[u]) && s.requests[u].before.workspace == w;
        assert u in s'.requests;
      }
    }

    lemma PassedMayCommit(t: nat, id: Uuid, write: Write, before: Row)
      ensures MayCommit(View(), Passed(id, write, before))
    {
    }

    lemma QuietMayCommit(t: nat, id: Uuid, write: Write, before: Row)
      requires !Fires(write, before)
      ensures MayCommit(View(), Wrote(id, write, before))
    {
    }

    lemma OwnersRemain()
      requires Inv(View())
      ensures forall w :: w in workspaces ==> HasOwner(members, w)
    {
      hide HasOwner;
    }

    /** Some point of the run at which the row of the member was read. */
    ghost predicate Read(lookup: seq<Step>, workspace: Uuid, user: string, path: Path, loaded: Row)
      reads this
    {
      Was(lookup) &&
      var table := After(origin, lookup).members;
      if path.NotFound? then forall id :: id in table ==> table[id].workspace != workspace || table[id].user != user
      else path.id in table && table[path.id] == loaded && loaded.workspace == workspace && loaded.user == user
    }

    /** The owners were counted at some point of the run, and were too few exactly if the request was refused. */
    ghost predicate CountedOwners(count: seq<Step>, path: Path, workspace: Uuid)
      reads this
    {
      Was(count) && (path.Refused? <==> |Owners(After(origin, count).members, workspace)| <= 1)
    }

    predicate Counts(path: Path) { path.Refused? || (!path.NotFound? && path.counted) }

    /** ChangeWorkspaceMemberRoleUseCase, after authorisation. Whatever happens in between, the request goes one of the
        ways of Path, and each of its steps is one the protocol allows; so no workspace loses its last owner. It counts
        the owners exactly when it would take the role from one, and the role asked for is written unless the member had
        it when its row was read. */
    method ChangeRole(t: nat, workspace: Uuid, user: string, role: Role, patience: nat)
      returns (outcome: Outcome, ghost path: Path, ghost loaded: Row, ghost lookup: seq<Step>, ghost count: seq<Step>)
      requires Valid() && At(t, Idle)
      modifies this
      ensures Valid() && At(t, Idle) && origin == old(origin) && outcome == OutcomeOf(path)
      ensures StepsBy(trace, t) == StepsBy(old(trace), t) + StepsOf(t, path)
      ensures old(trace) <= lookup && Read(lookup, workspace, user, path, loaded)
      ensures !path.NotFound? ==> (Counts(path) <==> loaded.role == Owner && role != Owner)
      ensures Counts(path) ==> lookup <= count && CountedOwners(count, path, workspace)
      ensures path.Rejected? || path.Committed? ==> path.write == if loaded.role == role then Touch else SetRole(role)
      ensures outcome == Done && loaded.role != role ==> path.id in members && members[path.id].role == role
      ensures Justified(t, path, patience)
      ensures forall w :: w in workspaces ==> HasOwner(members, w)
    {
      hide Inv, Executable, After, StepsBy, HasOwner, Owners, At, AfterFind, Was;
      ghost var base := StepsBy(trace, t);
      Interfere(t, Idle);
      lookup, count := trace, trace;
      WasNow();
      var found := FindMembership(t, workspace, user);
      if found.None? {
        OwnersRemain();
        return MemberNotFound, NotFound, Row(0, "", Member), lookup, count;
      }
      var (id, row) := (found.value, members[found.value]);
      loaded := row;
      var write := if role == row.role then Touch else SetRole(role);
      outcome, path, count := CountAndSave(t, id, row, write, patience);
      WasStays(lookup);
      Prefixed(base, Find(t, id), AfterFind(t, path));
      OwnersRemain();
    }

    /** RemoveWorkspaceMemberUseCase, after authorisation. */
    method Remove(t: nat, workspace: Uuid, user: string, patience: nat)
      returns (outcome: Outcome, ghost path: Path, ghost loaded: Row, ghost lookup: seq<Step>, ghost count: seq<Step>)
      requires Valid() && At(t, Idle)
      modifies this
      ensures Valid() && At(t, Idle) && origin == old(origin) && outcome == OutcomeOf(path)
      ensures StepsBy(trace, t) == StepsBy(old(trace), t) + StepsOf(t, path)
      ensures old(trace) <= lookup && Read(lookup, workspace, user, path, loaded)
      ensures !path.NotFound? ==> (Counts(path) <==> loaded.role == Owner)
      ensures Counts(path) ==> lookup <= count && CountedOwners(count, path, workspace)
      ensures path.Rejected? || path.Committed? ==> path.write == Delete
      ensures outcome == Done ==> path.id !in members
      ensures Justified(t, path, patience)
      ensures forall w :: w in workspaces ==> HasOwner(members, w)
    {
      hide Inv, Executable, After, StepsBy, HasOwner, Owners, At, AfterFind, Was;
      ghost var base := StepsBy(trace, t);
      Interfere(t, Idle);
      lookup, count := trace, trace;
      WasNow();
      var found := FindMembership(t, workspace, user);
      if found.None? {
        OwnersRemain();
        return MemberNotFound, NotFound, Row(0, "", Member), lookup, count;
      }
      loaded := members[found.value];
      outcome, path, count := CountAndSave(t, found.value, members[found.value], Delete, patience);
      WasStays(lookup);
      Prefixed(base, Find(t, found.value), AfterFind(t, path));
      OwnersRemain();
    }

    lemma WasNow()
      requires Valid()
      ensures Was(trace) && After(origin, trace).members == members
    {
    }

    lemma WasStays(steps: seq<Step>)
      requires Executable(origin, steps) && steps <= trace
      ensures Was(steps)
    {
    }

    /** What both use cases do once the member is found: count the owners if an owner would go, then save. */
    method CountAndSave(t: nat, id: Uuid, loaded: Row, write: Write, patience: nat)
      returns (outcome: Outcome, ghost path: Path, ghost count: seq<Step>)
      requires Valid() && At(t, Found(id, loaded)) && (write.SetRole? ==> write.role != loaded.role)
      modifies this
      ensures Valid() && At(t, Idle) && origin == old(origin) && outcome == OutcomeOf(path)
      ensures !path.NotFound? && path.id == id
      ensures StepsBy(trace, t) == StepsBy(old(trace), t) + AfterFind(t, path) && old(trace) <= trace
      ensures Counts(path) <==> loaded.role == Owner && (write.Delete? || (write.SetRole? && write.role != Owner))
      ensures Counts(path) ==> old(trace) <= count && CountedOwners(count, path, loaded.workspace)
      ensures path.Rejected? || path.Committed? ==> path.write == write
      ensures Justified(t, path, patience)
    {
      hide Inv, Executable, After, StepsBy, HasOwner, Owners, Valid, At, SaveSteps, Was;
      var (stage, counted) := (Found(id, loaded), false);
      count := trace;
      Joined(StepsBy(trace, t), Count(t), Abort(t), Abort(t), Abort(t));
      if loaded.role == Owner && (write.Delete? || (write.SetRole? && write.role != Owner)) {
        Interfere(t, stage);
        count := trace;
        WasNow();
        var owners := CountOwners(t, id, loaded);
        stage, counted := Counted(id, loaded, owners), true;
        if owners <= 1 {
          Rollback(t, stage);
          WasStays(count);
          return LastOwner, Refused(id), count;
        }
      }
      ghost var base := StepsBy(old(trace), t);
      outcome, path := SaveChanges(t, stage, write, patience, counted);
      if counted { WasStays(count); }
      Prefixed(base, Count(t), SaveSteps(t, path));
    }
  }
}
