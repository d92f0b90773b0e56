/** The notification store and the handling of one record as code: commands queued in a pipeline and executed at
    once, and MarkRead's separate round trips (apps/notification-service-go/internal/store/redis_store.go and
    internal/consumer/issue_events.go). Both are shown to do what module Projection says. */
module RedisStore {
  import opened Types
  import opened Projection
  import R = ReadTimes

  datatype Command =
    | HSetNx(key: Key, field: Field, value: Value)
    | ZAdd(user: string, id: Digest, score: Time)
    /** The script of MarkAllRead. */
    | EvalMarkRead(key: Key, at: Time)

  function Exec(r: Redis, command: Command): Redis {
    match command
    case HSetNx(key, field, value) =>
      if field in HashAt(r, key) then r else r.(hashes := r.hashes[key := HashAt(r, key)[field := value]])
    case ZAdd(user, id, score) => r.(index := r.index[user := IndexOf(r, user)[id := score]])
    case EvalMarkRead(key, at) => MarkIfUnread(r, key, at)
  }

  function ExecAll(r: Redis, pipe: seq<Command>): Redis {
    if pipe == [] then r else Exec(ExecAll(r, pipe[..|pipe| - 1]), pipe[|pipe| - 1])
  }

  lemma ExecAllAppend(r: Redis, pipe: seq<Command>, command: Command)
    ensures ExecAll(r, pipe + [command]) == Exec(ExecAll(r, pipe), command)
  {
    assert (pipe + [command])[..|pipe|] == pipe;
  }

  /** `base` once the fields of `done` were set if absent, in whatever order. */
  function PartlySaved(base: Redis, key: Key, fields: Hash, done: set<Field>): Redis
    requires done <= fields.Keys
  {
    if done == {} then base
    else base.(hashes := base.hashes[key := Chosen(fields, done) + HashAt(base, key)])
  }

  function Chosen(fields: Hash, done: set<Field>): Hash
    requires done <= fields.Keys
  {
    map f | f in done :: fields[f]
  }

  lemma OneMoreChosen(fields: Hash, done: set<Field>, field: Field, stored: Hash)
    requires done <= fields.Keys && field in fields && field !in done
    ensures Chosen(fields, done + {field}) + stored ==
            if field in stored then Chosen(fields, done) + stored else (Chosen(fields, done) + stored)[field := fields[field]]
  {
  }

  lemma NoneChosen(fields: Hash, stored: Hash)
    ensures Chosen(fields, {}) + stored == stored
  {
  }

  lemma SetBack(r: Redis, key: Key)
    requires key in r.hashes
    ensures r.(hashes := r.hashes[key := HashAt(r, key)]) == r
  {
    assert r.hashes[key := r.hashes[key]] == r.hashes;
  }

  lemma SetTwice(r: Redis, key: Key, h: Hash, h': Hash)
    ensures r.(hashes := r.hashes[key := h][key := h']) == r.(hashes := r.hashes[key := h'])
  {
  }

  lemma OneMoreField(base: Redis, key: Key, fields: Hash, done: set<Field>, field: Field)
    requires done <= fields.Keys && field in fields && field !in done
    ensures Exec(PartlySaved(base, key, fields, done), HSetNx(key, field, fields[field]))
         == PartlySaved(base, key, fields, done + {field})
  {
    hide Chosen;
    var stored := HashAt(base, key);
    OneMoreChosen(fields, done, field, stored);
    if done == {} {
      NoneChosen(fields, stored);
      if field in stored { SetBack(base, key); }
    } else {
      SetTwice(base, key, Chosen(fields, done) + stored, Chosen(fields, done + {field}) + stored);
      assert field in Chosen(fields, done) + stored <==> field in stored by { OnlyChosen(fields, done, field, stored); }
    }
  }

  lemma OnlyChosen(fields: Hash, done: set<Field>, field: Field, stored: Hash)
    requires done <= fields.Keys && field !in done
    ensures field in Chosen(fields, done) + stored <==> field in stored
  {
  }

  lemma AllFieldsSaved(base: Redis, n: Notification)
    ensures Exec(PartlySaved(base, Key(n.user, n.id), FieldsOf(n), FieldsOf(n).Keys), ZAdd(n.user, n.id, n.createdAt)) == SaveOne(base, n)
  {
    assert FId in FieldsOf(n);
    assert Chosen(FieldsOf(n), FieldsOf(n).Keys) == FieldsOf(n);
  }

  // MarkRead

  datatype ReadResult = Acknowledged | NotFound | Unanswered

  /** How MarkRead's three commands fare. */
  datatype Answers = Answers(first: bool, second: bool, write: SaveOutcome)

  function WriteStep(c: nat, clock: Time, write: SaveOutcome): R.Step {
    if write == NotSaved then R.Leave(c) else R.Write(c, clock)
  }

  /** The steps of a call that checks, given what the check shows. */
  function CallSteps(c: nat, key: Key, clock: Time, blank: bool, write: SaveOutcome): seq<R.Step> {
    [R.Check(c, key)] + if blank then [WriteStep(c, clock, write)] else []
  }

  predicate IsStepOf(step: R.Step, c: nat) { (step.Check? || step.Write? || step.Leave?) && step.c == c }

  /** The steps of call `c`. */
  function StepsOf(steps: seq<R.Step>, c: nat): seq<R.Step> {
    if steps == [] then []
    else StepsOf(steps[..|steps| - 1], c) + (if IsStepOf(steps[|steps| - 1], c) then [steps[|steps| - 1]] else [])
  }

  lemma StepsOfOneMore(steps: seq<R.Step>, step: R.Step, c: nat)
    ensures StepsOf(steps + [step], c) == StepsOf(steps, c) + (if IsStepOf(step, c) then [step] else [])
  {
    assert (steps + [step])[..|steps|] == steps;
  }

  class Store {
    var hashes: map<Key, Hash>
    var index: map<string, map<Digest, Time>>
    /** The store and the calls in flight at some earlier moment, and everything that was done since. */
    ghost var origin: R.System
    ghost var trace: seq<R.Step>

    function View(): Redis
      reads this
    {
      Redis(hashes, index)
    }

    ghost function System(): R.System
      reads this
    {
      R.Run(origin, trace)
    }

    ghost predicate Valid()
      reads this
    {
      View() == System().store.redis
    }

    /** The commands take effect together. */
    method ExecPipeline(pipe: seq<Command>)
      modifies this`hashes, this`index
      ensures View() == ExecAll(old(View()), pipe)
    {
      for i := 0 to |pipe|
        invariant View() == ExecAll(old(View()), pipe[..i])
      {
        assert pipe[..i + 1] == pipe[..i] + [pipe[i]];
        ExecAllAppend(old(View()), pipe[..i], pipe[i]);
        var next := Exec(View(), pipe[i]);
        hashes, index := next.hashes, next.index;
      }
      assert pipe[..|pipe|] == pipe;
    }

    method SaveEventNotifications(notifications: seq<Notification>, outcome: SaveOutcome) returns (ok: bool)
      modifies this`hashes, this`index
      ensures ok <==> outcome == Saved
      ensures View() == if outcome == NotSaved then old(View()) else Save(old(View()), notifications)
    {
      var pipe: seq<Command> := [];
      ghost var r := View();
      for i := 0 to |notifications|
        invariant View() == r && ExecAll(r, pipe) == Save(r, notifications[..i])
      {
        assert notifications[..i + 1][..i] == notifications[..i];
        pipe := QueueSave(pipe, notifications[i], r);
      }
      assert notifications[..|notifications|] == notifications;
      if outcome != NotSaved { ExecPipeline(pipe); }
      ok := outcome == Saved;
    }

    /** The commands of one notification; a Go map yields its fields in any order. */
    static method QueueSave(queued: seq<Command>, n: Notification, ghost r: Redis) returns (pipe: seq<Command>)
      ensures ExecAll(r, pipe) == SaveOne(ExecAll(r, queued), n)
    {
      hide FieldsOf, PartlySaved, Exec, SaveOne, ExecAll;
      pipe := queued;
      var key := Key(n.user, n.id);
      var fields := FieldsOf(n);
      var left := fields.Keys;
      NothingSavedYet(ExecAll(r, queued), key, fields);
      while left != {}
        invariant left <= fields.Keys
        invariant ExecAll(r, pipe) == PartlySaved(ExecAll(r, queued), key, fields, fields.Keys - left)
        decreases |left|
      {
        var field :| field in left;
        OneMoreField(ExecAll(r, queued), key, fields, fields.Keys - left, field);
        ExecAllAppend(r, pipe, HSetNx(key, field, fields[field]));
        assert fields.Keys - left + {field} == fields.Keys - (left - {field});
        pipe, left := pipe + [HSetNx(key, field, fields[field])], left - {field};
      }
      assert fields.Keys - {} == fields.Keys;
      AllFieldsSaved(ExecAll(r, queued), n);
      ExecAllAppend(r, pipe, ZAdd(n.user, n.id, n.createdAt));
      pipe := pipe + [ZAdd(n.user, n.id, n.createdAt)];
    }

    static lemma NothingSavedYet(base: Redis, key: Key, fields: Hash)
      ensures PartlySaved(base, key, fields, fields.Keys - fields.Keys) == base
    {
    }

    /** Whatever the consumers and the other readers do between two round trips of call `c`. */
    method Interfere(ghost c: nat)
      requires Valid()
      modifies this
      ensures Valid() && origin == old(origin) && old(trace) <= trace
      ensures StepsOf(trace, c) == StepsOf(old(trace), c)
      ensures forall key :: R.InFlight(System(), c, key) <==> old(R.InFlight(System(), c, key))
    {
    }

    /** The command takes effect as one step of the call. */
    ghost method Note(c: nat, before: R.System, step: R.Step)
      requires before == System() && IsStepOf(step, c) && View() == R.Take(before, step).store.redis
      modifies this`trace
      ensures Valid() && trace == old(trace) + [step] && System() == R.Take(before, step)
      ensures StepsOf(trace, c) == StepsOf(old(trace), c) + [step]
    {
      R.RunOneMore(origin, trace, step);
      StepsOfOneMore(trace, step, c);
      trace := trace + [step];
    }

    /** ZRANGE over the user's index. */
    method ListIds(user: string) returns (ids: seq<Digest>)
      ensures forall id :: id in ids <==> id in IndexOf(View(), user)
    {
      ids := [];
      if user !in index { return; }
      var left := index[user].Keys;
      while left != {}
        invariant left <= index[user].Keys
        invariant forall id :: id in ids <==> id in index[user] && id !in left
        decreases |left|
      {
        var id :| id in left;
        ids, left := ids + [id], left - {id};
      }
    }

    /** The ids are read first; then, whatever others have done in between, the script runs on every one of them, all
        together. So every notification that was in the user's index at the call, and is still stored, is read at the end,
        and keeps its time if it was read before. */
    method MarkAllRead(user: string, at: Time, outcome: SaveOutcome) returns (ok: bool, ghost ids: seq<Digest>)
      requires Valid()
      modifies this
      ensures Valid() && origin == old(origin) && (ok <==> outcome == Saved)
      ensures forall id :: id in ids <==> id in IndexOf(old(View()), user)
      ensures outcome == NotSaved ==> old(trace) <= trace
      ensures outcome != NotSaved ==>
                && |trace| > |old(trace)| && old(trace) <= trace[..|trace| - 1] && trace[|trace| - 1] == R.MarkEach(user, ids, at)
                && View() == MarkAll(R.Run(origin, trace[..|trace| - 1]).store.redis, user, ids, at)
                && forall id :: id in IndexOf(old(View()), user) && Key(user, id) in hashes ==> IsRead(View(), Key(user, id))
    {
      var listed := ListIds(user);
      ids := listed;
      Interfere(0);
      ghost var (r, before, steps) := (View(), System(), trace);
      var pipe: seq<Command> := [];
      for i := 0 to |listed|
        invariant View() == r && ExecAll(r, pipe) == MarkAll(r, user, listed[..i], at)
        invariant trace == steps && System() == before && origin == old(origin)
      {
        assert listed[..i + 1][..i] == listed[..i];
        ExecAllAppend(r, pipe, EvalMarkRead(Key(user, listed[i]), at));
        pipe := pipe + [EvalMarkRead(Key(user, listed[i]), at)];
      }
      assert listed[..|listed|] == listed;
      if outcome != NotSaved {
        ExecPipeline(pipe);
        R.RunOneMore(origin, trace, R.MarkEach(user, listed, at));
        trace := trace + [R.MarkEach(user, listed, at)];
        assert trace[..|trace| - 1] == steps;
        forall id | id in listed && Key(user, id) in hashes ensures IsRead(View(), Key(user, id)) {
          MarkAllMarksExactly(r, user, listed, at, Key(user, id));
        }
      }
      ok := outcome == Saved;
    }

    /** EXISTS, HGET and HSET as three round trips of call `c`, each of which Redis may leave unanswered, whoever acts in
        between: a run of module ReadTimes in which the call's own steps are those of CallSteps, a check and, exactly when
        that shows the notification unread, a write. `checked` counts the steps before the check. */
    method MarkRead(ghost c: nat, user: string, id: Digest, clock: Time, answers: Answers)
      returns (result: ReadResult, ghost checked: nat)
      requires Valid() && c !in System().calls
      modifies this
      ensures Valid() && origin == old(origin) && old(trace) <= trace
      ensures result == NotFound <==> answers.first && Key(user, id) !in old(View()).hashes
      ensures var (key, goes) := (Key(user, id), answers.first && answers.second && Key(user, id) in old(View()).hashes);
              if !goes then StepsOf(trace, c) == StepsOf(old(trace), c) && result != Acknowledged
              else
                && |old(trace)| <= checked < |trace| && trace[checked] == R.Check(c, key)
                && var blank := !R.Reads(R.Run(origin, trace[..checked]), key);
                   StepsOf(trace, c) == StepsOf(old(trace), c) + CallSteps(c, key, clock, blank, answers.write)
                   && (result == Acknowledged <==> !blank || answers.write == Saved)
                   && (blank && answers.write != NotSaved ==> R.ReadTime(System(), key) == At(clock))
                   && (IsRead(old(View()), key) ==> !blank)
      ensures result == Acknowledged ==> IsRead(View(), Key(user, id))
      ensures forall key :: !R.InFlight(System(), c, key)
      ensures IsRead(old(View()), Key(user, id)) && (forall d :: !old(R.InFlight(System(), d, Key(user, id)))) ==>
                R.ReadTime(System(), Key(user, id)) == old(R.ReadTime(System(), Key(user, id)))
    {
      hide R.Run, R.Take, StepsOf;
      var key := Key(user, id);
      checked := 0;
      if !answers.first { return Unanswered, 0; }
      if key !in hashes { return NotFound, 0; }
      ghost var steps := trace;
      Interfere(c);
      RunGoesOn(origin, steps, trace, key);
      if !answers.second { return Unanswered, 0; }
      checked := |trace|;
      ghost var (before, seen) := (System(), trace);
      CheckEffect(before, c, key);
      Note(c, before, R.Check(c, key));
      assert trace[..checked] == seen;
      if IsRead(View(), key) { return Acknowledged, checked; }
      result := SetReadAt(c, key, clock, answers.write);
      assert trace[..checked] == seen;
    }

    /** The write of a call that found the notification unread, with others acting before it. */
    method SetReadAt(ghost c: nat, key: Key, clock: Time, write: SaveOutcome) returns (result: ReadResult)
      requires Valid() && R.InFlight(System(), c, key) && key in hashes
      modifies this
      ensures Valid() && origin == old(origin) && old(trace) <= trace
      ensures StepsOf(trace, c) == StepsOf(old(trace), c) + [WriteStep(c, clock, write)]
      ensures result == if write == Saved then Acknowledged else Unanswered
      ensures write != NotSaved ==> IsRead(View(), key) && R.ReadTime(System(), key) == At(clock)
      ensures forall k :: !R.InFlight(System(), c, k)
    {
      hide R.Run, R.Take, StepsOf;
      ghost var steps := trace;
      Interfere(c);
      RunGoesOn(origin, steps, trace, key);
      ghost var before := System();
      if write == NotSaved {
        LeaveEffect(before, c);
      } else {
        hashes := hashes[key := hashes[key][FReadAt := At(clock)]];
        WriteEffect(before, c, key, clock);
      }
      Note(c, before, WriteStep(c, clock, write));
      result := if write == Saved then Acknowledged else Unanswered;
    }
  }

  lemma CheckEffect(s: R.System, c: nat, key: Key)
    requires key in s.store.redis.hashes && forall k :: !R.InFlight(s, c, k)
    ensures R.Take(s, R.Check(c, key)).store == s.store
    ensures R.InFlight(R.Take(s, R.Check(c, key)), c, key) <==> !R.Reads(s, key)
    ensures forall k :: k != key ==> !R.InFlight(R.Take(s, R.Check(c, key)), c, k)
  {
    assert c in s.calls ==> R.InFlight(s, c, s.calls[c]);
  }

  lemma LeaveEffect(s: R.System, c: nat)
    ensures R.Take(s, R.Leave(c)).store == s.store && forall k :: !R.InFlight(R.Take(s, R.Leave(c)), c, k)
  {
  }

  lemma WriteEffect(s: R.System, c: nat, key: Key, at: Time)
    requires key in s.store.redis.hashes && R.InFlight(s, c, key)
    ensures var r := R.Take(s, R.Write(c, at)).store.redis;
            && r == s.store.redis.(hashes := s.store.redis.hashes[key := s.store.redis.hashes[key][FReadAt := At(at)]])
            && IsRead(r, key) && R.ReadTime(R.Take(s, R.Write(c, at)), key) == At(at)
            && forall k :: !R.InFlight(R.Take(s, R.Write(c, at)), c, k)
  {
  }

  /** However the run goes on, a notification stays; read, it stays read, and keeps its time if nobody is about to write. */
  lemma {:induction false} RunGoesOn(origin: R.System, steps: seq<R.Step>, steps': seq<R.Step>, key: Key)
    requires steps <= steps' && key in R.Run(origin, steps).store.redis.hashes
    ensures key in R.Run(origin, steps').store.redis.hashes
    ensures R.Reads(R.Run(origin, steps), key) ==> R.Reads(R.Run(origin, steps'), key)
    ensures R.Reads(R.Run(origin, steps), key) && (forall d :: !R.InFlight(R.Run(origin, steps), d, key)) ==>
              R.ReadTime(R.Run(origin, steps'), key) == R.ReadTime(R.Run(origin, steps), key) &&
              forall d :: !R.InFlight(R.Run(origin, steps'), d, key)
  {
    hide R.Take, R.Reads, R.ReadTime, R.InFlight;
    if steps != steps' {
      var (front, step) := (steps'[..|steps'| - 1], steps'[|steps'| - 1]);
      RunGoesOn(origin, steps, front, key);
      R.KeysStay(R.Run(origin, front), step, key);
      if R.Reads(R.Run(origin, steps), key) {
        R.OnlyWritesMove(R.Run(origin, front), step, key);
        forall d | R.InFlight(R.Run(origin, steps'), d, key) ensures R.InFlight(R.Run(origin, front), d, key) {
          R.CallsComeFromChecks(R.Run(origin, front), step, d, key);
        }
      }
    }
  }

  /** handle: one record, as code. */
  class Handler {
    const store: Store

    constructor (store: Store)
      ensures this.store == store
    {
      this.store := store;
    }

    method HandleRecord(raw: Raw, env: Surroundings) returns (outcome: Outcome)
      modifies store`hashes, store`index
      ensures outcome == Handle(raw, env).0
      ensures outcome == Succeeded ==> raw.Decoded? && AllDecided(raw.event, env)
      ensures store.View() == Project(old(store.View()), raw, env)
    {
      HandleMeans(raw, env);
      hide ValidEvent, Save, NotificationsFor, RecipientsOf, StringsFrom, NormalizeUserId, AllDecided, SomeEligible, Addresses;
      if raw.Undecodable? || !ValidEvent(raw.event) { return PermanentFailure; }
      var event := raw.event;
      if !env.checker { return TransientFailure; }
      var recipients := NormalizeRecipients(event.recipients, event.actor);
      if |recipients| == 0 { return Succeeded; }
      var eligible: seq<string> := [];
      for i := 0 to |recipients|
        invariant eligible == EligibleOf(recipients[..i], env.access)
        invariant Answered(recipients[..i], env.access)
      {
        assert recipients[..i + 1][..i] == recipients[..i];
        var decision := env.access(recipients[i]);
        if decision != Eligible && decision != NotEligible { return TransientFailure; }
        if decision == Eligible { eligible := eligible + [recipients[i]]; }
      }
      assert recipients[..|recipients|] == recipients;
      if |eligible| == 0 { return Succeeded; }
      var notifications := BuildNotifications(event, eligible, env.now);
      var ok := store.SaveEventNotifications(notifications, env.save);
      outcome := if ok then Succeeded else TransientFailure;
    }

    /** A zero time is replaced in a second pass. */
    static method BuildNotifications(event: IssueEvent, users: seq<string>, now: Time) returns (notifications: seq<Notification>)
      ensures notifications == NotificationsFor(event, users, now)
    {
      notifications := [];
      var createdAt := match event.occurredAt case Some(t) => t case None => 0;
      for i := 0 to |users|
        invariant notifications == NotificationsFor(event, users[..i], createdAt)
      {
        assert users[..i + 1][..i] == users[..i];
        notifications := notifications + [NotificationFor(event, users[i], createdAt)];
      }
      assert users[..|users|] == users;
      NotificationsAt(event, users, createdAt);
      NotificationsAt(event, users, now);
      if event.occurredAt.None? {
        for i := 0 to |notifications|
          invariant |notifications| == |users|
          invariant forall k :: 0 <= k < i ==> notifications[k] == NotificationFor(event, users[k], now)
          invariant forall k :: i <= k < |users| ==> notifications[k] == NotificationFor(event, users[k], createdAt)
        {
          notifications := notifications[i := notifications[i].(createdAt := now)];
        }
      }
      assert forall k :: 0 <= k < |users| ==> notifications[k] == NotificationsFor(event, users, now)[k];
    }
  }

  lemma {:induction false} NotificationsAt(event: IssueEvent, users: seq<string>, now: Time)
    ensures |NotificationsFor(event, users, now)| == |users|
    ensures forall k :: 0 <= k < |users| ==> NotificationsFor(event, users, now)[k] == NotificationFor(event, users[k], now)
  {
    if users != [] { NotificationsAt(event, users[..|users| - 1], now); }
  }
}
