/** Token rotation as code: the repository's conditional updates and the refresh use case, with every other request
    acting between its reads and its transaction
    (apps/iam-service-java, RefreshTokenRepositoryAdapter.java, RefreshTokenJpaRepository.java, RefreshSessionUseCase.java). */
module RefreshService {
  import opened Types
  import opened RefreshTokens

  datatype Refreshed = Rotated(draw: Draw) | InvalidToken | UserBlocked

  /** Some token of this hash can be used now. */
  predicate HasUsable(tokens: Tokens, now: Time, hash: string) {
    exists id :: id in tokens && tokens[id].hash == hash && !tokens[id].revoked && tokens[id].expiresAt > now
  }

  /** What one refresh request does, given the token its lookup found. */
  function StepsOf(c: nat, hash: string, found: bool, reached: bool, draw: Draw): seq<Step> {
    if !found then [] else [Lookup(c, hash), if reached then Rotate(c, draw, true) else Drop(c)]
  }

  predicate OwnedBy(step: Step, c: nat) { (step.Lookup? || step.Rotate? || step.Drop?) && step.c == c }

  function StepsBy(steps: seq<Step>, c: nat): seq<Step> {
    if steps == [] then []
    else StepsBy(steps[..|steps| - 1], c) + (if OwnedBy(steps[|steps| - 1], c) then [steps[|steps| - 1]] else [])
  }

  lemma StepsByOne(steps: seq<Step>, step: Step, c: nat)
    ensures StepsBy(steps + [step], c) == StepsBy(steps, c) + (if OwnedBy(step, c) then [step] else [])
  {
    assert (steps + [step])[..|steps|] == steps;
  }

  class Repository {
    var tokens: Tokens
    var now: Time
    ghost var sessions: map<nat, Session>
    ghost var families: map<nat, seq<Uuid>>
    ghost var retired: set<Uuid>
    ghost var wins: seq<Uuid>
    ghost var origin: State
    ghost var trace: seq<Step>

    constructor (clients: set<nat>)
      ensures Valid() && View() == Initial(clients) && trace == []
    {
      tokens, now := map[], 0;
      sessions, families, retired, wins := map c | c in clients :: Idle, map[], {}, [];
      origin, trace := Initial(clients), [];
    }

    ghost function View(): State
      reads this
    {
      State.State(tokens, now, sessions, families, retired, wins)
    }

    ghost predicate Valid()
      reads this
    {
      Executable(origin, trace) && View() == After(origin, trace) && Inv(View())
    }

    ghost predicate At(c: nat, session: Session)
      reads this
    {
      c in sessions && sessions[c] == session
    }

    /** The state after one more step of the protocol. */
    ghost predicate Took(before: State, steps: seq<Step>, step: Step)
      reads this
    {
      Valid() && trace == steps + [step] && Enabled(before, step) && View() == Next(before, step) &&
      forall c :: StepsBy(trace, c) == StepsBy(steps, c) + (if OwnedBy(step, c) then [step] else [])
    }

    lemma Extend(before: State, steps: seq<Step>, step: Step)
      requires Executable(origin, steps) && before == After(origin, steps) && Inv(before)
      requires Enabled(before, step) && View() == Next(before, step) && trace == steps + [step]
      ensures Took(before, steps, step)
    {
      hide Enabled, Next, Inv, Executable, After, OwnedBy;
      NextKeepsInv(before, step);
      OneMore(origin, steps, step);
      forall c ensures StepsBy(trace, c) == StepsBy(steps, c) + (if OwnedBy(step, c) then [step] else []) { StepsByOne(steps, step, c); }
    }

    /** Whatever the other requests, the clock and the cleanup do now: callers learn only that it is a
        run of the protocol, in which nobody draws the same random values. */
    method Interfere(ghost c: nat, ghost session: Session, ghost draw: Draw)
      requires Valid() && At(c, session) && Fresh(View(), draw)
      modifies this
      ensures Valid() && At(c, session) && Fresh(View(), draw) && StepsBy(trace, c) == StepsBy(old(trace), c) && origin == old(origin)
    {
    }

    /** findByTokenHash. */
    method FindByTokenHash(hash: string) returns (found: Option<Uuid>)
      ensures found.Some? ==> found.value in tokens && tokens[found.value].hash == hash
      ensures found.None? <==> !HasHash(tokens, hash)
    {
      var ids := tokens.Keys;
      while ids != {}
        invariant ids <= tokens.Keys && forall id :: id in tokens && id !in ids ==> tokens[id].hash != hash
        decreases |ids|
      {
        var id :| id in ids;
        if tokens[id].hash == hash { return Some(id); }
        ids := ids - {id};
      }
      found := None;
    }

    /** UPDATE ... SET revoked = true WHERE id = ? AND revoked = false, and the number of rows it changed. */
    method RevokeActiveById(id: Uuid) returns (rows: nat)
      modifies this`tokens
      ensures tokens == RevokeActive(old(tokens), id)
      ensures rows == (if IsActive(old(tokens), id) then 1 else 0)
    {
      rows := 0;
      if id in tokens && !tokens[id].revoked {
        tokens := tokens[id := tokens[id].(revoked := true)];
        rows := 1;
      }
    }

    /** The DELETE of the cleanup, row by row, in any order. */
    method DeleteUnusableTokens(cutoff: Time) returns (rows: nat)
      requires Valid() && cutoff <= now
      modifies this
      ensures Took(old(View()), old(trace), Cleanup(cutoff)) && origin == old(origin)
      ensures tokens == DeleteUnusable(old(tokens), cutoff) && rows == |old(tokens)| - |tokens|
    {
      hide Inv, Executable, After;
      ghost var (before, steps) := (View(), trace);
      var (ids, kept) := (tokens.Keys, tokens);
      rows := 0;
      while ids != {}
        invariant ids <= tokens.Keys && unchanged(this)
        invariant forall id :: id in kept <==> id in tokens && (id in ids || !(tokens[id].expiresAt < cutoff || tokens[id].revoked))
        invariant forall id :: id in kept ==> kept[id] == tokens[id]
        invariant rows == |tokens| - |kept|
        decreases |ids|
      {
        var id :| id in ids;
        if tokens[id].expiresAt < cutoff || tokens[id].revoked {
          assert |kept.Keys - {id}| == |kept.Keys| - 1;
          assert (kept - {id}).Keys == kept.Keys - {id};
          kept, rows := kept - {id}, rows + 1;
        }
        ids := ids - {id};
      }
      tokens := kept;
      trace := trace + [Cleanup(cutoff)];
      assert kept == DeleteUnusable(before.tokens, cutoff);
      Extend(before, steps, Cleanup(cutoff));
    }

    /** rotate: one transaction, the revocation and the insertion together or not at all. */
    method RotateToken(ghost c: nat, id: Uuid, user: Uuid, draw: Draw) returns (ok: bool)
      requires Valid() && c in sessions && sessions[c].Found? && sessions[c].id == id && sessions[c].token.user == user
      requires Fresh(View(), draw)
      modifies this
      ensures Took(old(View()), old(trace), Rotate(c, draw, true)) && origin == old(origin) && At(c, Idle)
      ensures ok <==> IsActive(old(tokens), id)
      ensures ok ==> wins == old(wins) + [id] && IsActive(tokens, draw.id) && !IsActive(tokens, id)
      ensures ok ==> tokens == RevokeActive(old(tokens), id)[draw.id := NewToken(user, draw)]
      ensures !ok ==> tokens == old(tokens)
    {
      ghost var (before, steps) := (View(), trace);
      FreshIsNew(before, draw);
      RotateIs(before, c, draw);
      hide Inv, Executable, After, Fresh, FamilyOf, Enabled, Next, Took;
      var rows := RevokeActiveById(id);
      if rows != 1 {
        ok := false;
      } else {
        tokens := tokens[draw.id := NewToken(user, draw)];
        ok := true;
      }
      RecordRotation(c, draw, before, steps);
    }

    /** Keeps the history variables up with a rotation that has just happened to the table. */
    ghost method RecordRotation(c: nat, draw: Draw, before: State, taken: seq<Step>)
      requires Executable(origin, taken) && before == After(origin, taken) && Inv(before) && trace == taken
      requires Enabled(before, Rotate(c, draw, true)) && View().(tokens := before.tokens) == before
      requires tokens == Next(before, Rotate(c, draw, true)).tokens
      modifies this`sessions, this`families, this`retired, this`wins, this`trace
      ensures Took(before, taken, Rotate(c, draw, true)) && At(c, Idle)
      ensures View() == Next(before, Rotate(c, draw, true))
    {
      hide Inv, Executable, After;
      var next := Next(before, Rotate(c, draw, true));
      sessions, families, retired, wins := next.sessions, next.families, next.retired, next.wins;
      trace := trace + [Rotate(c, draw, true)];
      assert View() == next;
      hide Enabled, Next;
      Extend(before, taken, Rotate(c, draw, true));
    }

    /** The step, spelled out. */
    static lemma RotateIs(s: State, c: nat, draw: Draw)
      requires Inv(s) && c in s.sessions && s.sessions[c].Found? && Fresh(s, draw)
      ensures Enabled(s, Rotate(c, draw, true)) && FamilyOf(s, s.sessions[c].id).Some?
      ensures var (id, user) := (s.sessions[c].id, s.sessions[c].token.user);
              Next(s, Rotate(c, draw, true)) ==
              if IsActive(s.tokens, id)
              then var f := FamilyOf(s, id).value;
                   State.State(RevokeActive(s.tokens, id)[draw.id := NewToken(user, draw)], s.now, s.sessions[c := Idle],
                               s.families[f := s.families[f] + [draw.id]], s.retired + {id}, s.wins + [id])
              else s.(sessions := s.sessions[c := Idle])
    {
      hide Fresh, FamiliesInv, StoreInv, WinsInv;
      assert SessionInv(s, s.sessions[c]);
    }

    static lemma FreshIsNew(s: State, draw: Draw)
      requires Fresh(s, draw)
      ensures draw.id !in s.tokens
    {
    }

    /** A usable token is remembered by the session. */
    ghost method Remember(c: nat, hash: string, id: Uuid)
      requires Valid() && At(c, Idle) && id in tokens && tokens[id].hash == hash && CanBeUsedAt(tokens[id], now)
      modifies this`sessions, this`trace
      ensures Took(old(View()), old(trace), Lookup(c, hash)) && At(c, Found(id, tokens[id], now))
      ensures forall draw :: Fresh(old(View()), draw) ==> Fresh(View(), draw)
    {
      assert IdOf(tokens, hash) == Some(id) by { HashNamesOne(id, hash); }
      hide Inv, Executable, After, IdOf;
      var (before, steps) := (View(), trace);
      sessions := sessions[c := Found(id, tokens[id], now)];
      trace := trace + [Lookup(c, hash)];
      Extend(before, steps, Lookup(c, hash));
      forall draw | Fresh(before, draw) ensures Fresh(View(), draw) { StillFresh(before, View(), draw); }
    }

    static lemma StillFresh(s: State, s': State, draw: Draw)
      requires Fresh(s, draw) && s'.tokens == s.tokens && s'.families == s.families
      ensures Fresh(s', draw)
    {
    }

    lemma HashNamesOne(id: Uuid, hash: string)
      requires Inv(View()) && id in tokens && tokens[id].hash == hash
      ensures IdOf(tokens, hash) == Some(id)
    {
      assert UniqueHashes(tokens) && HasHash(tokens, hash);
    }

    ghost method Forget(c: nat)
      requires Valid() && c in sessions
      modifies this`sessions, this`trace
      ensures Took(old(View()), old(trace), Drop(c)) && At(c, Idle)
    {
      hide Inv, Executable, After;
      var (before, steps) := (View(), trace);
      sessions := sessions[c := Idle];
      trace := trace + [Drop(c)];
      Extend(before, steps, Drop(c));
    }
  }

  class RefreshSessionUseCase {
    const repository: Repository

    constructor (repository: Repository)
      ensures this.repository == repository
    {
      this.repository := repository;
    }

    /** One refresh: look the token up, check the user, rotate. Every other request may act between the lookup and the
        rotation, which alone decides, on the tokens it finds (`met`). The request fails exactly when the lookup finds no
        usable token of that hash, the user is gone or blocked, or the token is no longer active at the rotation; one
        that succeeds has won the token, and it alone has. */
    method Execute(ghost c: nat, hash: string, userExists: bool, blocked: bool, draw: Draw)
      returns (result: Refreshed, ghost found: bool, ghost reached: bool, ghost id: Uuid, ghost met: Tokens)
      requires repository.Valid() && repository.At(c, Idle) && Fresh(repository.View(), draw)
      modifies repository
      ensures repository.Valid() && repository.At(c, Idle) && repository.origin == old(repository.origin)
      ensures StepsBy(repository.trace, c) == StepsBy(old(repository.trace), c) + StepsOf(c, hash, found, reached, draw)
      ensures found <==> HasUsable(old(repository.tokens), old(repository.now), hash)
      ensures found ==> id in old(repository.tokens) && old(repository.tokens)[id].hash == hash
      ensures reached <==> found && userExists && !blocked
      ensures result.UserBlocked? <==> found && userExists && blocked
      ensures result.Rotated? <==> reached && IsActive(met, id)
      ensures result.Rotated? ==> result.draw == draw && id in repository.wins
      ensures result.Rotated? ==> draw.id !in met && draw.id in repository.tokens
      ensures result.Rotated? ==> repository.tokens[draw.id] == Token(met[id].user, draw.hash, false, draw.expiresAt)
      ensures result.Rotated? ==> repository.tokens - {draw.id} == met[id := met[id].(revoked := true)]
      ensures reached && !result.Rotated? ==> repository.tokens == met
      ensures NoDuplicates(repository.wins)
    {
      hide Inv, Executable, After, StepsBy, Enabled, Next, IdOf, Fresh, UniqueHashes, HasHash;
      found, reached, id, met := false, false, 0, repository.tokens;
      ghost var base := StepsBy(repository.trace, c);
      var token := repository.FindByTokenHash(hash);
      HashIsUsable(token, hash);
      if token.None? || !CanBeUsedAt(repository.tokens[token.value], repository.now) {
        assert base + [] == base;
        WinsAreDistinct();
        return InvalidToken, false, false, 0, met;
      }
      var (currentId, current) := (token.value, repository.tokens[token.value]);
      found, id := true, currentId;
      ghost var session := Found(currentId, current, repository.now);
      repository.Remember(c, hash, currentId);
      repository.Interfere(c, session, draw);
      met := repository.tokens;
      if !userExists || blocked {
        repository.Forget(c);
        assert base + [Lookup(c, hash)] + [Drop(c)] == base + StepsOf(c, hash, true, false, draw);
        WinsAreDistinct();
        return if userExists then UserBlocked else InvalidToken, true, false, id, met;
      }
      UserStays(c);
      var ok := repository.RotateToken(c, currentId, current.user, draw);
      reached := true;
      assert base + [Lookup(c, hash)] + [Rotate(c, draw, true)] == base + StepsOf(c, hash, true, true, draw);
      WinsAreDistinct();
      result := if ok then Rotated(draw) else InvalidToken;
    }

    lemma HashIsUsable(token: Option<Uuid>, hash: string)
      requires Inv(repository.View())
      requires token.Some? ==> token.value in repository.tokens && repository.tokens[token.value].hash == hash
      requires token.None? ==> !HasHash(repository.tokens, hash)
      ensures HasUsable(repository.tokens, repository.now, hash) <==>
                token.Some? && CanBeUsedAt(repository.tokens[token.value], repository.now)
    {
      hide FamiliesInv, WinsInv, SessionsInv;
    }

    lemma UserStays(c: nat)
      requires Inv(repository.View()) && c in repository.sessions && repository.sessions[c].Found?
      ensures var r := repository.sessions[c]; r.id in repository.tokens ==> repository.tokens[r.id].user == r.token.user
    {
      hide FamiliesInv, WinsInv, StoreInv;
      assert SessionInv(repository.View(), repository.sessions[c]);
    }

    lemma WinsAreDistinct()
      requires Inv(repository.View())
      ensures NoDuplicates(repository.wins)
    {
      hide FamiliesInv, StoreInv, SessionsInv;
    }
  }
}
