/** Refresh-token rotation: logins, concurrent refreshes, logouts and cleanups over one token table
    (apps/iam-service-java, RefreshSessionUseCase.java and RefreshTokenRepositoryAdapter.java). */
module RefreshTokens {
  import opened Types

  /** A stored token. The hash stands for the secret: equal hashes come from equal secrets. */
  datatype Token = Token(user: Uuid, hash: string, revoked: bool, expiresAt: Time)

  type Tokens = map<Uuid, Token>

  /** A refresh request between its lookup and its rotation. */
  datatype Session = Idle | Found(id: Uuid, token: Token, seenAt: Time)

  /** `families`, `retired` and `wins` are history variables: the tokens issued since each login, in order; every token
      that was ever revoked; and the token of each successful rotation. */
  datatype State = State(
    tokens: Tokens, now: Time, sessions: map<nat, Session>, families: map<nat, seq<Uuid>>, retired: set<Uuid>, wins: seq<Uuid>)

  /** The random values of a new token. */
  datatype Draw = Draw(id: Uuid, hash: string, expiresAt: Time)

  datatype Step =
    | Tick(to: Time)
    | Login(family: nat, user: Uuid, draw: Draw)
    | Lookup(c: nat, hash: string)
    | Rotate(c: nat, draw: Draw, commits: bool)
    /** The request ends without rotating. */
    | Drop(c: nat)
    /** The update of a logout; its own lookup may be long past. */
    | Revoke(id: Uuid)
    | Cleanup(cutoff: Time)

  predicate CanBeUsedAt(token: Token, now: Time) { !token.revoked && token.expiresAt > now }

  predicate IsActive(tokens: Tokens, id: Uuid) { id in tokens && !tokens[id].revoked }

  function RevokeActive(tokens: Tokens, id: Uuid): Tokens {
    if IsActive(tokens, id) then tokens[id := tokens[id].(revoked := true)] else tokens
  }

  /** DELETE ... WHERE expiresAt < cutoff OR revoked. */
  function DeleteUnusable(tokens: Tokens, cutoff: Time): Tokens {
    map id | id in tokens && !(tokens[id].expiresAt < cutoff || tokens[id].revoked) :: tokens[id]
  }

  predicate HasHash(tokens: Tokens, hash: string) { exists id :: id in tokens && tokens[id].hash == hash }

  ghost predicate Issued(s: State, id: Uuid) { exists f :: f in s.families && id in s.families[f] }

  /** New ids and secrets have not been drawn before. */
  ghost predicate Fresh(s: State, draw: Draw) { draw.id !in s.tokens && !Issued(s, draw.id) && !HasHash(s.tokens, draw.hash) }

  /** The token of a hash; hashes are unique. */
  ghost function IdOf(tokens: Tokens, hash: string): (id: Option<Uuid>)
    ensures id.Some? ==> id.value in tokens && tokens[id.value].hash == hash
  {
    if HasHash(tokens, hash) then
      var id :| id in tokens && tokens[id].hash == hash;
      Some(id)
    else None
  }

  predicate UniqueHashes(tokens: Tokens) {
    forall a, b :: a in tokens && b in tokens && tokens[a].hash == tokens[b].hash ==> a == b
  }

  ghost predicate Enabled(s: State, step: Step) {
    match step
    case Tick(to) => s.now <= to
    case Login(f, _, draw) => f !in s.families && Fresh(s, draw)
    case Lookup(c, _) => c in s.sessions && s.sessions[c].Idle?
    case Rotate(c, draw, _) => c in s.sessions && s.sessions[c].Found? && FamilyOf(s, s.sessions[c].id).Some? && Fresh(s, draw)
    case Drop(c) => c in s.sessions
    case Revoke(_) => true
    case Cleanup(cutoff) => cutoff <= s.now
  }

  ghost function FamilyOf(s: State, id: Uuid): (f: Option<nat>)
    ensures f.Some? ==> f.value in s.families && id in s.families[f.value]
    ensures f.None? ==> !Issued(s, id)
  {
    if Issued(s, id) then
      var f :| f in s.families && id in s.families[f];
      Some(f)
    else None
  }

  function NewToken(user: Uuid, draw: Draw): Token { Token(user, draw.hash, false, draw.expiresAt) }

  ghost function Next(s: State, step: Step): State
    requires Enabled(s, step)
  {
    match step
    case Tick(to) => s.(now := to)
    case Login(f, user, draw) =>
      s.(tokens := s.tokens[draw.id := NewToken(user, draw)], families := s.families[f := [draw.id]])
    case Lookup(c, hash) =>
      var id := IdOf(s.tokens, hash);
      if id.Some? && CanBeUsedAt(s.tokens[id.value], s.now)
      then s.(sessions := s.sessions[c := Found(id.value, s.tokens[id.value], s.now)])
      else s
    case Rotate(c, draw, commits) =>
      var (id, user) := (s.sessions[c].id, s.sessions[c].token.user);
      if commits && IsActive(s.tokens, id) then
        var f := FamilyOf(s, id).value;
        s.(tokens := RevokeActive(s.tokens, id)[draw.id := NewToken(user, draw)],
           sessions := s.sessions[c := Idle],
           families := s.families[f := s.families[f] + [draw.id]],
           retired := s.retired + {id}, wins := s.wins + [id])
      else s.(sessions := s.sessions[c := Idle])
    case Drop(c) => s.(sessions := s.sessions[c := Idle])
    case Revoke(id) =>
      s.(tokens := RevokeActive(s.tokens, id), retired := if IsActive(s.tokens, id) then s.retired + {id} else s.retired)
    case Cleanup(cutoff) => s.(tokens := DeleteUnusable(s.tokens, cutoff))
  }

  // The invariant

  /** The tokens of a login succeed one another: all but the last are retired. */
  ghost predicate FamilyInv(s: State, f: nat)
    requires f in s.families
  {
    var ids := s.families[f];
    && ids != []
    && (forall i :: 0 <= i < |ids| - 1 ==> ids[i] in s.retired)
    && (forall i, j :: 0 <= i < j < |ids| ==> ids[i] != ids[j])
  }

  ghost predicate FamiliesInv(s: State) {
    && (forall f :: f in s.families ==> FamilyInv(s, f))
    && (forall f, g, id :: f in s.families && g in s.families && id in s.families[f] && id in s.families[g] ==> f == g)
  }

  ghost predicate StoreInv(s: State) {
    && (forall id :: id in s.tokens ==> Issued(s, id))
    && (forall id :: id in s.retired ==> !IsActive(s.tokens, id) && Issued(s, id))
    && UniqueHashes(s.tokens)
  }

  ghost predicate WinsInv(s: State) {
    NoDuplicates(s.wins) && forall id :: id in s.wins ==> id in s.retired
  }

  ghost predicate SessionsInv(s: State) {
    forall c :: c in s.sessions && s.sessions[c].Found? ==> SessionInv(s, s.sessions[c])
  }

  ghost predicate Inv(s: State) { FamiliesInv(s) && StoreInv(s) && WinsInv(s) && SessionsInv(s) }

  ghost predicate SessionInv(s: State, r: Session)
    requires r.Found?
  {
    && r.seenAt <= s.now && CanBeUsedAt(r.token, r.seenAt) && Issued(s, r.id)
    && (r.id in s.tokens ==> s.tokens[r.id] == r.token.(revoked := s.tokens[r.id].revoked))
  }

  predicate NoDuplicates(ids: seq<Uuid>) { forall i, j :: 0 <= i < j < |ids| ==> ids[i] != ids[j] }

  /** A step that issues nothing: tokens disappear or are revoked, and sessions end or begin with a usable token. */
  ghost predicate Quiet(s: State, s': State) {
    && s'.families == s.families && s'.wins == s.wins && s.now <= s'.now && s.retired <= s'.retired
    && s'.tokens.Keys <= s.tokens.Keys
    && (forall id :: id in s'.tokens ==> s'.tokens[id] == s.tokens[id] || s'.tokens[id] == s.tokens[id].(revoked := true))
    && (forall id :: id in s'.retired && id !in s.retired ==> Issued(s, id) && !IsActive(s'.tokens, id))
    && (forall c :: c in s'.sessions && s'.sessions[c].Found? ==>
          (c in s.sessions && s'.sessions[c] == s.sessions[c]) || SessionInv(s, s'.sessions[c]))
  }

  lemma QuietKeepsFamilies(s: State, s': State)
    requires FamiliesInv(s) && s'.families == s.families && s.retired <= s'.retired
    ensures FamiliesInv(s') && forall id :: Issued(s, id) <==> Issued(s', id)
  {
    forall f | f in s'.families ensures FamilyInv(s', f) { assert FamilyInv(s, f); }
    forall id ensures Issued(s, id) <==> Issued(s', id) {
      if Issued(s, id) {
        var f :| f in s.families && id in s.families[f];
        assert f in s'.families;
      }
      if Issued(s', id) {
        var f :| f in s'.families && id in s'.families[f];
        assert f in s.families;
      }
    }
  }

  lemma QuietKeepsStore(s: State, s': State)
    requires StoreInv(s) && Quiet(s, s') && forall id :: Issued(s, id) <==> Issued(s', id)
    ensures StoreInv(s')
  {
    hide Issued, SessionInv;
  }

  lemma QuietKeepsSessions(s: State, s': State)
    requires SessionsInv(s) && Quiet(s, s') && forall id :: Issued(s, id) <==> Issued(s', id)
    ensures SessionsInv(s')
  {
    hide Issued, UniqueHashes, IsActive;
    forall c | c in s'.sessions && s'.sessions[c].Found? ensures SessionInv(s', s'.sessions[c]) {
      assert SessionInv(s, s'.sessions[c]);
    }
  }

  lemma QuietKeepsInv(s: State, s': State)
    requires Inv(s) && Quiet(s, s')
    ensures Inv(s')
  {
    QuietKeepsFamilies(s, s');
    QuietKeepsStore(s, s');
    QuietKeepsSessions(s, s');
    hide FamiliesInv, StoreInv, SessionsInv, Issued, IsActive, SessionInv;
  }

  /** Tokens of other logins and earlier ones are untouched by a new token at the end of family `f`. */
  lemma IssueKeepsIssued(s: State, s': State, f: nat, ids: seq<Uuid>)
    requires s'.families == s.families[f := ids] && (f in s.families ==> s.families[f] <= ids)
    ensures forall id :: Issued(s, id) ==> Issued(s', id)
    ensures forall id :: id in ids ==> Issued(s', id)
  {
    forall id | Issued(s, id) ensures Issued(s', id) {
      var g :| g in s.families && id in s.families[g];
      assert g in s'.families && id in s'.families[g];
    }
    forall id | id in ids ensures Issued(s', id) { assert f in s'.families; }
  }

  lemma NotIssued(s: State, f: nat, id: Uuid)
    requires f in s.families && !Issued(s, id)
    ensures id !in s.families[f]
  {
  }

  lemma NewFamily(s: State, s': State, f: nat, id: Uuid)
    requires FamiliesInv(s) && f !in s.families && !Issued(s, id)
    requires s'.families == s.families[f := [id]] && s'.retired == s.retired
    ensures FamiliesInv(s')
  {
    hide Issued;
    forall g | g in s'.families ensures FamilyInv(s', g) {
      if g != f { assert FamilyInv(s, g); }
    }
    forall g, h, x | g in s'.families && h in s'.families && x in s'.families[g] && x in s'.families[h] ensures g == h {
      if (g == f) != (h == f) { NotIssued(s, if g == f then h else g, id); }
    }
  }

  lemma ActiveIsLast(s: State, f: nat, id: Uuid)
    requires FamiliesInv(s) && StoreInv(s) && f in s.families && id in s.families[f] && IsActive(s.tokens, id)
    ensures id == s.families[f][|s.families[f]| - 1]
  {
    hide UniqueHashes, IsActive, Issued;
    assert FamilyInv(s, f);
    var k :| 0 <= k < |s.families[f]| && s.families[f][k] == id;
    if k < |s.families[f]| - 1 { assert false; }
  }

  /** The rotation of the active token of family `f`: it is the last of the family, and its successor takes its place. */
  lemma LongerFamily(s: State, s': State, f: nat, id: Uuid, next: Uuid)
    requires FamiliesInv(s) && StoreInv(s) && f in s.families && id in s.families[f] && IsActive(s.tokens, id) && !Issued(s, next)
    requires s'.families == s.families[f := s.families[f] + [next]] && s'.retired == s.retired + {id}
    ensures FamiliesInv(s')
  {
    hide UniqueHashes, IsActive, Issued;
    var ids := s.families[f];
    assert FamilyInv(s, f);
    ActiveIsLast(s, f, id);
    NotIssued(s, f, next);
    forall g | g in s'.families ensures FamilyInv(s', g) {
      if g != f { assert FamilyInv(s, g); }
    }
    forall g, h, x | g in s'.families && h in s'.families && x in s'.families[g] && x in s'.families[h] ensures g == h {
      if x == next {
        if g != f { NotIssued(s, g, next); }
        if h != f { NotIssued(s, h, next); }
      } else {
        assert x in s.families[g] && x in s.families[h];
      }
    }
  }

  /** A new token is none that a session holds. */
  lemma SessionsStay(s: State, s': State, next: Uuid)
    requires SessionsInv(s) && !Issued(s, next) && next !in s.tokens && s'.now == s.now
    requires forall id :: Issued(s, id) ==> Issued(s', id)
    requires forall id :: id in s'.tokens && id != next ==> id in s.tokens && s'.tokens[id] == s.tokens[id].(revoked := s'.tokens[id].revoked)
    requires forall c :: c in s'.sessions && s'.sessions[c].Found? ==> c in s.sessions && s'.sessions[c] == s.sessions[c]
    ensures SessionsInv(s')
  {
    hide Issued;
    forall c | c in s'.sessions && s'.sessions[c].Found? ensures SessionInv(s', s'.sessions[c]) { assert SessionInv(s, s.sessions[c]); }
  }

  lemma WinsGrow(wins: seq<Uuid>, id: Uuid)
    requires NoDuplicates(wins) && id !in wins
    ensures NoDuplicates(wins + [id])
  {
  }

  lemma NewTokenKeepsStore(s: State, s': State, id: Uuid, user: Uuid, draw: Draw)
    requires StoreInv(s) && Fresh(s, draw)
    requires s'.tokens == RevokeActive(s.tokens, id)[draw.id := NewToken(user, draw)]
    requires s'.retired == (if IsActive(s.tokens, id) then s.retired + {id} else s.retired)
    requires forall x :: Issued(s, x) ==> Issued(s', x)
    requires Issued(s', draw.id)
    ensures StoreInv(s')
  {
    hide Issued;
    assert forall x :: x in s.retired ==> Issued(s, x);
  }

  lemma LoginKeepsInv(s: State, f: nat, user: Uuid, draw: Draw)
    requires Inv(s) && Enabled(s, Login(f, user, draw))
    ensures Inv(Next(s, Login(f, user, draw)))
  {
    hide FamiliesInv, StoreInv, SessionsInv, Issued, HasHash, FamilyOf;
    var s' := Next(s, Login(f, user, draw));
    IssueKeepsIssued(s, s', f, [draw.id]);
    assert draw.id in [draw.id];
    NewFamily(s, s', f, draw.id);
    NewTokenKeepsStore(s, s', draw.id, user, draw);
    SessionsStay(s, s', draw.id);
  }

  lemma RotateEffect(s: State, c: nat, draw: Draw) returns (id: Uuid, user: Uuid, f: nat)
    requires Enabled(s, Rotate(c, draw, true)) && IsActive(s.tokens, s.sessions[c].id)
    ensures var s' := Next(s, Rotate(c, draw, true));
            && s'.tokens == RevokeActive(s.tokens, id)[draw.id := NewToken(user, draw)] && s'.now == s.now
            && f in s.families && id in s.families[f] && s'.families == s.families[f := s.families[f] + [draw.id]]
            && s'.retired == s.retired + {id} && s'.wins == s.wins + [id]
            && s'.sessions == s.sessions[c := Idle]
    ensures IsActive(s.tokens, id) && Fresh(s, draw) && !Issued(s, draw.id) && draw.id !in s.tokens
  {
    hide IsActive, Issued, HasHash, RevokeActive;
    id, user := s.sessions[c].id, s.sessions[c].token.user;
    f := FamilyOf(s, id).value;
  }

  lemma OthersKeepContent(tokens: Tokens, id: Uuid, user: Uuid, draw: Draw)
    ensures var after := RevokeActive(tokens, id)[draw.id := NewToken(user, draw)];
            forall x :: x in after && x != draw.id ==> x in tokens && after[x] == tokens[x].(revoked := after[x].revoked)
  {
  }

  lemma RotationKeepsInv(s: State, s': State, id: Uuid, user: Uuid, f: nat, draw: Draw)
    requires Inv(s) && IsActive(s.tokens, id) && Fresh(s, draw) && !Issued(s, draw.id) && draw.id !in s.tokens
    requires f in s.families && id in s.families[f] && s'.families == s.families[f := s.families[f] + [draw.id]]
    requires s'.tokens == RevokeActive(s.tokens, id)[draw.id := NewToken(user, draw)] && s'.now == s.now
    requires s'.retired == s.retired + {id} && s'.wins == s.wins + [id]
    requires forall c :: c in s'.sessions && s'.sessions[c].Found? ==> c in s.sessions && s'.sessions[c] == s.sessions[c]
    ensures Inv(s')
  {
    WonIsNew(s, id);
    OthersKeepContent(s.tokens, id, user, draw);
    hide FamiliesInv, StoreInv, SessionsInv, Issued, HasHash, NoDuplicates, Fresh, IsActive, RevokeActive;
    LongerFamily(s, s', f, id, draw.id);
    IssueKeepsIssued(s, s', f, s.families[f] + [draw.id]);
    assert draw.id in s.families[f] + [draw.id];
    NewTokenKeepsStore(s, s', id, user, draw);
    WinsGrow(s.wins, id);
    SessionsStay(s, s', draw.id);
  }

  lemma RotateKeepsInv(s: State, c: nat, draw: Draw)
    requires Inv(s) && Enabled(s, Rotate(c, draw, true)) && IsActive(s.tokens, s.sessions[c].id)
    ensures Inv(Next(s, Rotate(c, draw, true)))
  {
    hide Inv, Enabled, Next, Fresh, IsActive, Issued, RevokeActive;
    var id, user, f := RotateEffect(s, c, draw);
    RotationKeepsInv(s, Next(s, Rotate(c, draw, true)), id, user, f, draw);
  }

  lemma WonIsNew(s: State, id: Uuid)
    requires StoreInv(s) && WinsInv(s) && IsActive(s.tokens, id)
    ensures id !in s.wins
  {
  }

  lemma LookupFindsUsable(s: State, c: nat, hash: string)
    requires Inv(s) && c in s.sessions && s.sessions[c].Idle?
    ensures Inv(Next(s, Lookup(c, hash)))
  {
    hide FamilyInv, HasHash;
    var s' := Next(s, Lookup(c, hash));
    if s' != s { assert SessionInv(s, s'.sessions[c]); }
    hide FamiliesInv, WinsInv, Issued, UniqueHashes;
    QuietKeepsInv(s, s');
  }

  lemma RevokeKeepsInv(s: State, id: Uuid)
    requires Inv(s)
    ensures Inv(Next(s, Revoke(id)))
  {
    hide FamiliesInv, WinsInv, Issued, UniqueHashes, HasHash, SessionInv;
    QuietKeepsInv(s, Next(s, Revoke(id)));
  }

  lemma NextKeepsInv(s: State, step: Step)
    requires Inv(s) && Enabled(s, step)
    ensures Inv(Next(s, step))
  {
    hide FamiliesInv, StoreInv, WinsInv, SessionsInv, HasHash, Fresh, FamilyOf, SessionInv;
    match step
    case Login(f, user, draw) => LoginKeepsInv(s, f, user, draw);
    case Rotate(c, draw, commits) =>
      if commits && IsActive(s.tokens, s.sessions[c].id) { RotateKeepsInv(s, c, draw); }
      else { QuietKeepsInv(s, Next(s, step)); }
    case Lookup(c, hash) => LookupFindsUsable(s, c, hash);
    case Revoke(id) => RevokeKeepsInv(s, id);
    case _ => QuietKeepsInv(s, Next(s, step));
  }

  // Runs

  ghost predicate Executable(s: State, steps: seq<Step>)
    decreases |steps|
  {
    steps == [] || (Enabled(s, steps[0]) && Executable(Next(s, steps[0]), steps[1..]))
  }

  ghost function After(s: State, steps: seq<Step>): State
    requires Executable(s, steps)
    decreases |steps|
  {
    if steps == [] then s else After(Next(s, steps[0]), steps[1..])
  }

  function Initial(clients: set<nat>): State { State(map[], 0, map c | c in clients :: Idle, map[], {}, []) }

  lemma {:induction false} RunKeepsInv(s: State, steps: seq<Step>)
    requires Inv(s) && Executable(s, steps)
    ensures Inv(After(s, steps))
    decreases |steps|
  {
    hide Inv, Enabled, Next;
    if steps != [] {
      NextKeepsInv(s, steps[0]);
      RunKeepsInv(Next(s, steps[0]), steps[1..]);
    }
  }

  ghost predicate Reachable(s: State) {
    exists clients, steps :: Executable(Initial(clients), steps) && s == After(Initial(clients), steps)
  }

  lemma ReachableInv(s: State)
    requires Reachable(s)
    ensures Inv(s)
  {
    hide Enabled, Next;
    var clients, steps :| Executable(Initial(clients), steps) && s == After(Initial(clients), steps);
    RunKeepsInv(Initial(clients), steps);
  }

  lemma {:induction false} RunsConcatenate(s: State, a: seq<Step>, b: seq<Step>)
    requires Executable(s, a) && Executable(After(s, a), b)
    ensures Executable(s, a + b) && After(s, a + b) == After(After(s, a), b)
    decreases |a|
  {
    hide Enabled, Next;
    if a == [] {
      assert a + b == b;
    } else {
      RunsConcatenate(Next(s, a[0]), a[1..], b);
      assert (a + b)[1..] == a[1..] + b;
    }
  }

  lemma OneMore(s: State, steps: seq<Step>, step: Step)
    requires Executable(s, steps) && Enabled(After(s, steps), step)
    ensures Executable(s, steps + [step]) && After(s, steps + [step]) == Next(After(s, steps), step)
  {
    hide Enabled, Next;
    assert [step][1..] == [];
    RunsConcatenate(s, steps, [step]);
  }

  // What holds in every reachable state

  /** A login has at most one active token, and it is the last one issued to it. */
  lemma OneActiveTokenPerLogin(s: State, f: nat, id: Uuid)
    requires Reachable(s) && f in s.families && id in s.families[f] && IsActive(s.tokens, id)
    ensures id == s.families[f][|s.families[f]| - 1]
    ensures forall other :: other in s.families[f] && IsActive(s.tokens, other) ==> other == id
  {
    hide Reachable, FamiliesInv, StoreInv, WinsInv, SessionsInv;
    ReachableInv(s);
    forall other | other in s.families[f] && IsActive(s.tokens, other) ensures other == s.families[f][|s.families[f]| - 1] {
      ActiveIsLast(s, f, other);
    }
  }

  /** Every stored token belongs to exactly one login. */
  lemma EveryTokenHasItsLogin(s: State, id: Uuid)
    requires Reachable(s) && id in s.tokens
    ensures exists f :: f in s.families && id in s.families[f] && forall g :: g in s.families && id in s.families[g] ==> g == f
  {
    hide Reachable, FamilyInv, UniqueHashes, NoDuplicates;
    ReachableInv(s);
    assert Issued(s, id);
  }

  /** However many requests refresh one token at once, at most one of them succeeds. */
  lemma OneWinnerPerToken(s: State, i: nat, j: nat)
    requires Reachable(s) && i < j < |s.wins|
    ensures s.wins[i] != s.wins[j]
  {
    hide Reachable, FamilyInv, UniqueHashes;
    ReachableInv(s);
  }

  /** A token that was revoked never becomes active again, whatever follows. */
  lemma {:induction false} RevokedStaysRevoked(s: State, steps: seq<Step>, id: Uuid)
    requires Inv(s) && Executable(s, steps) && id in s.retired
    ensures !IsActive(After(s, steps).tokens, id)
    decreases |steps|
  {
    hide Enabled, FamilyInv, UniqueHashes, NoDuplicates;
    if steps != [] {
      NextKeepsInv(s, steps[0]);
      RevokedStaysRevoked(Next(s, steps[0]), steps[1..], id);
    }
  }

  /** The cleanup deletes a token exactly when it is revoked or expired before the cutoff; so it deletes none that could
      be used now or later. */
  lemma CleanupDeletesOnlyUnusable(s: State, cutoff: Time, id: Uuid)
    requires Enabled(s, Cleanup(cutoff)) && id in s.tokens
    ensures id in Next(s, Cleanup(cutoff)).tokens <==> !s.tokens[id].revoked && s.tokens[id].expiresAt >= cutoff
    ensures id !in Next(s, Cleanup(cutoff)).tokens ==> forall t :: t >= cutoff ==> !CanBeUsedAt(s.tokens[id], t)
    ensures CanBeUsedAt(s.tokens[id], s.now) ==> id in Next(s, Cleanup(cutoff)).tokens && Next(s, Cleanup(cutoff)).tokens[id] == s.tokens[id]
  {
  }

  /** Conservation: a successful refresh replaces the active token of its login by one other, for the same user; the
      token refreshed was usable when it was looked up, and active until now. */
  lemma RefreshReplaces(s: State, c: nat, draw: Draw)
    requires Reachable(s) && Enabled(s, Rotate(c, draw, true)) && IsActive(s.tokens, s.sessions[c].id)
    ensures var (s', id, f) := (Next(s, Rotate(c, draw, true)), s.sessions[c].id, FamilyOf(s, s.sessions[c].id).value);
            && draw.id in s'.tokens && s'.tokens[draw.id] == Token(s.tokens[id].user, draw.hash, false, draw.expiresAt)
            && id in s'.tokens && s'.tokens[id] == s.tokens[id].(revoked := true)
            && s'.families[f] == s.families[f] + [draw.id] && s'.wins == s.wins + [id]
            && (forall other :: other in s.tokens && other != id ==> other in s'.tokens && s'.tokens[other] == s.tokens[other])
    ensures !s.sessions[c].token.revoked && s.sessions[c].token.expiresAt > s.sessions[c].seenAt && s.sessions[c].seenAt <= s.now
  {
    hide Reachable, FamilyInv, UniqueHashes, NoDuplicates;
    ReachableInv(s);
    assert SessionInv(s, s.sessions[c]);
  }

  /** A login adds one token, with the secret and expiry drawn for it, and begins a chain of its own; a logout revokes the
      token it names. Neither touches another. */
  lemma LoginAndLogout(s: State, f: nat, user: Uuid, draw: Draw, id: Uuid, other: Uuid)
    requires Enabled(s, Login(f, user, draw)) && other in s.tokens
    ensures var s' := Next(s, Login(f, user, draw));
            && draw.id in s'.tokens && s'.tokens[draw.id] == Token(user, draw.hash, false, draw.expiresAt)
            && other in s'.tokens && s'.tokens[other] == s.tokens[other]
            && f in s'.families && s'.families[f] == [draw.id] && s'.families - {f} == s.families
    ensures var s' := Next(s, Revoke(id));
            && !IsActive(s'.tokens, id) && (IsActive(s.tokens, id) ==> id in s'.retired)
            && other in s'.tokens && s'.tokens[other] == s.tokens[other].(revoked := s.tokens[other].revoked || other == id)
  {
    assert Next(s, Login(f, user, draw)).families - {f} == s.families;
  }

  // Expiry during a refresh

  predicate IsOf(step: Step, c: nat) { (step.Lookup? || step.Rotate? || step.Drop?) && step.c == c }

  lemma {:induction false} SessionStays(s: State, steps: seq<Step>, c: nat)
    requires Executable(s, steps) && c in s.sessions && forall step :: step in steps ==> !IsOf(step, c)
    ensures c in After(s, steps).sessions && After(s, steps).sessions[c] == s.sessions[c]
    decreases |steps|
  {
    if steps != [] {
      assert !IsOf(steps[0], c) by { assert steps[0] in steps; }
      SessionStays(Next(s, steps[0]), steps[1..], c);
    }
  }

  lemma ReachableGoesOn(s: State, steps: seq<Step>)
    requires Reachable(s) && Executable(s, steps)
    ensures Reachable(After(s, steps))
  {
    hide Enabled, Next;
    var clients, before :| Executable(Initial(clients), before) && s == After(Initial(clients), before);
    RunsConcatenate(Initial(clients), before, steps);
  }

  /** The rotation looks at `revoked` alone: whatever the others do between a request's lookup and its rotation, it
      succeeds exactly if the token is still active; and the token it then rotates is still usable if and only if the
      request took less time than the token had left at its lookup. */
  lemma RotationTestsRevocationOnly(s: State, c: nat, hash: string, steps: seq<Step>, draw: Draw)
    requires Reachable(s) && Enabled(s, Lookup(c, hash)) && Next(s, Lookup(c, hash)).sessions[c].Found?
    requires Executable(Next(s, Lookup(c, hash)), steps) && forall step :: step in steps ==> !IsOf(step, c)
    requires Enabled(After(Next(s, Lookup(c, hash)), steps), Rotate(c, draw, true))
    ensures var (found, t) := (Next(s, Lookup(c, hash)).sessions[c], After(Next(s, Lookup(c, hash)), steps));
            && (|Next(t, Rotate(c, draw, true)).wins| == |t.wins| + 1 <==> IsActive(t.tokens, found.id))
            && (IsActive(t.tokens, found.id) ==>
                  (CanBeUsedAt(t.tokens[found.id], t.now) <==> t.now - s.now < found.token.expiresAt - s.now))
  {
    hide Reachable, FamiliesInv, StoreInv, WinsInv, HasHash, Issued, Fresh;
    var s1 := Next(s, Lookup(c, hash));
    OneMoreReachable(s, Lookup(c, hash));
    ReachableGoesOn(s1, steps);
    SessionStays(s1, steps, c);
    var t := After(s1, steps);
    ReachableInv(t);
    assert SessionInv(t, t.sessions[c]);
  }

  lemma OneMoreReachable(s: State, step: Step)
    requires Reachable(s) && Enabled(s, step)
    ensures Reachable(Next(s, step))
  {
    hide Enabled, Next, Reachable;
    assert Executable(s, []) && After(s, []) == s;
    OneMore(s, [], step);
    assert [] + [step] == [step];
    ReachableGoesOn(s, [step]);
  }

  ghost predicate Ran(steps: seq<Step>, s: State) { Executable(Initial({0}), steps) && s == After(Initial({0}), steps) }

  lemma Take(steps: seq<Step>, s: State, step: Step) returns (steps': seq<Step>, s': State)
    requires Ran(steps, s) && Enabled(s, step)
    ensures Ran(steps', s') && s' == Next(s, step)
  {
    hide Enabled, Next;
    steps', s' := steps + [step], Next(s, step);
    OneMore(Initial({0}), steps, step);
  }

  /** A token that expires between the lookup and the rotation is rotated all the same. */
  lemma ExpiredTokenCanRotate() returns (steps: seq<Step>, s: State)
    ensures Ran(steps, s) && 1 in s.tokens && s.tokens[1].expiresAt <= s.now && IsActive(s.tokens, 1)
    ensures 0 in s.sessions && s.sessions[0].Found? && s.sessions[0].id == 1
    ensures Enabled(s, Rotate(0, Draw(2, "b", 99), true)) && Next(s, Rotate(0, Draw(2, "b", 99), true)).wins == [1]
  {
    steps, s := [], Initial({0});
    assert Ran(steps, s);
    hide Ran;
    steps, s := Take(steps, s, Login(0, 7, Draw(1, "a", 10)));
    var token := Token(7, "a", false, 10);
    assert s.tokens == map[1 := token] && s.families == map[0 := [1]];
    assert HasHash(s.tokens, "a") && IdOf(s.tokens, "a") == Some(1);
    steps, s := Take(steps, s, Lookup(0, "a"));
    steps, s := Take(steps, s, Tick(10));
    assert s.sessions[0] == Found(1, token, 0);
    OnlyOneIssued(s);
    assert [] + [1] == [1];
  }

  lemma OnlyOneIssued(s: State)
    requires s.families == map[0 := [1]] && s.tokens == map[1 := Token(7, "a", false, 10)]
    ensures FamilyOf(s, 1).Some? && Fresh(s, Draw(2, "b", 99))
  {
    assert 0 in s.families && 1 in s.families[0];
  }
}
