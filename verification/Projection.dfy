/** The notification projection: which notifications an event asks for, and how Redis stores them
    (apps/notification-service-go/internal/consumer/issue_events.go and internal/store/redis_store.go). */
module Projection {
  import opened Types
  import opened Text

  // Events as decoded from a record

  /** A JSON value, as far as the payload's fields are looked at. */
  datatype Json = JString(text: string) | JArray(items: seq<Json>) | JOther

  datatype EventType = IssueCreated | IssueUpdated | IssueAssigned | IssueTransitioned | IssueCommented | UnknownType

  /** `occurredAt` is None for Go's zero time. */
  datatype IssueEvent = IssueEvent(
    eventId: string, eventType: EventType, schemaVersion: int, aggregateId: string, projectId: string,
    actor: string, occurredAt: Option<Time>, recipients: Json, issueKey: string, toStatus: string)

  datatype Raw = Undecodable | Decoded(event: IssueEvent)

  function TrimSpace(s: string): string { Trim(IsSpace, s) }

  predicate ValidEvent(event: IssueEvent) {
    && event.schemaVersion == 1 && TrimSpace(event.eventId) != "" && TrimSpace(event.aggregateId) != ""
    && TrimSpace(event.projectId) != "" && event.eventType != UnknownType
  }

  function NormalizeUserId(userId: string): string { Lower(TrimSpace(userId)) }

  predicate HasText(s: string) { exists i :: 0 <= i < |s| && !IsSpace(s[i]) }

  /** The envelope is of the one version there is, of a known type, and names its event, issue and project. */
  lemma ValidMeansComplete(event: IssueEvent)
    ensures ValidEvent(event) <==>
              event.schemaVersion == 1 && event.eventType != UnknownType &&
              HasText(event.eventId) && HasText(event.aggregateId) && HasText(event.projectId)
  {
    TrimsToText(event.eventId);
    TrimsToText(event.aggregateId);
    TrimsToText(event.projectId);
  }

  lemma TrimsToText(s: string)
    ensures TrimSpace(s) != "" <==> HasText(s)
  {
    TrimDropsRuns(IsSpace, s);
    if TrimSpace(s) != "" {
      assert TrimSpace(s)[0] in s;
    }
    if i :| 0 <= i < |s| && !IsSpace(s[i]) { assert s[i] in s; }
  }

  predicate IsNormal(s: string) {
    (forall i :: 0 <= i < |s| ==> !IsUpperLetter(s[i])) && (s != "" ==> !IsSpace(s[0]) && !IsSpace(s[|s| - 1]))
  }

  /** Two spellings of a user id that differ in letter case and outer white space only are the same, and each has one
      normal form. */
  lemma NormalUserId(s: string, before: string, after: string)
    requires (forall c :: c in before ==> IsSpace(c)) && forall c :: c in after ==> IsSpace(c)
    ensures NormalizeUserId(before + s + after) == NormalizeUserId(s) == NormalizeUserId(Lower(s))
    ensures IsNormal(NormalizeUserId(s))
    ensures IsNormal(s) ==> NormalizeUserId(s) == s
  {
    TrimDropsPadding(IsSpace, before, s, after);
    assert Lower(s) == Fold(LowerChar, s) && Lower(TrimSpace(s)) == Fold(LowerChar, TrimSpace(s));
    TrimFold(IsSpace, LowerChar, s);
    LowerIsIdempotent(TrimSpace(s));
    TrimDropsRuns(IsSpace, s);
    if IsNormal(s) {
      TrimKeeps(IsSpace, s);
      assert Lower(s) == s;
    }
  }

  function StringsFrom(value: Json): seq<string> {
    if value.JArray? then Strings(value.items) else []
  }

  function Strings(items: seq<Json>): seq<string> {
    if items == [] then [] else (if items[0].JString? then [items[0].text] else []) + Strings(items[1..])
  }

  /** The users the loop adds for the first `n` texts: normalised, not blank, not the actor, not seen before. */
  function RecipientsOf(texts: seq<string>, actor: string): seq<string> {
    if texts == [] then []
    else
      var front := RecipientsOf(texts[..|texts| - 1], actor);
      var user := NormalizeUserId(texts[|texts| - 1]);
      if user == "" || user == NormalizeUserId(actor) || user in front then front else front + [user]
  }

  function NormalizedRecipients(event: IssueEvent): seq<string> {
    RecipientsOf(StringsFrom(event.recipients), event.actor)
  }

  predicate NoDuplicates(s: seq<string>) { forall i, j :: 0 <= i < j < |s| ==> s[i] != s[j] }

  ghost predicate Named(texts: seq<string>, user: string) {
    exists i :: 0 <= i < |texts| && NormalizeUserId(texts[i]) == user
  }

  lemma NamedLast(texts: seq<string>, user: string)
    requires texts != []
    ensures Named(texts, user) <==> Named(texts[..|texts| - 1], user) || NormalizeUserId(texts[|texts| - 1]) == user
  {
    var front := texts[..|texts| - 1];
    if i :| 0 <= i < |front| && NormalizeUserId(front[i]) == user { assert texts[i] == front[i]; }
    if i :| 0 <= i < |texts| && NormalizeUserId(texts[i]) == user { assert i < |front| ==> front[i] == texts[i]; }
  }

  /** The recipients are exactly the normalised candidates other than the actor and blanks... */
  lemma {:induction false} RecipientsExact(texts: seq<string>, actor: string, user: string)
    ensures user in RecipientsOf(texts, actor) <==> user != "" && user != NormalizeUserId(actor) && Named(texts, user)
  {
    if texts != [] {
      RecipientsExact(texts[..|texts| - 1], actor, user);
      NamedLast(texts, user);
    }
  }

  /** ...each once. */
  lemma {:induction false} RecipientsDistinct(texts: seq<string>, actor: string)
    ensures NoDuplicates(RecipientsOf(texts, actor))
  {
    if texts != [] { RecipientsDistinct(texts[..|texts| - 1], actor); }
  }

  method NormalizeRecipients(value: Json, actor: string) returns (result: seq<string>)
    ensures result == RecipientsOf(StringsFrom(value), actor)
  {
    var seen: set<string> := {};
    var actorId := NormalizeUserId(actor);
    var texts := StringsFrom(value);
    result := [];
    for i := 0 to |texts|
      invariant result == RecipientsOf(texts[..i], actor)
      invariant forall u :: u in seen <==> u in result
    {
      var normalized := NormalizeUserId(texts[i]);
      assert texts[..i + 1][..i] == texts[..i];
      if normalized == "" || normalized == actorId || normalized in seen { continue; }
      seen := seen + {normalized};
      result := result + [normalized];
    }
    assert texts[..|texts|] == texts;
  }

  // Notifications

  /** The hash is free of collisions: equal digests come from equal texts. */
  datatype Digest = Sha256(text: string)

  function DeterministicId(eventId: string, userId: string): Digest { Sha256(eventId + ":" + userId) }

  /** notification:<user>:<digest>; a digest is hexadecimal, so the text splits one way only. */
  datatype Key = Key(user: string, id: Digest)

  function KeyOf(eventId: string, userId: string): Key { Key(userId, DeterministicId(eventId, userId)) }

  lemma KeyInjective(e: string, u: string, e': string, u': string)
    ensures KeyOf(e, u) == KeyOf(e', u') <==> e == e' && u == u'
  {
    if KeyOf(e, u) == KeyOf(e', u') {
      var (s, s') := (e + ":" + u, e' + ":" + u');
      assert s[..|e|] == e && s'[..|e'|] == e';
    }
  }

  datatype Notification = Notification(
    id: Digest, user: string, eventId: string, eventType: EventType, title: string, body: string,
    issueId: string, projectId: string, createdAt: Time)

  function Content(event: IssueEvent): (string, string) {
    match event.eventType
    case IssueCreated => ("Issue assigned", event.issueKey + " was created and assigned to you")
    case IssueAssigned => ("Issue assignment changed", "Assignment changed on " + event.issueKey)
    case IssueTransitioned => ("Issue status changed", event.issueKey + " moved to " + event.toStatus)
    case IssueCommented => ("New issue comment", "A comment was added to " + event.issueKey)
    case _ => ("Issue updated", event.issueKey + " was updated")
  }

  /** The notification of one recipient. An event without a time is stamped with the clock. */
  function NotificationFor(event: IssueEvent, user: string, now: Time): Notification {
    Notification(DeterministicId(event.eventId, user), user, event.eventId, event.eventType, Content(event).0, Content(event).1,
                 event.aggregateId, event.projectId, match event.occurredAt case Some(t) => t case None => now)
  }

  // Redis

  datatype Field = FId | FUser | FEvent | FType | FTitle | FBody | FIssue | FProject | FCreatedAt | FReadAt

  datatype Value = Blank | Text(text: string) | Hex(id: Digest) | Kind(kind: EventType) | At(time: Time)

  type Hash = map<Field, Value>

  datatype Redis = Redis(hashes: map<Key, Hash>, index: map<string, map<Digest, Time>>)

  const EMPTY := Redis(map[], map[])

  function FieldsOf(n: Notification): Hash {
    map[FId := Hex(n.id), FUser := Text(n.user), FEvent := Text(n.eventId), FType := Kind(n.eventType),
        FTitle := Text(n.title), FBody := Text(n.body), FIssue := Text(n.issueId), FProject := Text(n.projectId),
        FCreatedAt := At(n.createdAt), FReadAt := Blank]
  }

  function HashAt(r: Redis, key: Key): Hash { if key in r.hashes then r.hashes[key] else map[] }

  function IndexOf(r: Redis, user: string): map<Digest, Time> { if user in r.index then r.index[user] else map[] }

  /** Every field set if absent, and the index entry set. */
  function SaveOne(r: Redis, n: Notification): Redis {
    var key := Key(n.user, n.id);
    Redis(r.hashes[key := FieldsOf(n) + HashAt(r, key)],
          r.index[n.user := IndexOf(r, n.user)[n.id := n.createdAt]])
  }

  /** The pipeline of SaveEventNotifications, applied at once. */
  function Save(r: Redis, ns: seq<Notification>): Redis {
    if ns == [] then r else SaveOne(Save(r, ns[..|ns| - 1]), ns[|ns| - 1])
  }

  predicate IsRead(r: Redis, key: Key) {
    key in r.hashes && FReadAt in r.hashes[key] && r.hashes[key][FReadAt] != Blank
  }

  /** HSET readAt. */
  function SetRead(r: Redis, key: Key, at: Time): Redis {
    r.(hashes := r.hashes[key := HashAt(r, key)[FReadAt := At(at)]])
  }

  /** The script of MarkAllRead on one key: only an existing, unread hash is touched. */
  function MarkIfUnread(r: Redis, key: Key, at: Time): Redis {
    if key in r.hashes && !IsRead(r, key) then SetRead(r, key, at) else r
  }

  function MarkAll(r: Redis, user: string, ids: seq<Digest>, at: Time): Redis {
    if ids == [] then r else MarkIfUnread(MarkAll(r, user, ids[..|ids| - 1], at), Key(user, ids[|ids| - 1]), at)
  }

  // Handling a record

  datatype Access = Eligible | NotEligible | Undecided | CheckFailed

  datatype Outcome = Succeeded | PermanentFailure | TransientFailure

  /** The pipeline is applied and confirmed, applied with the reply lost, or not applied. */
  datatype SaveOutcome = Saved | SavedButErrored | NotSaved

  /** What the services around the consumer answer while it handles a record. */
  datatype Surroundings = Surroundings(checker: bool, access: string -> Access, save: SaveOutcome, now: Time)

  predicate Answered(users: seq<string>, access: string -> Access) {
    forall i :: 0 <= i < |users| ==> access(users[i]) == Eligible || access(users[i]) == NotEligible
  }

  function EligibleOf(users: seq<string>, access: string -> Access): seq<string> {
    if users == [] then []
    else
      var front := EligibleOf(users[..|users| - 1], access);
      if access(users[|users| - 1]) == Eligible then front + [users[|users| - 1]] else front
  }

  function NotificationsFor(event: IssueEvent, users: seq<string>, now: Time): seq<Notification> {
    if users == [] then []
    else NotificationsFor(event, users[..|users| - 1], now) + [NotificationFor(event, users[|users| - 1], now)]
  }

  /** handle: the outcome, and the users whose notifications reached Redis. Redis is written only after every
      access check has answered. */
  function Handle(raw: Raw, env: Surroundings): (r: (Outcome, seq<string>))
    ensures r.1 != [] ==> raw.Decoded?
  {
    if raw.Undecodable? || !ValidEvent(raw.event) then (PermanentFailure, [])
    else if !env.checker then (TransientFailure, [])
    else
      var recipients := NormalizedRecipients(raw.event);
      if !Answered(recipients, env.access) then (TransientFailure, [])
      else
        var eligible := EligibleOf(recipients, env.access);
        if eligible == [] || env.save == Saved then (Succeeded, eligible)
        else (TransientFailure, if env.save == SavedButErrored then eligible else [])
  }

  function Project(r: Redis, raw: Raw, env: Surroundings): Redis {
    var users := Handle(raw, env).1;
    if users == [] then r else Save(r, NotificationsFor(raw.event, users, env.now))
  }

  lemma {:induction false} EligibleMembers(users: seq<string>, access: string -> Access)
    ensures forall u :: u in EligibleOf(users, access) <==> u in users && access(u) == Eligible
  {
    if users != [] {
      EligibleMembers(users[..|users| - 1], access);
      assert users == users[..|users| - 1] + [users[|users| - 1]];
    }
  }

  /** Only recipients named by the event and other than its actor are ever notified. */
  lemma NotifiedAreRecipients(raw: Raw, env: Surroundings, user: string)
    requires user in Handle(raw, env).1
    ensures raw.Decoded? && ValidEvent(raw.event) && env.access(user) == Eligible
    ensures user != NormalizeUserId(raw.event.actor) && Named(StringsFrom(raw.event.recipients), user)
  {
    EligibleMembers(NormalizedRecipients(raw.event), env.access);
    RecipientsExact(StringsFrom(raw.event.recipients), raw.event.actor, user);
  }

  // What handling comes to

  lemma {:induction false} StringsAreTexts(items: seq<Json>, text: string)
    ensures text in Strings(items) <==> JString(text) in items
  {
    if items != [] { StringsAreTexts(items[1..], text); }
  }

  /** One of the texts in the event's list of recipients stands for this user, who is not the one who acted. */
  ghost predicate Addresses(event: IssueEvent, user: string) {
    && user != "" && user != NormalizeUserId(event.actor) && event.recipients.JArray?
    && exists text :: JString(text) in event.recipients.items && NormalizeUserId(text) == user
  }

  lemma AddressedAreRecipients(event: IssueEvent, user: string)
    ensures user in NormalizedRecipients(event) <==> Addresses(event, user)
  {
    hide NormalizeUserId;
    RecipientsExact(StringsFrom(event.recipients), event.actor, user);
    var texts := StringsFrom(event.recipients);
    if i :| 0 <= i < |texts| && NormalizeUserId(texts[i]) == user {
      StringsAreTexts(event.recipients.items, texts[i]);
    }
    if event.recipients.JArray? {
      if text :| JString(text) in event.recipients.items && NormalizeUserId(text) == user {
        StringsAreTexts(event.recipients.items, text);
        var i :| 0 <= i < |texts| && texts[i] == text;
      }
    }
  }

  /** Every addressed user's access was decided, one way or the other. */
  ghost predicate AllDecided(event: IssueEvent, env: Surroundings) {
    forall user :: Addresses(event, user) ==> env.access(user) == Eligible || env.access(user) == NotEligible
  }

  /** Some addressed user has access. */
  ghost predicate SomeEligible(event: IssueEvent, env: Surroundings) {
    exists user :: Addresses(event, user) && env.access(user) == Eligible
  }

  /** Exactly when handling succeeds, fails for good, or is to be tried again, and for whom it writes. It never succeeds
      with a user left undecided, and writes nothing before all are decided. */
  lemma HandleMeans(raw: Raw, env: Surroundings)
    ensures Handle(raw, env).0 == PermanentFailure <==> raw.Undecodable? || !ValidEvent(raw.event)
    ensures Handle(raw, env).0 == PermanentFailure ==> Handle(raw, env).1 == []
    ensures raw.Decoded? && ValidEvent(raw.event) ==>
              (Handle(raw, env).0 == Succeeded <==>
                 env.checker && AllDecided(raw.event, env) && (SomeEligible(raw.event, env) ==> env.save == Saved))
    ensures raw.Decoded? && ValidEvent(raw.event) ==>
              forall user :: user in Handle(raw, env).1 <==>
                Addresses(raw.event, user) && env.access(user) == Eligible &&
                env.checker && AllDecided(raw.event, env) && env.save != NotSaved
    ensures NoDuplicates(Handle(raw, env).1)
  {
    hide ValidEvent, Addresses, RecipientsOf, StringsFrom;
    if raw.Decoded? && ValidEvent(raw.event) {
      var users := NormalizedRecipients(raw.event);
      forall user ensures user in users <==> Addresses(raw.event, user) { AddressedAreRecipients(raw.event, user); }
      RecipientsDistinct(StringsFrom(raw.event.recipients), raw.event.actor);
      EligibleMembers(users, env.access);
      EligibleDistinct(users, env.access);
      assert Answered(users, env.access) <==> AllDecided(raw.event, env) by {
        assert forall user :: user in users ==> exists i :: 0 <= i < |users| && users[i] == user;
        assert forall i :: 0 <= i < |users| ==> users[i] in users;
      }
      assert SomeEligible(raw.event, env) <==> EligibleOf(users, env.access) != [] by {
        var eligible := EligibleOf(users, env.access);
        if eligible != [] { assert eligible[0] in eligible; }
      }
    }
  }

  lemma {:induction false} EligibleDistinct(users: seq<string>, access: string -> Access)
    requires NoDuplicates(users)
    ensures NoDuplicates(EligibleOf(users, access))
  {
    if users != [] {
      EligibleDistinct(users[..|users| - 1], access);
      EligibleMembers(users[..|users| - 1], access);
    }
  }

  // Runs of the store

  /** A processed record, or a reader's write. MarkRead checks first and writes later, so its write stands alone; module
      ReadTimes says which calls make it. */
  datatype Op =
    | Process(raw: Raw, env: Surroundings)
    | WriteRead(user: string, id: Digest, at: Time)
    | MarkAllRead(user: string, ids: seq<Digest>, at: Time)

  /** The store, and a history variable: the (event, user) pairs whose notification some processing wrote. */
  datatype State = State(redis: Redis, notified: set<(IssueEvent, string)>)

  const INITIAL := State(EMPTY, {})

  function Pairs(event: IssueEvent, users: seq<string>): set<(IssueEvent, string)> {
    set u | u in users :: (event, u)
  }

  function Next(s: State, op: Op): State {
    match op
    case Process(raw, env) =>
      var users := Handle(raw, env).1;
      State(Project(s.redis, raw, env), s.notified + (if users == [] then {} else Pairs(raw.event, users)))
    case WriteRead(user, id, at) =>
      // MarkRead has seen the hash exist before it writes.
      if Key(user, id) in s.redis.hashes then s.(redis := SetRead(s.redis, Key(user, id), at)) else s
    case MarkAllRead(user, ids, at) => s.(redis := MarkAll(s.redis, user, ids, at))
  }

  function After(s: State, ops: seq<Op>): State {
    if ops == [] then s else Next(After(s, ops[..|ops| - 1]), ops[|ops| - 1])
  }

  /** The hash of a notification, whatever its read time. */
  predicate ShowsNotification(hash: Hash, n: Notification) {
    FReadAt in hash && hash[FReadAt := Blank] == FieldsOf(n)
  }

  /** The notification of a pair: the event's content, stamped with the event's time. */
  function NotificationOf(pair: (IssueEvent, string)): Notification { NotificationFor(pair.0, pair.1, 0) }

  function PairKey(pair: (IssueEvent, string)): Key { KeyOf(pair.0.eventId, pair.1) }

  ghost predicate Distinct(notified: set<(IssueEvent, string)>) {
    forall p, q :: p in notified && q in notified && PairKey(p) == PairKey(q) ==> p == q
  }

  ghost predicate PairStored(r: Redis, p: (IssueEvent, string)) {
    && PairKey(p) in r.hashes && ShowsNotification(r.hashes[PairKey(p)], NotificationOf(p))
    && p.1 in r.index && PairKey(p).id in r.index[p.1] && r.index[p.1][PairKey(p).id] == NotificationOf(p).createdAt
    && p.0.occurredAt.Some? && p.1 != NormalizeUserId(p.0.actor)
  }

  ghost predicate KeyKnown(notified: set<(IssueEvent, string)>, key: Key) {
    exists p :: p in notified && PairKey(p) == key
  }

  /** The store holds exactly one notification per notified pair, in the hashes and in the index. */
  ghost predicate Inv(s: State) {
    && Distinct(s.notified)
    && (forall p :: p in s.notified ==> PairStored(s.redis, p))
    && (forall key :: key in s.redis.hashes ==> KeyKnown(s.notified, key))
    && (forall user, id :: user in s.redis.index && id in s.redis.index[user] ==> KeyKnown(s.notified, Key(user, id)))
  }

  /** The next record's event carries a time, and its id belongs to no other event notified before. */
  ghost predicate Admissible(s: State, event: IssueEvent) {
    event.occurredAt.Some? && forall p :: p in s.notified && p.0.eventId == event.eventId ==> p.0 == event
  }

  lemma PairKeysDiffer(s: State, event: IssueEvent, user: string)
    requires Admissible(s, event)
    ensures forall p :: p in s.notified && PairKey(p) == KeyOf(event.eventId, user) ==> p == (event, user)
  {
    forall p | p in s.notified && PairKey(p) == KeyOf(event.eventId, user) ensures p == (event, user) {
      KeyInjective(p.0.eventId, p.1, event.eventId, user);
    }
  }

  /** Saving a notification that is stored changes nothing: not its content, its read time or its place. */
  lemma SavingAgainChangesNothing(s: State, p: (IssueEvent, string))
    requires Inv(s) && p in s.notified
    ensures SaveOne(s.redis, NotificationOf(p)) == s.redis
  {
    assert PairStored(s.redis, p);
    hide Inv, FieldsOf, ShowsNotification, Content;
    SameHash(s.redis, p);
    SameIndex(s.redis, p);
  }

  lemma FieldsShown(hash: Hash, n: Notification)
    requires ShowsNotification(hash, n)
    ensures FieldsOf(n) + hash == hash
  {
    hide FieldsOf;
    assert FReadAt in hash[FReadAt := Blank];
    forall f ensures f in FieldsOf(n) <==> f in hash { assert f in hash[FReadAt := Blank] <==> f in hash; }
  }

  lemma SameHash(r: Redis, p: (IssueEvent, string))
    requires PairStored(r, p)
    ensures SaveOne(r, NotificationOf(p)).hashes == r.hashes
  {
    hide FieldsOf, ShowsNotification, Content;
    FieldsShown(r.hashes[PairKey(p)], NotificationOf(p));
  }

  lemma SameIndex(r: Redis, p: (IssueEvent, string))
    requires PairStored(r, p)
    ensures SaveOne(r, NotificationOf(p)).index == r.index
  {
    hide FieldsOf, ShowsNotification, Content;
    assert r.index[p.1][NotificationOf(p).id := NotificationOf(p).createdAt] == r.index[p.1];
  }

  lemma KeysStayKnown(notified: set<(IssueEvent, string)>, p: (IssueEvent, string), key: Key)
    requires KeyKnown(notified, key) || key == PairKey(p)
    ensures KeyKnown(notified + {p}, key)
  {
    if KeyKnown(notified, key) {
      var q :| q in notified && PairKey(q) == key;
      assert q in notified + {p};
    } else {
      assert p in notified + {p};
    }
  }

  lemma NewPairIsStored(r: Redis, p: (IssueEvent, string))
    requires PairKey(p) !in r.hashes && p.0.occurredAt.Some? && p.1 != NormalizeUserId(p.0.actor)
    ensures PairStored(SaveOne(r, NotificationOf(p)), p)
  {
    var n := NotificationOf(p);
    assert FieldsOf(n) + map[] == FieldsOf(n) && FieldsOf(n)[FReadAt := Blank] == FieldsOf(n);
  }

  lemma UnknownKeyIsAbsent(s: State, p: (IssueEvent, string))
    requires Inv(s) && Admissible(s, p.0) && p !in s.notified
    ensures PairKey(p) !in s.redis.hashes
  {
    PairKeysDiffer(s, p.0, p.1);
  }

  lemma SaveNew(s: State, p: (IssueEvent, string))
    requires Inv(s) && Admissible(s, p.0) && p !in s.notified && p.1 != NormalizeUserId(p.0.actor)
    ensures Inv(State(SaveOne(s.redis, NotificationOf(p)), s.notified + {p}))
  {
    hide FieldsOf, KeyKnown, ShowsNotification, Content;
    var s' := State(SaveOne(s.redis, NotificationOf(p)), s.notified + {p});
    PairKeysDiffer(s, p.0, p.1);
    UnknownKeyIsAbsent(s, p);
    NewPairIsStored(s.redis, p);
    forall q | q in s'.notified ensures PairStored(s'.redis, q) {
      if q != p { assert PairStored(s.redis, q); }
    }
    forall key | key in s'.redis.hashes ensures KeyKnown(s'.notified, key) {
      KeysStayKnown(s.notified, p, key);
    }
    forall user, id | user in s'.redis.index && id in s'.redis.index[user] ensures KeyKnown(s'.notified, Key(user, id)) {
      KeysStayKnown(s.notified, p, Key(user, id));
    }
  }

  lemma PairsOfPrefix(event: IssueEvent, users: seq<string>)
    requires users != []
    ensures Pairs(event, users) == Pairs(event, users[..|users| - 1]) + {(event, users[|users| - 1])}
  {
    assert users == users[..|users| - 1] + [users[|users| - 1]];
  }

  lemma StillAdmissible(s: State, event: IssueEvent, redis: Redis, users: seq<string>)
    requires Admissible(s, event)
    ensures Admissible(State(redis, s.notified + Pairs(event, users)), event)
  {
  }

  lemma SaveOfPrefix(r: Redis, event: IssueEvent, users: seq<string>, now: Time)
    requires users != [] && event.occurredAt.Some?
    ensures Save(r, NotificationsFor(event, users, now)) ==
            SaveOne(Save(r, NotificationsFor(event, users[..|users| - 1], now)), NotificationOf((event, users[|users| - 1])))
  {
    var ns := NotificationsFor(event, users, now);
    assert ns[..|ns| - 1] == NotificationsFor(event, users[..|users| - 1], now);
  }

  lemma {:induction false} SaveKeepsInv(s: State, event: IssueEvent, users: seq<string>, now: Time)
    requires Inv(s) && Admissible(s, event) && forall u :: u in users ==> u != NormalizeUserId(event.actor)
    ensures Inv(State(Save(s.redis, NotificationsFor(event, users, now)), s.notified + Pairs(event, users)))
  {
    hide Inv, Save, SaveOne, NotificationsFor, NotificationOf, Pairs, NormalizeUserId, Admissible;
    if users == [] {
      SaveNothing(s, event, now);
    } else {
      var (front, p) := (users[..|users| - 1], (event, users[|users| - 1]));
      assert forall u :: u in front ==> u in users;
      SaveKeepsInv(s, event, front, now);
      var mid := State(Save(s.redis, NotificationsFor(event, front, now)), s.notified + Pairs(event, front));
      StillAdmissible(s, event, mid.redis, front);
      assert p.1 in users;
      SaveOneMore(mid, p);
      PairsOfPrefix(event, users);
      assert mid.notified + {p} == s.notified + Pairs(event, users);
      HasTime(s, event);
      SaveOfPrefix(s.redis, event, users, now);
    }
  }

  lemma SaveNothing(s: State, event: IssueEvent, now: Time)
    ensures State(Save(s.redis, NotificationsFor(event, [], now)), s.notified + Pairs(event, [])) == s
  {
    assert s.notified + Pairs(event, []) == s.notified;
  }

  lemma HasTime(s: State, event: IssueEvent)
    requires Admissible(s, event)
    ensures event.occurredAt.Some?
  {
  }

  lemma SaveOneMore(s: State, p: (IssueEvent, string))
    requires Inv(s) && Admissible(s, p.0) && p.1 != NormalizeUserId(p.0.actor)
    ensures Inv(State(SaveOne(s.redis, NotificationOf(p)), s.notified + {p}))
  {
    hide Inv, SaveOne, NotificationOf, NormalizeUserId, Admissible;
    if p in s.notified {
      SavingAgainChangesNothing(s, p);
      assert s.notified + {p} == s.notified;
    } else {
      SaveNew(s, p);
    }
  }

  lemma SetReadKeepsInv(s: State, key: Key, at: Time)
    requires Inv(s) && key in s.redis.hashes
    ensures Inv(s.(redis := SetRead(s.redis, key, at)))
  {
    hide FieldsOf, KeyKnown, Content, NotificationOf;
    var s' := s.(redis := SetRead(s.redis, key, at));
    forall q | q in s'.notified ensures PairStored(s'.redis, q) {
      assert PairStored(s.redis, q);
      ReadTimeIsNotContent(s.redis.hashes[PairKey(q)], At(at), NotificationOf(q));
    }
  }

  lemma ReadTimeIsNotContent(hash: Hash, v: Value, n: Notification)
    requires ShowsNotification(hash, n)
    ensures ShowsNotification(hash[FReadAt := v], n)
  {
    assert hash[FReadAt := v][FReadAt := Blank] == hash[FReadAt := Blank];
  }

  lemma {:induction false} MarkAllKeepsInv(s: State, user: string, ids: seq<Digest>, at: Time)
    requires Inv(s)
    ensures Inv(s.(redis := MarkAll(s.redis, user, ids, at)))
  {
    if ids != [] {
      var n := |ids| - 1;
      MarkAllKeepsInv(s, user, ids[..n], at);
      var mid := s.(redis := MarkAll(s.redis, user, ids[..n], at));
      var key := Key(user, ids[n]);
      if key in mid.redis.hashes && !IsRead(mid.redis, key) { SetReadKeepsInv(mid, key, at); }
    }
  }

  lemma NextKeepsInv(s: State, op: Op)
    requires Inv(s) && (op.Process? && op.raw.Decoded? ==> Admissible(s, op.raw.event))
    ensures Inv(Next(s, op))
  {
    match op
    case Process(raw, env) =>
      if Handle(raw, env).1 != [] {
        forall u | u in Handle(raw, env).1 ensures u != NormalizeUserId(raw.event.actor) { NotifiedAreRecipients(raw, env, u); }
        SaveKeepsInv(s, raw.event, Handle(raw, env).1, env.now);
      } else {
        assert s.notified + {} == s.notified;
      }
    case WriteRead(user, id, at) =>
      if Key(user, id) in s.redis.hashes { SetReadKeepsInv(s, Key(user, id), at); }
    case MarkAllRead(user, ids, at) => MarkAllKeepsInv(s, user, ids, at);
  }

  /** Some processing among `ops` found `p`'s user eligible for `p`'s event and reached Redis. */
  ghost predicate FoundEligible(ops: seq<Op>, p: (IssueEvent, string)) {
    exists i :: 0 <= i < |ops| && Notifies(ops[i], p)
  }

  predicate Notifies(op: Op, p: (IssueEvent, string)) {
    op.Process? && op.raw == Decoded(p.0) && p.1 in Handle(op.raw, op.env).1
  }

  lemma {:induction false} NotifiedMeaning(ops: seq<Op>, p: (IssueEvent, string))
    ensures p in After(INITIAL, ops).notified <==> FoundEligible(ops, p)
  {
    if ops != [] {
      var front := ops[..|ops| - 1];
      NotifiedMeaning(front, p);
      if i :| 0 <= i < |front| && Notifies(front[i], p) { assert ops[i] == front[i]; }
      if i :| 0 <= i < |ops| && Notifies(ops[i], p) { assert i < |front| ==> front[i] == ops[i]; }
      NextNotifies(After(INITIAL, front), ops[|ops| - 1], p);
    }
  }

  lemma NextNotifies(s: State, op: Op, p: (IssueEvent, string))
    ensures p in Next(s, op).notified <==> p in s.notified || Notifies(op, p)
  {
  }

  /** One event id never stands for two events, and every event carries a time: each comes from one outbox row. */
  ghost predicate Consistent(ops: seq<Op>) {
    && (forall i :: 0 <= i < |ops| && IsEvent(ops[i]) ==> ops[i].raw.event.occurredAt.Some?)
    && (forall i, j :: (0 <= i < |ops| && 0 <= j < |ops| && IsEvent(ops[i]) && IsEvent(ops[j]) &&
                        ops[i].raw.event.eventId == ops[j].raw.event.eventId) ==> ops[i].raw.event == ops[j].raw.event)
  }

  predicate IsEvent(op: Op) { op.Process? && op.raw.Decoded? }

  /** Effectively once: after any records, duplicates, failures, retries and reads, Redis holds exactly one
      notification for each (event, user) that some processing found eligible and wrote, with that event's content,
      indexed under that event's time, and none for an event's own actor. */
  lemma {:induction false} ExactlyOnce(ops: seq<Op>)
    requires Consistent(ops)
    ensures Inv(After(INITIAL, ops))
    ensures forall p :: p in After(INITIAL, ops).notified <==> FoundEligible(ops, p)
  {
    hide FoundEligible, Admissible, Inv, Next;
    forall p ensures p in After(INITIAL, ops).notified <==> FoundEligible(ops, p) { NotifiedMeaning(ops, p); }
    if ops != [] {
      var (front, op) := (ops[..|ops| - 1], ops[|ops| - 1]);
      assert Consistent(front);
      ExactlyOnce(front);
      assert ops[|front|] == op;
      if IsEvent(op) { NextEventIsAdmissible(ops); }
      NextKeepsInv(After(INITIAL, front), op);
    } else {
      InitialInv();
    }
  }

  lemma InitialInv()
    ensures Inv(INITIAL)
  {
  }

  lemma NextEventIsAdmissible(ops: seq<Op>)
    requires ops != [] && Consistent(ops) && IsEvent(ops[|ops| - 1])
    ensures Admissible(After(INITIAL, ops[..|ops| - 1]), ops[|ops| - 1].raw.event)
  {
    var (front, event) := (ops[..|ops| - 1], ops[|ops| - 1].raw.event);
    var s := After(INITIAL, front);
    forall p | p in s.notified && p.0.eventId == event.eventId ensures p.0 == event {
      NotifiedMeaning(front, p);
      var i :| 0 <= i < |front| && Notifies(front[i], p);
      assert ops[i] == front[i];
    }
  }

  /** No operation makes a read notification unread, and only MarkRead can move a read time. */
  lemma NeverUnreadAgain(s: State, op: Op, key: Key)
    requires IsRead(s.redis, key)
    ensures IsRead(Next(s, op).redis, key)
    ensures !op.WriteRead? ==> Next(s, op).redis.hashes[key][FReadAt] == s.redis.hashes[key][FReadAt]
  {
    match op
    case Process(raw, env) =>
      if Handle(raw, env).1 != [] { SaveKeepsRead(s.redis, NotificationsFor(raw.event, Handle(raw, env).1, env.now), key); }
    case WriteRead(user, id, at) =>
    case MarkAllRead(user, ids, at) => MarkAllKeepsRead(s.redis, user, ids, at, key);
  }

  /** A repeated delivery leaves the store as the first left it exactly when the event carries a time, or the clock has
      not moved: without a time the index entry follows the clock. */
  lemma RedeliveryIsHarmlessExactlyWhen(r: Redis, event: IssueEvent, user: string, now: Time, now': Time)
    ensures var once := SaveOne(r, NotificationFor(event, user, now));
            SaveOne(once, NotificationFor(event, user, now')) == once <==> event.occurredAt.Some? || now == now'
  {
    var (n, n') := (NotificationFor(event, user, now), NotificationFor(event, user, now'));
    var once := SaveOne(r, n);
    var twice := SaveOne(once, n');
    var (key, id) := (Key(user, n.id), n.id);
    assert once.index[user][id] == n.createdAt && twice.index[user][id] == n'.createdAt;
    if n.createdAt == n'.createdAt {
      assert once.hashes[key] == FieldsOf(n) + HashAt(r, key);
      assert FieldsOf(n) + (FieldsOf(n) + HashAt(r, key)) == FieldsOf(n) + HashAt(r, key);
      assert once.hashes[key := once.hashes[key]] == once.hashes;
      assert once.index[user][id := n.createdAt] == once.index[user];
      assert once.index[user := once.index[user]] == once.index;
    }
  }

  lemma {:induction false} SaveKeepsRead(r: Redis, ns: seq<Notification>, key: Key)
    requires IsRead(r, key)
    ensures IsRead(Save(r, ns), key) && Save(r, ns).hashes[key][FReadAt] == r.hashes[key][FReadAt]
  {
    if ns != [] { SaveKeepsRead(r, ns[..|ns| - 1], key); }
  }

  lemma {:induction false} MarkAllKeepsRead(r: Redis, user: string, ids: seq<Digest>, at: Time, key: Key)
    requires IsRead(r, key)
    ensures IsRead(MarkAll(r, user, ids, at), key) && MarkAll(r, user, ids, at).hashes[key][FReadAt] == r.hashes[key][FReadAt]
  {
    if ids != [] { MarkAllKeepsRead(r, user, ids[..|ids| - 1], at, key); }
  }

  /** MarkAllRead gives the listed notifications that were there and unread the time of the call, and changes nothing
      else: not those read before, not those of others, not the index. */
  lemma {:induction false} MarkAllMarksExactly(r: Redis, user: string, ids: seq<Digest>, at: Time, key: Key)
    ensures key in MarkAll(r, user, ids, at).hashes <==> key in r.hashes
    ensures key in r.hashes ==>
              MarkAll(r, user, ids, at).hashes[key] ==
              if user == key.user && key.id in ids && !IsRead(r, key) then r.hashes[key][FReadAt := At(at)] else r.hashes[key]
    ensures MarkAll(r, user, ids, at).index == r.index
  {
    if ids != [] {
      var n := |ids| - 1;
      assert ids == ids[..n] + [ids[n]];
      MarkAllMarksExactly(r, user, ids[..n], at, key);
    }
  }

  /** The operation marks this notification read, if it is there. */
  predicate Marks(op: Op, key: Key) {
    match op
    case Process(_, _) => false
    case WriteRead(user, id, _) => Key(user, id) == key
    case MarkAllRead(user, ids, _) => user == key.user && key.id in ids
  }

  /** Some operation marked the notification when it was there. */
  ghost predicate WasMarked(ops: seq<Op>, key: Key) {
    exists i :: 0 <= i < |ops| && Marks(ops[i], key) && key in After(INITIAL, ops[..i]).redis.hashes
  }

  /** What the read time of the notification shows, depending on whether it was ever marked. */
  predicate ShowsMark(r: Redis, key: Key, marked: bool) {
    && (key in r.hashes ==> FReadAt in r.hashes[key])
    && (key in r.hashes && !marked ==> r.hashes[key][FReadAt] == Blank)
    && (marked ==> key in r.hashes && r.hashes[key][FReadAt].At?)
  }

  lemma SaveOneShowsMark(r: Redis, n: Notification, key: Key, marked: bool)
    requires ShowsMark(r, key, marked)
    ensures ShowsMark(SaveOne(r, n), key, marked)
  {
    assert FReadAt in FieldsOf(n) && FieldsOf(n)[FReadAt] == Blank;
    hide FieldsOf;
  }

  lemma {:induction false} SaveShowsMark(r: Redis, ns: seq<Notification>, key: Key, marked: bool)
    requires ShowsMark(r, key, marked)
    ensures ShowsMark(Save(r, ns), key, marked)
  {
    hide ShowsMark, SaveOne;
    if ns != [] {
      SaveShowsMark(r, ns[..|ns| - 1], key, marked);
      SaveOneShowsMark(Save(r, ns[..|ns| - 1]), ns[|ns| - 1], key, marked);
    }
  }

  lemma StepShowsMark(s: State, op: Op, key: Key, marked: bool)
    requires ShowsMark(s.redis, key, marked)
    ensures ShowsMark(Next(s, op).redis, key, marked || (Marks(op, key) && key in s.redis.hashes))
  {
    match op
    case Process(raw, env) =>
      if Handle(raw, env).1 != [] { SaveShowsMark(s.redis, NotificationsFor(raw.event, Handle(raw, env).1, env.now), key, marked); }
    case WriteRead(user, id, at) =>
    case MarkAllRead(user, ids, at) => MarkAllMarksExactly(s.redis, user, ids, at, key);
  }

  /** A notification is unread when it is stored, and read, with a time, from the first operation on that marks it. */
  lemma {:induction false} ReadExactlyWhenMarked(ops: seq<Op>, key: Key)
    ensures ShowsMark(After(INITIAL, ops).redis, key, WasMarked(ops, key))
    ensures IsRead(After(INITIAL, ops).redis, key) <==> WasMarked(ops, key)
  {
    hide Next, Marks, WasMarked;
    if ops != [] {
      ReadExactlyWhenMarked(ops[..|ops| - 1], key);
      MarkedLast(ops, key);
      StepShowsMark(After(INITIAL, ops[..|ops| - 1]), ops[|ops| - 1], key, WasMarked(ops[..|ops| - 1], key));
    } else {
      assert !WasMarked([], key) by { NothingMarked(key); }
    }
  }

  lemma NothingMarked(key: Key)
    ensures !WasMarked([], key)
  {
  }

  lemma MarkedLast(ops: seq<Op>, key: Key)
    requires ops != []
    ensures WasMarked(ops, key) <==>
              WasMarked(ops[..|ops| - 1], key) ||
              (Marks(ops[|ops| - 1], key) && key in After(INITIAL, ops[..|ops| - 1]).redis.hashes)
  {
    hide After, Marks;
    var front := ops[..|ops| - 1];
    assert forall i :: 0 <= i < |front| ==> front[..i] == ops[..i] && front[i] == ops[i];
  }

  lemma {:induction false} MarkAllKeepsKeys(r: Redis, user: string, ids: seq<Digest>, at: Time)
    ensures MarkAll(r, user, ids, at).hashes.Keys == r.hashes.Keys
  {
    if ids != [] { MarkAllKeepsKeys(r, user, ids[..|ids| - 1], at); }
  }

  // Duplicates

  /** Processing a record whose eligible users have all been notified already changes nothing at all. */
  lemma ReprocessingChangesNothing(s: State, raw: Raw, env: Surroundings)
    requires Inv(s)
    requires forall u :: u in Handle(raw, env).1 ==> (raw.event, u) in s.notified
    ensures Next(s, Process(raw, env)) == s
  {
    var users := Handle(raw, env).1;
    if users == [] {
      assert s.notified + {} == s.notified;
    } else {
      SaveAllAgain(s, raw.event, users, env.now);
      assert s.notified + Pairs(raw.event, users) == s.notified;
    }
  }

  lemma {:induction false} SaveAllAgain(s: State, event: IssueEvent, users: seq<string>, now: Time)
    requires Inv(s) && forall u :: u in users ==> (event, u) in s.notified
    ensures Save(s.redis, NotificationsFor(event, users, now)) == s.redis
  {
    if users != [] {
      var n := |users| - 1;
      assert users == users[..n] + [users[n]];
      SaveAllAgain(s, event, users[..n], now);
      assert (event, users[n]) in s.notified;
      assert PairStored(s.redis, (event, users[n]));
      SaveOfPrefix(s.redis, event, users, now);
      SavingAgainChangesNothing(s, (event, users[n]));
    }
  }

  /** A log processed under one fixed set of answers. */
  function Records(log: seq<Raw>, env: Surroundings): seq<Op> {
    seq(|log|, i requires 0 <= i < |log| => Process(log[i], env))
  }

  function Deduplicated(log: seq<Raw>): seq<Raw> {
    if log == [] then []
    else
      var front := Deduplicated(log[..|log| - 1]);
      if log[|log| - 1] in front then front else front + [log[|log| - 1]]
  }

  lemma {:induction false} DeduplicatedMembers(log: seq<Raw>)
    ensures forall raw :: raw in Deduplicated(log) <==> raw in log
  {
    if log != [] {
      DeduplicatedMembers(log[..|log| - 1]);
      assert log == log[..|log| - 1] + [log[|log| - 1]];
    }
  }

  /** With the access answers fixed, a log with duplicates projects to what its de-duplicated log projects to. */
  lemma {:induction false} DuplicatesDoNotShow(log: seq<Raw>, env: Surroundings)
    requires Consistent(Records(log, env))
    ensures After(INITIAL, Records(log, env)) == After(INITIAL, Records(Deduplicated(log), env))
  {
    if log != [] {
      var n := |log| - 1;
      var ops := Records(log, env);
      assert ops[..n] == Records(log[..n], env);
      assert Consistent(ops[..n]);
      DuplicatesDoNotShow(log[..n], env);
      DeduplicatedMembers(log[..n]);
      var front := Deduplicated(log[..n]);
      if log[n] in front {
        RepeatIsNoOp(log[..n], log[n], env);
      } else {
        assert Records(front + [log[n]], env)[..|front|] == Records(front, env);
      }
    }
  }

  lemma RepeatIsNoOp(log: seq<Raw>, raw: Raw, env: Surroundings)
    requires raw in log && Consistent(Records(log, env))
    ensures Next(After(INITIAL, Records(log, env)), Process(raw, env)) == After(INITIAL, Records(log, env))
  {
    var ops := Records(log, env);
    var s := After(INITIAL, ops);
    ExactlyOnce(ops);
    var i :| 0 <= i < |log| && log[i] == raw;
    forall u | u in Handle(raw, env).1 ensures (raw.event, u) in s.notified {
      assert Notifies(ops[i], (raw.event, u));
      assert FoundEligible(ops, (raw.event, u));
    }
    ReprocessingChangesNothing(s, raw, env);
  }
}
