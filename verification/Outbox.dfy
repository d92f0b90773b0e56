/** The transactional outbox and its publishers as a protocol: any number of publishers lease the heads of the
    unpublished events, send them and settle, under crashes, ambiguous sends and expired leases
    (apps/issue-service-nest/src/infrastructure/postgres-issue.repository.ts and outbox.publisher.ts). */
module Outbox {
  import opened Types
  import opened IssueDatabase

  const LEASE_SECONDS := 30
  const BATCH_LIMIT := 50
  const MAX_BACKOFF := 300

  type Rows = map<Uuid, OutboxRow>
  type Topic = seq<seq<Event>>

  // The statements of the repository

  /** The claim's WHERE clause: due, with attempts left, and no earlier unpublished event of the same issue. */
  predicate Claimable(rows: Rows, now: Time, e: Uuid) {
    && e in rows && !rows[e].published && rows[e].attempts < MAX_PUBLISH_ATTEMPTS && rows[e].nextAttemptAt <= now
    && IsHead(rows, e)
  }

  predicate IsHead(rows: Rows, e: Uuid)
    requires e in rows
  {
    forall f :: f in rows && SameIssue(rows, f, e) && rows[f].event.aggregateVersion < rows[e].event.aggregateVersion
      ==> rows[f].published
  }

  predicate SameIssue(rows: Rows, e: Uuid, f: Uuid)
    requires e in rows && f in rows
  {
    rows[e].event.aggregateId == rows[f].event.aggregateId
  }

  function Lease(rows: Rows, ids: set<Uuid>, now: Time): Rows {
    map e | e in rows :: if e in ids then rows[e].(nextAttemptAt := now + LEASE_SECONDS) else rows[e]
  }

  function MarkPublished(rows: Rows, ids: set<Uuid>): Rows {
    map e | e in rows :: if e in ids then rows[e].(published := true) else rows[e]
  }

  function Pow2(n: nat): nat { if n == 0 then 1 else 2 * Pow2(n - 1) }

  /** Seconds until the next attempt, after a failure that had `attempts` failures before it. */
  function Backoff(attempts: nat): nat {
    Min(Pow2(Min(attempts, 20)), MAX_BACKOFF)
  }

  function RecordFailure(rows: Rows, e: Uuid, now: Time): Rows {
    if e in rows
    then rows[e := rows[e].(attempts := rows[e].attempts + 1, nextAttemptAt := now + Backoff(rows[e].attempts))]
    else rows
  }

  // The protocol

  datatype Publisher =
    | Idle
    | Sending(batch: set<Uuid>, acked: set<Uuid>)
    | Failing(remaining: set<Uuid>)

  /** `claimed` is a history variable: every event ever leased. */
  datatype State = State(rows: Rows, now: Time, publishers: map<nat, Publisher>, claimed: set<Uuid>, topic: Topic)

  datatype Step =
    /** An issue transaction committed an event. */
    | Insert(row: OutboxRow)
    | Advance(to: Time)
    | Claim(p: nat, ids: set<Uuid>)
    /** The record of a send in flight reaches the log; the producer may or may not learn of it. */
    | Deliver(p: nat, e: Uuid, acked: bool)
    /** A record reaches the log after its send was given up. */
    | LateDeliver(e: Uuid)
    | Publish(p: nat)
    /** Marking failed; it may still have been committed. */
    | MarkFailed(p: nat, committed: bool)
    | SendFailed(p: nat)
    | Record(p: nat, e: Uuid)
    | Crash(p: nat)
    /** The operator's reset of abandoned events. */
    | Requeue

  /** The producer's choice of partition depends on the key alone. */
  function PartitionOf(key: Uuid, partitions: nat): nat
    requires partitions > 0
  {
    key % partitions
  }

  function Append(topic: Topic, event: Event): Topic
    requires |topic| > 0
  {
    var p := PartitionOf(event.aggregateId, |topic|);
    topic[p := topic[p] + [event]]
  }

  /** The next version of its issue, as VersionCountsWrites of module IssueHistory guarantees. */
  ghost predicate NextVersion(rows: Rows, row: OutboxRow) {
    && row.event.eventId !in rows && !row.published && row.attempts == 0 && row.event.aggregateVersion >= 1
    && (forall f :: f in rows && rows[f].event.aggregateId == row.event.aggregateId ==>
          rows[f].event.aggregateVersion < row.event.aggregateVersion)
    && (forall v :: 1 <= v < row.event.aggregateVersion ==> HasVersion(rows, row.event.aggregateId, v))
  }

  ghost predicate HasVersion(rows: Rows, a: Uuid, v: int) {
    exists f :: f in rows && rows[f].event.aggregateId == a && rows[f].event.aggregateVersion == v
  }

  function Settle(remaining: set<Uuid>): Publisher { if remaining == {} then Idle else Failing(remaining) }

  ghost predicate Enabled(s: State, step: Step) {
    match step
    case Insert(row) => NextVersion(s.rows, row)
    case Advance(to) => s.now <= to
    case Claim(p, ids) =>
      p in s.publishers && s.publishers[p] == Idle && |ids| <= BATCH_LIMIT && forall e :: e in ids ==> Claimable(s.rows, s.now, e)
    case Deliver(p, e, _) => p in s.publishers && s.publishers[p].Sending? && e in s.publishers[p].batch
    case LateDeliver(e) => e in s.claimed
    case Publish(p) => p in s.publishers && s.publishers[p].Sending? && s.publishers[p].acked == s.publishers[p].batch
    case MarkFailed(p, _) => p in s.publishers && s.publishers[p].Sending? && s.publishers[p].acked == s.publishers[p].batch
    case SendFailed(p) => p in s.publishers && s.publishers[p].Sending?
    case Record(p, e) => p in s.publishers && s.publishers[p].Failing? && e in s.publishers[p].remaining
    case Crash(p) => p in s.publishers
    case Requeue => true
  }

  function Next(s: State, step: Step): State
    requires |s.topic| > 0 && Keyed(s) && Enabled(s, step)
  {
    match step
    case Insert(row) => s.(rows := s.rows[row.event.eventId := row])
    case Advance(to) => s.(now := to)
    case Claim(p, ids) =>
      s.(rows := Lease(s.rows, ids, s.now), publishers := s.publishers[p := if ids == {} then Idle else Sending(ids, {})], claimed := s.claimed + ids)
    case Deliver(p, e, acked) =>
      var batch := s.publishers[p];
      s.(topic := Append(s.topic, s.rows[e].event),
         publishers := if acked then s.publishers[p := batch.(acked := batch.acked + {e})] else s.publishers)
    case LateDeliver(e) => s.(topic := Append(s.topic, s.rows[e].event))
    case Publish(p) => s.(rows := MarkPublished(s.rows, s.publishers[p].batch), publishers := s.publishers[p := Idle])
    case MarkFailed(p, committed) =>
      s.(rows := if committed then MarkPublished(s.rows, s.publishers[p].batch) else s.rows,
         publishers := s.publishers[p := Settle(s.publishers[p].batch)])
    case SendFailed(p) => s.(publishers := s.publishers[p := Settle(s.publishers[p].batch)])
    case Record(p, e) =>
      s.(rows := RecordFailure(s.rows, e, s.now), publishers := s.publishers[p := Settle(s.publishers[p].remaining - {e})])
    case Crash(p) => s.(publishers := s.publishers[p := Idle])
    case Requeue =>
      s.(rows := map e | e in s.rows ::
           if !s.rows[e].published && s.rows[e].attempts >= MAX_PUBLISH_ATTEMPTS
           then s.rows[e].(attempts := 0, nextAttemptAt := s.now) else s.rows[e])
  }

  /** Every event a publisher holds, or has held, is a row. */
  ghost predicate Keyed(s: State) {
    && s.claimed <= s.rows.Keys
    && (forall p :: p in s.publishers ==> Held(s.publishers[p]) <= s.claimed)
  }

  function Held(p: Publisher): set<Uuid> {
    match p
    case Idle => {}
    case Sending(batch, _) => batch
    case Failing(remaining) => remaining
  }

  // The invariant

  /** Row `e` carries its own id; issue and version determine it; the earlier versions of its issue have rows. */
  ghost predicate RowInv(rows: Rows, e: Uuid)
    requires e in rows
  {
    var event := rows[e].event;
    && event.eventId == e && event.aggregateVersion >= 1
    && (forall f :: f in rows && SameIssue(rows, f, e) && rows[f].event.aggregateVersion == event.aggregateVersion ==> f == e)
    && (forall v :: 1 <= v < event.aggregateVersion ==> HasVersion(rows, event.aggregateId, v))
  }

  ghost predicate RowsInv(rows: Rows) { forall e :: e in rows ==> RowInv(rows, e) }

  function LogOf(topic: Topic, a: Uuid): seq<Event>
    requires |topic| > 0
  {
    topic[PartitionOf(a, |topic|)]
  }

  /** Everything published is in the log of its key. */
  ghost predicate PublishedInLog(s: State)
    requires |s.topic| > 0
  {
    forall e :: e in s.rows && s.rows[e].published ==> s.rows[e].event in LogOf(s.topic, s.rows[e].event.aggregateId)
  }

  ghost predicate ClaimsAreHeads(s: State) {
    forall e :: e in s.claimed ==> e in s.rows && IsHead(s.rows, e)
  }

  /** Record `i` of a partition repeats a claimed row's event, in the partition of its key, and every earlier version
      of its issue stands before it. */
  ghost predicate RecordInv(s: State, p: nat, i: nat)
    requires p < |s.topic| && i < |s.topic[p]|
  {
    var event := s.topic[p][i];
    && event.eventId in s.claimed && event.eventId in s.rows && s.rows[event.eventId].event == event
    && p == PartitionOf(event.aggregateId, |s.topic|)
    && forall f ::
         (f in s.rows && s.rows[f].event.aggregateId == event.aggregateId && s.rows[f].event.aggregateVersion < event.aggregateVersion)
         ==> s.rows[f].event in s.topic[p][..i]
  }

  ghost predicate LogInv(s: State) {
    forall p: nat, i: nat :: p < |s.topic| && i < |s.topic[p]| ==> RecordInv(s, p, i)
  }

  ghost predicate AcksInv(s: State)
    requires |s.topic| > 0
  {
    forall p :: p in s.publishers && s.publishers[p].Sending? ==>
      forall e :: e in s.publishers[p].acked ==> e in s.rows && s.rows[e].event in LogOf(s.topic, s.rows[e].event.aggregateId)
  }

  ghost predicate Inv(s: State) {
    |s.topic| > 0 && Keyed(s) && RowsInv(s.rows) && PublishedInLog(s) && ClaimsAreHeads(s) && LogInv(s) && AcksInv(s)
  }

  /** Rows keep their events, and stay published once they are. */
  ghost predicate RowsAdvance(rows: Rows, rows': Rows) {
    && rows'.Keys == rows.Keys
    && forall e :: e in rows ==> rows'[e].event == rows[e].event && (rows[e].published ==> rows'[e].published)
  }

  lemma RowsKeepInv(rows: Rows, rows': Rows)
    requires RowsInv(rows) && RowsAdvance(rows, rows')
    ensures RowsInv(rows')
    ensures forall e :: e in rows && IsHead(rows, e) ==> IsHead(rows', e)
  {
    forall e | e in rows' ensures RowInv(rows', e) {
      assert RowInv(rows, e);
      forall v | 1 <= v < rows[e].event.aggregateVersion ensures HasVersion(rows', rows[e].event.aggregateId, v) {
        assert HasVersion(rows, rows[e].event.aggregateId, v);
      }
    }
  }

  /** Steps that write rows but add none, and do not touch the log. */
  lemma WriteKeepsInv(s: State, s': State)
    requires Inv(s) && RowsAdvance(s.rows, s'.rows)
    requires s'.topic == s.topic && Keyed(s') && s.claimed <= s'.claimed
    requires forall e :: e in s'.claimed - s.claimed ==> e in s.rows && IsHead(s.rows, e)
    requires forall e :: e in s'.rows && s'.rows[e].published && !s.rows[e].published ==>
               s.rows[e].event in LogOf(s.topic, s.rows[e].event.aggregateId)
    requires AcksInv(s')
    ensures Inv(s')
  {
    RowsKeepInv(s.rows, s'.rows);
    forall p: nat, i: nat | p < |s'.topic| && i < |s'.topic[p]| ensures RecordInv(s', p, i) {
      assert RecordInv(s, p, i);
    }
  }

  lemma InsertKeepsRows(rows: Rows, row: OutboxRow)
    requires RowsInv(rows) && NextVersion(rows, row)
    ensures RowsInv(rows[row.event.eventId := row])
  {
    var rows' := rows[row.event.eventId := row];
    forall e | e in rows' ensures RowInv(rows', e) {
      if e != row.event.eventId { assert RowInv(rows, e); }
      forall v | 1 <= v < rows'[e].event.aggregateVersion ensures HasVersion(rows', rows'[e].event.aggregateId, v) {
        assert HasVersion(rows, rows'[e].event.aggregateId, v);
        var f :| f in rows && rows[f].event.aggregateId == rows'[e].event.aggregateId && rows[f].event.aggregateVersion == v;
        assert f in rows' && rows'[f] == rows[f];
      }
    }
  }

  lemma InsertKeepsInv(s: State, row: OutboxRow)
    requires Inv(s) && NextVersion(s.rows, row)
    ensures Inv(s.(rows := s.rows[row.event.eventId := row]))
  {
    hide RowsInv, HasVersion;
    var s' := s.(rows := s.rows[row.event.eventId := row]);
    InsertKeepsRows(s.rows, row);
    forall e | e in s'.claimed ensures e in s'.rows && IsHead(s'.rows, e) {
      assert e in s.rows && IsHead(s.rows, e);
    }
    forall p: nat, i: nat | p < |s'.topic| && i < |s'.topic[p]| ensures RecordInv(s', p, i) {
      assert RecordInv(s, p, i);
      assert s.topic[p][i].eventId in s.claimed;
    }
  }

  lemma AppendKeepsInv(s: State, e: Uuid, publishers: map<nat, Publisher>)
    requires Inv(s) && e in s.claimed
    requires Keyed(s.(publishers := publishers))
    requires forall p :: p in publishers && publishers[p].Sending? ==>
               p in s.publishers && s.publishers[p].Sending? && publishers[p].acked <= s.publishers[p].acked + {e}
    ensures Inv(s.(topic := Append(s.topic, s.rows[e].event), publishers := publishers))
  {
    var event := s.rows[e].event;
    var s' := s.(topic := Append(s.topic, event), publishers := publishers);
    var q := PartitionOf(event.aggregateId, |s.topic|);
    assert RowInv(s.rows, e) && IsHead(s.rows, e);
    forall p: nat, i: nat | p < |s'.topic| && i < |s'.topic[p]| ensures RecordInv(s', p, i) {
      if i < |s.topic[p]| {
        assert RecordInv(s, p, i);
        assert s'.topic[p][..i] == s.topic[p][..i];
      } else {
        assert p == q && s'.topic[p][..i] == s.topic[p];
      }
    }
    forall a ensures LogOf(s.topic, a) <= LogOf(s'.topic, a) { }
  }

  lemma LeaseKeepsInv(s: State, ids: set<Uuid>)
    requires Inv(s) && forall e :: e in ids ==> e in s.rows && IsHead(s.rows, e)
    ensures Inv(s.(rows := Lease(s.rows, ids, s.now), claimed := s.claimed + ids))
  {
    WriteKeepsInv(s, s.(rows := Lease(s.rows, ids, s.now), claimed := s.claimed + ids));
  }

  lemma TakeKeepsInv(s: State, p: nat, ids: set<Uuid>)
    requires Inv(s) && ids <= s.claimed
    ensures Inv(s.(publishers := s.publishers[p := if ids == {} then Idle else Sending(ids, {})]))
  {
    WriteKeepsInv(s, s.(publishers := s.publishers[p := if ids == {} then Idle else Sending(ids, {})]));
  }

  lemma ClaimKeepsInv(s: State, p: nat, ids: set<Uuid>)
    requires Inv(s) && Enabled(s, Claim(p, ids))
    ensures Inv(Next(s, Claim(p, ids)))
  {
    LeaseKeepsInv(s, ids);
    TakeKeepsInv(s.(rows := Lease(s.rows, ids, s.now), claimed := s.claimed + ids), p, ids);
  }

  lemma DeliverKeepsInv(s: State, p: nat, e: Uuid, acked: bool)
    requires Inv(s) && Enabled(s, Deliver(p, e, acked))
    ensures Inv(Next(s, Deliver(p, e, acked)))
  {
    AppendKeepsInv(s, e, Next(s, Deliver(p, e, acked)).publishers);
  }

  /** Marking follows the acknowledgement of every send, so what it marks is in the log. */
  lemma MarkKeepsInv(s: State, p: nat, after: Publisher)
    requires Inv(s) && Enabled(s, Publish(p)) && Held(after) <= s.publishers[p].batch && !after.Sending?
    ensures Inv(s.(rows := MarkPublished(s.rows, s.publishers[p].batch), publishers := s.publishers[p := after]))
  {
    WriteKeepsInv(s, s.(rows := MarkPublished(s.rows, s.publishers[p].batch), publishers := s.publishers[p := after]));
  }

  lemma ReleaseKeepsInv(s: State, p: nat, after: Publisher)
    requires Inv(s) && p in s.publishers && Held(after) <= Held(s.publishers[p]) && !after.Sending?
    ensures Inv(s.(publishers := s.publishers[p := after]))
  {
    WriteKeepsInv(s, s.(publishers := s.publishers[p := after]));
  }

  lemma RewriteKeepsInv(s: State, rows: Rows)
    requires Inv(s) && RowsAdvance(s.rows, rows)
    requires forall e :: e in rows && rows[e].published ==> s.rows[e].published
    ensures Inv(s.(rows := rows))
  {
    WriteKeepsInv(s, s.(rows := rows));
  }

  lemma AdvanceKeepsInv(s: State, to: Time)
    requires Inv(s)
    ensures Inv(s.(now := to))
  {
    WriteKeepsInv(s, s.(now := to));
  }

  lemma NextKeepsInv(s: State, step: Step)
    requires Inv(s) && Enabled(s, step)
    ensures Inv(Next(s, step)) && |Next(s, step).topic| == |s.topic|
  {
    hide RowsInv, PublishedInLog, ClaimsAreHeads, LogInv, AcksInv, NextVersion, Claimable;
    match step
    case Insert(row) => InsertKeepsInv(s, row);
    case Advance(to) => AdvanceKeepsInv(s, to);
    case Claim(p, ids) => ClaimKeepsInv(s, p, ids);
    case Deliver(p, e, acked) => DeliverKeepsInv(s, p, e, acked);
    case LateDeliver(e) => AppendKeepsInv(s, e, s.publishers);
    case Publish(p) => MarkKeepsInv(s, p, Idle);
    case MarkFailed(p, committed) =>
      if committed { MarkKeepsInv(s, p, Settle(s.publishers[p].batch)); } else { ReleaseKeepsInv(s, p, Settle(s.publishers[p].batch)); }
    case SendFailed(p) => ReleaseKeepsInv(s, p, Settle(s.publishers[p].batch));
    case Record(p, e) =>
      ReleaseKeepsInv(s, p, Settle(s.publishers[p].remaining - {e}));
      RewriteKeepsInv(s.(publishers := s.publishers[p := Settle(s.publishers[p].remaining - {e})]), RecordFailure(s.rows, e, s.now));
    case Crash(p) => ReleaseKeepsInv(s, p, Idle);
    case Requeue => RewriteKeepsInv(s, Next(s, step).rows);
  }
}
