/** The publisher as code: one poll of one replica, statement by statement, while the other replicas, the issue
    service, the clock and the network act in between (apps/issue-service-nest/src/infrastructure/outbox.publisher.ts). */
module OutboxPublisher {
  import opened Types
  import opened IssueDatabase
  import opened Outbox
  import opened OutboxRuns

  /** Delivered and acknowledged, delivered but reported as failed, or never written. */
  datatype SendOutcome = Delivered | RejectedAfterWrite | Rejected

  datatype ClaimOutcome = Claimed | ClaimedButErrored | NotClaimed

  datatype MarkOutcome = Marked | MarkedButErrored | NotMarked

  function IdsOf(events: seq<Event>): set<Uuid> { set i | 0 <= i < |events| :: events[i].eventId }

  function Due(rows: Rows, now: Time, locked: set<Uuid>): set<Uuid> {
    set e | e in rows && Claimable(rows, now, e) && e !in locked
  }

  /** `events` are the events of distinct rows, those of `due` not in `left`, oldest first and none younger than any left. */
  ghost predicate Picked(rows: Rows, due: set<Uuid>, left: set<Uuid>, events: seq<Event>) {
    && left <= due <= rows.Keys && IdsOf(events) == due - left && |events| == |due - left|
    && (forall i :: 0 <= i < |events| ==> events[i].eventId in rows && events[i] == rows[events[i].eventId].event)
    && (forall i, j :: 0 <= i < j < |events| ==>
          events[i].eventId != events[j].eventId && events[i].occurredAt <= events[j].occurredAt)
    && (forall e, i :: e in left && 0 <= i < |events| ==> events[i].occurredAt <= rows[e].event.occurredAt)
  }

  lemma IdsOfAppend(events: seq<Event>, event: Event)
    ensures IdsOf(events + [event]) == IdsOf(events) + {event.eventId}
  {
    var more := events + [event];
    assert more[|events|] == event;
    forall i | 0 <= i < |events| ensures more[i] == events[i] { }
  }

  lemma IdIn(events: seq<Event>, i: nat)
    requires i < |events|
    ensures events[i].eventId in IdsOf(events)
  {
  }

  lemma PickOne(rows: Rows, due: set<Uuid>, left: set<Uuid>, events: seq<Event>, e: Uuid)
    requires Picked(rows, due, left, events) && e in left && rows[e].event.eventId == e
    requires forall f :: f in left ==> rows[e].event.occurredAt <= rows[f].event.occurredAt
    ensures Picked(rows, due, left - {e}, events + [rows[e].event])
  {
    hide IdsOf;
    IdsOfAppend(events, rows[e].event);
    forall i | 0 <= i < |events| ensures events[i].eventId in IdsOf(events) { IdIn(events, i); }
    assert due - (left - {e}) == (due - left) + {e};
  }

  lemma NothingPicked(rows: Rows, due: set<Uuid>)
    requires due <= rows.Keys
    ensures Picked(rows, due, due, [])
  {
  }

  lemma PickedLeft(rows: Rows, due: set<Uuid>, left: set<Uuid>, events: seq<Event>)
    requires Picked(rows, due, left, events)
    ensures left <= due <= rows.Keys && left == due - IdsOf(events) && |events| == |due - left| <= |due|
    ensures left == {} ==> |events| == |due|
    ensures left != {} ==> |events| < |due|
  {
    assert due == (due - left) + left;
  }

  /** The rows a claim takes: the oldest of those due, as many as the limit allows. */
  ghost predicate Selection(rows: Rows, due: set<Uuid>, limit: nat, events: seq<Event>) {
    Picked(rows, due, due - IdsOf(events), events) && |events| == Min(limit, |due|)
  }

  predicate DistinctIds(events: seq<Event>) {
    forall i, j :: 0 <= i < j < |events| ==> events[i].eventId != events[j].eventId
  }

  /** The row may be claimed by a publisher that finds these rows locked by others. */
  predicate Free(rows: Rows, now: Time, locked: set<Uuid>, e: Uuid) { Claimable(rows, now, e) && e !in locked }

  /** The claim takes events that are free, each once and the oldest first, no more than the limit; and if it leaves any
      free event, it has taken as many as the limit allows, and none younger than that one. */
  ghost predicate OldestFirst(rows: Rows, now: Time, locked: set<Uuid>, limit: nat, events: seq<Event>) {
    && |events| <= limit && DistinctIds(events)
    && (forall i :: 0 <= i < |events| ==> Free(rows, now, locked, events[i].eventId) && rows[events[i].eventId].event == events[i])
    && (forall i, j :: 0 <= i < j < |events| ==> events[i].occurredAt <= events[j].occurredAt)
    && (forall e :: Free(rows, now, locked, e) && e !in IdsOf(events) ==>
          |events| == limit && forall i :: 0 <= i < |events| ==> events[i].occurredAt <= rows[e].event.occurredAt)
  }

  lemma SelectionIsOldestFirst(rows: Rows, now: Time, locked: set<Uuid>, limit: nat, events: seq<Event>)
    requires Selection(rows, Due(rows, now, locked), limit, events)
    ensures OldestFirst(rows, now, locked, limit, events)
  {
    hide IsHead;
    var due := Due(rows, now, locked);
    var left := due - IdsOf(events);
    PickedLeft(rows, due, left, events);
    forall i | 0 <= i < |events| ensures Free(rows, now, locked, events[i].eventId) {
      IdIn(events, i);
      assert events[i].eventId in due - left;
    }
    forall e | Free(rows, now, locked, e) && e !in IdsOf(events)
      ensures |events| == limit && forall i :: 0 <= i < |events| ==> events[i].occurredAt <= rows[e].event.occurredAt
    {
      FreeIsDue(rows, now, locked, e);
      assert e in left;
    }
  }

  lemma LeaseMeans(rows: Rows, ids: set<Uuid>, now: Time)
    ensures Lease(rows, ids, now).Keys == rows.Keys
    ensures forall e :: e in rows ==>
              Lease(rows, ids, now)[e] == rows[e].(nextAttemptAt := if e in ids then now + 30 else rows[e].nextAttemptAt)
  {
  }

  lemma FreeIsDue(rows: Rows, now: Time, locked: set<Uuid>, e: Uuid)
    requires Free(rows, now, locked, e)
    ensures e in Due(rows, now, locked)
  {
  }

  lemma SelectedRows(rows: Rows, due: set<Uuid>, limit: nat, events: seq<Event>)
    requires Selection(rows, due, limit, events)
    ensures DistinctIds(events)
    ensures forall i :: 0 <= i < |events| ==> events[i].eventId in rows && rows[events[i].eventId].event == events[i]
  {
  }

  lemma DueRowsAreKeyed(s: State, due: set<Uuid>)
    requires Inv(s) && due <= s.rows.Keys
    ensures forall e :: e in due ==> s.rows[e].event.eventId == e
  {
    forall e | e in due ensures s.rows[e].event.eventId == e { assert RowInv(s.rows, e); }
  }

  lemma SelectionIsClaim(s: State, p: nat, due: set<Uuid>, limit: nat, events: seq<Event>)
    requires Inv(s) && p in s.publishers && s.publishers[p] == Idle && limit <= BATCH_LIMIT
    requires Selection(s.rows, due, limit, events) && forall e :: e in due ==> Claimable(s.rows, s.now, e)
    ensures Enabled(s, Claim(p, IdsOf(events)))
  {
  }

  /** The table and the topic that the replicas share. `trace` records every step taken since `origin`. */
  class Shared {
    var rows: Rows
    var now: Time
    var topic: Topic
    ghost var publishers: map<nat, Publisher>
    ghost var claimed: set<Uuid>
    ghost var origin: State
    ghost var trace: seq<Step>

    ghost function View(): State
      reads this
    {
      State(rows, now, publishers, claimed, topic)
    }

    ghost predicate Valid()
      reads this
    {
      Inv(origin) && Executable(origin, trace) && View() == After(origin, trace)
    }

    /** The state after one more step. */
    ghost predicate Took(before: State, steps: seq<Step>, step: Step)
      reads this
    {
      Valid() && Inv(before) && Enabled(before, step) && View() == Next(before, step) && trace == steps + [step]
    }

    /** After the first `steps` of the trace, publisher `p` claimed `events`: the oldest heads that were due then, as many
        as a batch may hold, rows locked by others left aside. */
    ghost predicate ClaimedAfter(steps: seq<Step>, p: nat, locked: set<Uuid>, events: seq<Event>)
      reads this
    {
      Inv(origin) && Executable(origin, steps) && steps + [Claim(p, IdsOf(events))] <= trace &&
      var s := After(origin, steps);
      OldestFirst(s.rows, s.now, locked, BATCH_LIMIT, events)
    }

    lemma Extend(before: State, steps: seq<Step>, step: Step)
      requires Inv(origin) && Executable(origin, steps) && before == After(origin, steps)
      requires Enabled(before, step) && View() == Next(before, step) && trace == steps + [step]
      ensures Took(before, steps, step)
    {
      NextKeepsInv(before, step);
      assert [step][1..] == [];
      RunsConcatenate(origin, steps, [step]);
    }

    /** Whatever anybody but publisher `p` may do now: callers learn only that it is a run of the protocol. */
    method Interfere(ghost p: nat)
      requires Valid()
      modifies this
      ensures Valid() && origin == old(origin) && old(trace) <= trace
      ensures p in old(publishers) ==> p in publishers && publishers[p] == old(publishers)[p]
      ensures StepsBy(trace, p) == StepsBy(old(trace), p)
      ensures forall e :: e in old(rows) ==> e in rows && rows[e].event == old(rows)[e].event
    {
    }

    /** claimPendingEvents: the due heads, oldest first, skipping rows other claims have locked. */
    method ClaimPendingEvents(ghost p: nat, limit: nat, locked: set<Uuid>) returns (events: seq<Event>)
      requires Valid() && limit <= BATCH_LIMIT && p in publishers && publishers[p] == Idle
      modifies this
      ensures Took(old(View()), old(trace), Claim(p, IdsOf(events))) && origin == old(origin)
      ensures Selection(old(rows), Due(old(rows), old(now), locked), limit, events)
      ensures OldestFirst(old(rows), old(now), locked, limit, events)
      ensures rows == Lease(old(rows), IdsOf(events), old(now)) && p in publishers
      ensures rows.Keys == old(rows).Keys && forall e :: e in rows ==>
                rows[e] == old(rows)[e].(nextAttemptAt := if e in IdsOf(events) then now + 30 else old(rows)[e].nextAttemptAt)
      ensures publishers[p] == if IdsOf(events) == {} then Idle else Sending(IdsOf(events), {})
    {
      hide Selection, OldestFirst, Lease, Claimable, IdsOf, RowsInv, PublishedInLog, ClaimsAreHeads, LogInv, AcksInv;
      ghost var (before, steps) := (View(), trace);
      var due := Due(rows, now, locked);
      DueRowsAreKeyed(before, due);
      events := SelectOldest(due, limit);
      SelectionIsClaim(before, p, due, limit, events);
      SelectionIsOldestFirst(rows, now, locked, limit, events);
      LeaseMeans(rows, IdsOf(events), now);
      rows := Lease(rows, IdsOf(events), now);
      publishers := publishers[p := if IdsOf(events) == {} then Idle else Sending(IdsOf(events), {})];
      claimed := claimed + IdsOf(events);
      trace := trace + [Claim(p, IdsOf(events))];
      Extend(before, steps, Claim(p, IdsOf(events)));
    }

    /** ORDER BY occurred_at LIMIT over the rows that are due. */
    method SelectOldest(due: set<Uuid>, limit: nat) returns (events: seq<Event>)
      requires due <= rows.Keys && forall e :: e in due ==> rows[e].event.eventId == e
      ensures Selection(rows, due, limit, events)
    {
      hide IdsOf, Picked;
      var left := due;
      events := [];
      NothingPicked(rows, due);
      while |events| < limit && left != {}
        invariant Picked(rows, due, left, events) && |events| <= limit
        invariant left <= due
        decreases |left|
      {
        PickedLeft(rows, due, left, events);
        var e := Oldest(left);
        PickOne(rows, due, left, events, e);
        events, left := events + [rows[e].event], left - {e};
      }
      PickedLeft(rows, due, left, events);
    }

    method Oldest(ids: set<Uuid>) returns (oldest: Uuid)
      requires ids != {} && ids <= rows.Keys
      ensures oldest in ids && forall e :: e in ids ==> rows[oldest].event.occurredAt <= rows[e].event.occurredAt
    {
      oldest :| oldest in ids;
      var rest := ids - {oldest};
      while rest != {}
        invariant oldest in ids && rest <= ids
        invariant forall e :: e in ids - rest ==> rows[oldest].event.occurredAt <= rows[e].event.occurredAt
        decreases |rest|
      {
        var e :| e in rest;
        if rows[e].event.occurredAt < rows[oldest].event.occurredAt { oldest := e; }
        rest := rest - {e};
      }
    }

    method Send(ghost p: nat, event: Event, outcome: SendOutcome) returns (ok: bool)
      requires Valid() && p in publishers && publishers[p].Sending? && event.eventId in publishers[p].batch
      requires event.eventId in rows && rows[event.eventId].event == event
      modifies this
      ensures ok <==> outcome == Delivered
      ensures outcome == Rejected ==> Valid() && View() == old(View()) && trace == old(trace)
      ensures outcome != Rejected ==> Took(old(View()), old(trace), Deliver(p, event.eventId, ok))
      ensures origin == old(origin) && rows == old(rows) && p in publishers
      ensures publishers[p] == if ok then old(publishers)[p].(acked := old(publishers)[p].acked + {event.eventId}) else old(publishers)[p]
    {
      ghost var (before, steps) := (View(), trace);
      if outcome == Rejected { return false; }
      topic := Append(topic, event);
      ok := outcome == Delivered;
      if ok { publishers := publishers[p := publishers[p].(acked := publishers[p].acked + {event.eventId})]; }
      trace := trace + [Deliver(p, event.eventId, ok)];
      Extend(before, steps, Deliver(p, event.eventId, ok));
    }

    method MarkEventsPublished(ghost p: nat, events: seq<Event>, outcome: MarkOutcome) returns (ok: bool)
      requires Valid() && p in publishers && publishers[p] == Sending(IdsOf(events), IdsOf(events))
      modifies this
      ensures ok <==> outcome == Marked
      ensures Took(old(View()), old(trace), if ok then Publish(p) else MarkFailed(p, outcome == MarkedButErrored))
      ensures origin == old(origin) && p in publishers && publishers[p] == if ok then Idle else Settle(IdsOf(events))
      ensures rows.Keys == old(rows).Keys && forall e :: e in rows ==>
                rows[e] == old(rows)[e].(published := old(rows)[e].published || (e in IdsOf(events) && outcome != NotMarked))
    {
      ghost var (before, steps) := (View(), trace);
      if outcome != NotMarked { rows := MarkPublished(rows, IdsOf(events)); }
      ok := outcome == Marked;
      publishers := publishers[p := if ok then Idle else Settle(IdsOf(events))];
      ghost var step := if ok then Publish(p) else MarkFailed(p, outcome == MarkedButErrored);
      trace := trace + [step];
      Extend(before, steps, step);
    }

    method RecordPublishFailure(ghost p: nat, e: Uuid) returns (attempts: nat, abandoned: bool)
      requires Valid() && p in publishers && publishers[p].Failing? && e in publishers[p].remaining
      modifies this
      ensures Took(old(View()), old(trace), Record(p, e)) && origin == old(origin)
      ensures p in publishers && publishers[p] == Settle(old(publishers)[p].remaining - {e})
      ensures e in rows && attempts == rows[e].attempts > 0 && (abandoned <==> attempts >= MAX_PUBLISH_ATTEMPTS)
      ensures e in old(rows) && rows - {e} == old(rows) - {e}
      ensures rows[e] == old(rows)[e].(attempts := old(rows)[e].attempts + 1, nextAttemptAt := now + Backoff(old(rows)[e].attempts))
    {
      ghost var (before, steps) := (View(), trace);
      rows := RecordFailure(rows, e, now);
      attempts := rows[e].attempts;
      abandoned := attempts >= MAX_PUBLISH_ATTEMPTS;
      publishers := publishers[p := Settle(publishers[p].remaining - {e})];
      trace := trace + [Record(p, e)];
      Extend(before, steps, Record(p, e));
    }

    /** A ghost move of publisher `p` that writes nothing: a failed send, or giving up. */
    ghost method Leave(p: nat, step: Step)
      requires Valid() && p in publishers && ((step == SendFailed(p) && publishers[p].Sending?) || step == Crash(p))
      modifies this`publishers, this`trace
      ensures Took(old(View()), old(trace), step) && origin == old(origin)
      ensures p in publishers && publishers[p] == if step.Crash? then Idle else Settle(old(publishers)[p].batch)
    {
      ghost var (before, steps) := (View(), trace);
      publishers := publishers[p := if step.Crash? then Idle else Settle(publishers[p].batch)];
      trace := trace + [step];
      Extend(before, steps, step);
    }
  }

  // One poll

  /** How one poll fares: whether the producer connects, how the claim, each send and the mark end, how many failure
      records are confirmed before the database stops answering, and whether one more is then committed unconfirmed. */
  datatype Fortune = Fortune(
    connects: bool, claim: ClaimOutcome, locked: set<Uuid>, sends: Uuid -> SendOutcome, mark: MarkOutcome,
    records: nat, oneMore: bool)

  predicate AllDelivered(events: seq<Event>, sends: Uuid -> SendOutcome) {
    forall i :: 0 <= i < |events| ==> sends(events[i].eventId) == Delivered
  }

  function SendSteps(p: nat, events: seq<Event>, sends: Uuid -> SendOutcome): seq<Step> {
    if events == [] then []
    else
      var e := events[|events| - 1].eventId;
      SendSteps(p, events[..|events| - 1], sends) + SendStep(p, e, sends(e))
  }

  function SendStep(p: nat, e: Uuid, outcome: SendOutcome): seq<Step> {
    match outcome
    case Delivered => [Deliver(p, e, true)]
    case RejectedAfterWrite => [Deliver(p, e, false)]
    case Rejected => []
  }

  lemma PrefixGrows(events: seq<Event>, i: nat, p: nat, sends: Uuid -> SendOutcome)
    requires i < |events|
    ensures SendSteps(p, events[..i + 1], sends) ==
            SendSteps(p, events[..i], sends) + SendStep(p, events[i].eventId, sends(events[i].eventId))
    ensures RecordSteps(p, events[..i + 1]) == RecordSteps(p, events[..i]) + [Record(p, events[i].eventId)]
    ensures AllDelivered(events[..i + 1], sends) <==> AllDelivered(events[..i], sends) && sends(events[i].eventId) == Delivered
    ensures IdsOf(events[..i + 1]) == IdsOf(events[..i]) + {events[i].eventId} && events[i].eventId in IdsOf(events)
  {
    var more := events[..i + 1];
    assert more == events[..i] + [events[i]] && more[..i] == events[..i];
    IdsOfAppend(events[..i], events[i]);
    assert more[i] == events[i] && forall k :: 0 <= k < i ==> more[k] == events[..i][k];
  }

  function RecordSteps(p: nat, events: seq<Event>): seq<Step> {
    if events == [] then []
    else RecordSteps(p, events[..|events| - 1]) + [Record(p, events[|events| - 1].eventId)]
  }

  /** After a failure every row of the batch gets a failure record, unless the database stops answering. */
  function FailureSteps(p: nat, events: seq<Event>, luck: Fortune): seq<Step> {
    if luck.records < |events|
    then RecordSteps(p, events[..if luck.oneMore then luck.records + 1 else luck.records]) + [Crash(p)]
    else RecordSteps(p, events)
  }

  /** Either one mark of the whole batch, or a failure record for every event of it. */
  function SettleSteps(p: nat, events: seq<Event>, luck: Fortune): seq<Step> {
    if !AllDelivered(events, luck.sends) then [SendFailed(p)] + FailureSteps(p, events, luck)
    else if luck.mark == Marked then [Publish(p)]
    else [MarkFailed(p, luck.mark == MarkedButErrored)] + FailureSteps(p, events, luck)
  }

  /** The steps of one poll that claimed `events`: at most one record written per event, then the settlement. A poll that
      does not learn what it claimed sends nothing. */
  function PollSteps(p: nat, events: seq<Event>, luck: Fortune): seq<Step> {
    [Claim(p, IdsOf(events))] +
    (if luck.claim == ClaimedButErrored then [Crash(p)]
     else if events == [] then []
     else SendSteps(p, events, luck.sends) + SettleSteps(p, events, luck))
  }

  /** The claim of a poll reaches the table. */
  predicate ReachesTable(running: bool, connected: bool, luck: Fortune) {
    !running && (connected || luck.connects) && luck.claim != NotClaimed
  }

  lemma {:induction false} SendsAre(p: nat, events: seq<Event>, sends: Uuid -> SendOutcome, step: Step)
    ensures step in SendSteps(p, events, sends) <==>
              step.Deliver? && step.p == p &&
              exists i :: 0 <= i < |events| && events[i].eventId == step.e && sends(step.e) == if step.acked then Delivered else RejectedAfterWrite
  {
    if events != [] {
      var n := |events| - 1;
      SendsAre(p, events[..n], sends, step);
      assert events[n].eventId == events[|events| - 1].eventId;
      assert forall i :: 0 <= i < n ==> events[..n][i] == events[i];
    }
  }

  lemma {:induction false} RecordsAre(p: nat, events: seq<Event>, step: Step)
    ensures step in RecordSteps(p, events) <==>
              step.Record? && step.p == p && exists i :: 0 <= i < |events| && events[i].eventId == step.e
  {
    if events != [] {
      var n := |events| - 1;
      RecordsAre(p, events[..n], step);
      assert events[n].eventId == events[|events| - 1].eventId;
      assert forall i :: 0 <= i < n ==> events[..n][i] == events[i];
    }
  }

  /** The send failed for some event of the batch, or marking it did. */
  predicate Fails(events: seq<Event>, luck: Fortune) {
    luck.mark != Marked || exists i :: 0 <= i < |events| && luck.sends(events[i].eventId) != Delivered
  }

  /** The event is among those whose failure is recorded before the database stops answering. */
  predicate RecordedInTime(events: seq<Event>, luck: Fortune, e: Uuid) {
    exists i :: 0 <= i < |events| && events[i].eventId == e && i < luck.records + (if luck.oneMore then 1 else 0)
  }

  lemma FailuresAre(p: nat, events: seq<Event>, luck: Fortune, step: Step)
    ensures step in FailureSteps(p, events, luck) <==>
              (step.Record? && step.p == p && RecordedInTime(events, luck, step.e)) || (step == Crash(p) && luck.records < |events|)
  {
    hide RecordSteps;
    if luck.records < |events| {
      var n := if luck.oneMore then luck.records + 1 else luck.records;
      RecordsAre(p, events[..n], step);
      assert forall i :: 0 <= i < n ==> events[..n][i] == events[i];
    } else {
      RecordsAre(p, events, step);
    }
  }

  lemma SettlesAre(p: nat, events: seq<Event>, luck: Fortune, step: Step)
    requires step == Publish(p) || step == Crash(p) || step.Record? || step.Deliver?
    ensures step in SettleSteps(p, events, luck) <==>
              if Fails(events, luck) then step in FailureSteps(p, events, luck) else step == Publish(p)
    ensures step == Publish(p) || step.Deliver? ==> step !in FailureSteps(p, events, luck)
  {
    hide FailureSteps;
    FailuresAre(p, events, luck, step);
  }

  /** What a poll does with the batch it learns of: it sends every event once; it marks the batch, if every send was
      acknowledged, and otherwise not; and if the sends or the mark failed, it records a failure for each event that comes
      before the database stops answering, and for no other. */
  lemma PollDoes(p: nat, events: seq<Event>, luck: Fortune, e: Uuid, acked: bool)
    requires luck.claim == Claimed && events != []
    ensures Deliver(p, e, acked) in PollSteps(p, events, luck) <==>
              (exists i :: 0 <= i < |events| && events[i].eventId == e) && luck.sends(e) == if acked then Delivered else RejectedAfterWrite
    ensures Publish(p) in PollSteps(p, events, luck) <==> !Fails(events, luck)
    ensures Record(p, e) in PollSteps(p, events, luck) <==> Fails(events, luck) && RecordedInTime(events, luck, e)
    ensures Crash(p) in PollSteps(p, events, luck) <==> Fails(events, luck) && luck.records < |events|
  {
    hide SendSteps, SettleSteps, FailureSteps, Fails, RecordedInTime, IdsOf;
    OneKindOfStep(p, events, luck, Deliver(p, e, acked));
    OneKindOfStep(p, events, luck, Publish(p));
    OneKindOfStep(p, events, luck, Record(p, e));
    OneKindOfStep(p, events, luck, Crash(p));
  }

  lemma OneKindOfStep(p: nat, events: seq<Event>, luck: Fortune, step: Step)
    requires luck.claim == Claimed && events != [] && (step == Publish(p) || step == Crash(p) || step.Record? || step.Deliver?)
    ensures step in PollSteps(p, events, luck) <==>
              || (step.Deliver? && step.p == p && (exists i :: 0 <= i < |events| && events[i].eventId == step.e) &&
                  luck.sends(step.e) == if step.acked then Delivered else RejectedAfterWrite)
              || (step == Publish(p) && !Fails(events, luck))
              || (step.Record? && step.p == p && Fails(events, luck) && RecordedInTime(events, luck, step.e))
              || (step == Crash(p) && Fails(events, luck) && luck.records < |events|)
  {
    hide SendSteps, SettleSteps, FailureSteps, Fails, RecordedInTime, IdsOf;
    SendsAre(p, events, luck.sends, step);
    FailuresAre(p, events, luck, step);
    SettlesAre(p, events, luck, step);
    InPollSteps(p, events, luck, step);
  }

  lemma InPollSteps(p: nat, events: seq<Event>, luck: Fortune, step: Step)
    requires luck.claim == Claimed && events != [] && !step.Claim?
    ensures step in PollSteps(p, events, luck) <==> step in SendSteps(p, events, luck.sends) || step in SettleSteps(p, events, luck)
  {
    hide SendSteps, SettleSteps, IdsOf;
  }

  lemma StepsByOne(steps: seq<Step>, step: Step, p: nat)
    ensures StepsBy(steps + [step], p) == StepsBy(steps, p) + (if IsBy(step, p) then [step] else [])
  {
    assert (steps + [step])[..|steps|] == steps;
  }

  class Replica {
    const shared: Shared
    ghost const p: nat
    var running: bool
    var connected: bool

    constructor (shared: Shared, ghost p: nat)
      ensures this.shared == shared && this.p == p && !running && !connected
    {
      this.shared, this.p := shared, p;
      running, connected := false, false;
    }

    ghost predicate Ready()
      reads this, shared
    {
      shared.Valid() && p in shared.publishers && (!running ==> shared.publishers[p] == Idle)
    }

    /** Every poll, interleaved with anything the others do, is a run of the protocol; its own steps are PollSteps, and what
        it claims, after the `found` first steps of that run, are the oldest heads due. */
    method PublishBatch(luck: Fortune) returns (ghost events: seq<Event>, ghost found: seq<Step>)
      requires Ready()
      modifies this, shared
      ensures Ready() && shared.origin == old(shared.origin) && old(shared.trace) <= shared.trace
      ensures running == old(running)
      ensures StepsBy(shared.trace, p) == StepsBy(old(shared.trace), p) +
                (if ReachesTable(old(running), old(connected), luck) then PollSteps(p, events, luck) else [])
      ensures ReachesTable(old(running), old(connected), luck) ==>
                old(shared.trace) <= found && shared.ClaimedAfter(found, p, luck.locked, events)
      ensures connected <==>
                if old(running) then old(connected)
                else ReachesTable(false, old(connected), luck) && luck.claim == Claimed &&
                     (events == [] || (AllDelivered(events, luck.sends) && (luck.mark == Marked || |events| <= luck.records)))
    {
      hide Inv, Enabled, Next, Executable, After, Claimable, StepsBy, PollSteps, IdsOf, AllDelivered, OldestFirst;
      events, found := [], [];
      if running { return; }
      running := true;
      if !connected {
        if !luck.connects {
          running := false;
          return;
        }
        connected := true;
      }
      connected, events, found := Poll(luck);
      running := false;
    }

    method Poll(luck: Fortune) returns (stillConnected: bool, ghost events: seq<Event>, ghost found: seq<Step>)
      requires shared.Valid() && p in shared.publishers && shared.publishers[p] == Idle
      modifies shared
      ensures shared.Valid() && shared.origin == old(shared.origin) && old(shared.trace) <= shared.trace
      ensures p in shared.publishers && shared.publishers[p] == Idle
      ensures StepsBy(shared.trace, p) == StepsBy(old(shared.trace), p) +
                (if luck.claim == NotClaimed then [] else PollSteps(p, events, luck))
      ensures luck.claim != NotClaimed ==> old(shared.trace) <= found && shared.ClaimedAfter(found, p, luck.locked, events)
      ensures stillConnected <==>
                luck.claim == Claimed && (events == [] || (AllDelivered(events, luck.sends) && (luck.mark == Marked || |events| <= luck.records)))
    {
      hide Inv, Enabled, Next, Executable, After, Claimable, StepsBy, SendSteps, SettleSteps, IdsOf, AllDelivered, OldestFirst, IsBy,
           DistinctIds;
      events := [];
      shared.Interfere(p);
      found := shared.trace;
      if luck.claim == NotClaimed { return false, [], found; }
      var batch := ClaimBatch(luck.locked);
      events := batch;
      if luck.claim == ClaimedButErrored {
        GiveUp();
        return false, batch, found;
      }
      if |batch| == 0 { return true, batch, found; }
      stillConnected := SendAndSettle(batch, luck);
    }

    /** Whatever the publisher held, it works on it no more. */
    ghost method GiveUp()
      requires shared.Valid() && p in shared.publishers
      modifies shared
      ensures shared.Valid() && shared.origin == old(shared.origin) && old(shared.trace) <= shared.trace
      ensures p in shared.publishers && shared.publishers[p] == Idle
      ensures StepsBy(shared.trace, p) == StepsBy(old(shared.trace), p) + [Crash(p)]
    {
      hide Inv, Enabled, Next, Executable, After, Claimable, StepsBy;
      var before := shared.trace;
      shared.Leave(p, Crash(p));
      StepsByOne(before, Crash(p), p);
    }

    method ClaimBatch(locked: set<Uuid>) returns (events: seq<Event>)
      requires shared.Valid() && p in shared.publishers && shared.publishers[p] == Idle
      modifies shared
      ensures shared.Valid() && shared.origin == old(shared.origin) && Known(events) && DistinctIds(events)
      ensures old(shared.trace) <= shared.trace && shared.ClaimedAfter(old(shared.trace), p, locked, events)
      ensures p in shared.publishers && shared.publishers[p] == if events == [] then Idle else Sending(IdsOf(events), {})
      ensures StepsBy(shared.trace, p) == StepsBy(old(shared.trace), p) + [Claim(p, IdsOf(events))]
    {
      hide Inv, Enabled, Next, Executable, After, Claimable, StepsBy, Selection, IdsOf, Due, OldestFirst, Lease;
      ghost var (before, rows, due) := (shared.trace, shared.rows, Due(shared.rows, shared.now, locked));
      events := shared.ClaimPendingEvents(p, BATCH_LIMIT, locked);
      SelectedRows(rows, due, BATCH_LIMIT, events);
      StepsByOne(before, Claim(p, IdsOf(events)), p);
      if events == [] { NoIds(); } else { IdIn(events, 0); }
    }

    /** Sends the claimed batch; then marks all of it, or records a failure for all of it. */
    method SendAndSettle(events: seq<Event>, luck: Fortune) returns (stillConnected: bool)
      requires shared.Valid() && p in shared.publishers && shared.publishers[p] == Sending(IdsOf(events), {})
      requires Known(events) && DistinctIds(events) && events != []
      modifies shared
      ensures shared.Valid() && shared.origin == old(shared.origin) && p in shared.publishers && shared.publishers[p] == Idle
      ensures old(shared.trace) <= shared.trace
      ensures StepsBy(shared.trace, p) ==
              StepsBy(old(shared.trace), p) + (SendSteps(p, events, luck.sends) + SettleSteps(p, events, luck))
      ensures stillConnected <==> AllDelivered(events, luck.sends) && (luck.mark == Marked || |events| <= luck.records)
    {
      hide Inv, Enabled, Next, Executable, After, Claimable, StepsBy, SendSteps, RecordSteps, IdsOf, AllDelivered, FailureSteps;
      var delivered := SendAll(events, luck.sends);
      shared.Interfere(p);
      ghost var before := shared.trace;
      stillConnected := delivered;
      if delivered {
        var marked := shared.MarkEventsPublished(p, events, luck.mark);
        StepsByOne(before, if marked then Publish(p) else MarkFailed(p, luck.mark == MarkedButErrored), p);
        if !marked { stillConnected := RecordAll(events, luck); }
      } else {
        shared.Leave(p, SendFailed(p));
        StepsByOne(before, SendFailed(p), p);
        var _ := RecordAll(events, luck);
      }
    }

    /** Promise.allSettled over the batch. */
    method SendAll(events: seq<Event>, sends: Uuid -> SendOutcome) returns (delivered: bool)
      requires shared.Valid() && p in shared.publishers && shared.publishers[p] == Sending(IdsOf(events), {})
      requires Known(events)
      modifies shared
      ensures shared.Valid() && shared.origin == old(shared.origin) && p in shared.publishers
      ensures delivered <==> AllDelivered(events, sends)
      ensures old(shared.trace) <= shared.trace
      ensures shared.publishers[p].Sending? && shared.publishers[p].batch == IdsOf(events)
      ensures delivered ==> shared.publishers[p] == Sending(IdsOf(events), IdsOf(events))
      ensures StepsBy(shared.trace, p) == StepsBy(old(shared.trace), p) + SendSteps(p, events, sends)
    {
      hide Inv, Enabled, Next, Executable, After, Claimable, StepsBy, SendSteps, AllDelivered, IdsOf;
      delivered := true;
      var i := 0;
      Nothing(events, sends);
      while i < |events|
        invariant 0 <= i <= |events|
        invariant shared.Valid() && shared.origin == old(shared.origin) && p in shared.publishers
        invariant delivered <==> AllDelivered(events[..i], sends)
        invariant old(shared.trace) <= shared.trace
        invariant shared.publishers[p].Sending? && shared.publishers[p].batch == IdsOf(events)
        invariant delivered ==> shared.publishers[p].acked == IdsOf(events[..i])
        invariant Known(events)
        invariant StepsBy(shared.trace, p) == StepsBy(old(shared.trace), p) + SendSteps(p, events[..i], sends)
      {
        PrefixGrows(events, i, p, sends);
        var ok := SendOne(events, i, sends(events[i].eventId));
        delivered := delivered && ok;
        i := i + 1;
      }
      assert events[..i] == events;
    }

    lemma Nothing(events: seq<Event>, sends: Uuid -> SendOutcome)
      ensures AllDelivered(events[..0], sends) && SendSteps(p, events[..0], sends) == [] && IdsOf(events[..0]) == {}
      ensures RecordSteps(p, events[..0]) == [] && events[0..] == events
    {
    }

    /** The rows still hold the events of the batch. */
    ghost predicate Known(events: seq<Event>)
      reads shared
    {
      forall i :: 0 <= i < |events| ==> events[i].eventId in shared.rows && shared.rows[events[i].eventId].event == events[i]
    }

    method SendOne(events: seq<Event>, i: nat, outcome: SendOutcome) returns (ok: bool)
      requires shared.Valid() && p in shared.publishers && shared.publishers[p].Sending?
      requires Known(events) && i < |events| && events[i].eventId in shared.publishers[p].batch
      modifies shared
      ensures shared.Valid() && shared.origin == old(shared.origin) && p in shared.publishers && Known(events)
      ensures old(shared.trace) <= shared.trace
      ensures ok <==> outcome == Delivered
      ensures shared.publishers[p] == if ok then old(shared.publishers)[p].(acked := old(shared.publishers)[p].acked + {events[i].eventId})
                                      else old(shared.publishers)[p]
      ensures StepsBy(shared.trace, p) == StepsBy(old(shared.trace), p) + SendStep(p, events[i].eventId, outcome)
    {
      hide Inv, Enabled, Next, Executable, After, Claimable, StepsBy;
      shared.Interfere(p);
      ghost var before := shared.trace;
      ok := shared.Send(p, events[i], outcome);
      if outcome != Rejected { StepsByOne(before, Deliver(p, events[i].eventId, ok), p); }
    }

    /** recordFailure for every event of the batch, until the database stops answering. */
    method RecordAll(events: seq<Event>, luck: Fortune) returns (complete: bool)
      requires shared.Valid() && p in shared.publishers && shared.publishers[p] == Settle(IdsOf(events))
      requires DistinctIds(events)
      modifies shared
      ensures shared.Valid() && shared.origin == old(shared.origin) && p in shared.publishers && shared.publishers[p] == Idle
      ensures old(shared.trace) <= shared.trace
      ensures complete <==> |events| <= luck.records
      ensures StepsBy(shared.trace, p) == StepsBy(old(shared.trace), p) + FailureSteps(p, events, luck)
    {
      hide Inv, Enabled, Next, Executable, After, Claimable, StepsBy, RecordSteps, IdsOf, AllDelivered, SendSteps;
      var i := 0;
      Nothing(events, _ => Delivered);
      while i < |events| && i < luck.records
        invariant 0 <= i <= |events| && i <= luck.records
        invariant shared.Valid() && shared.origin == old(shared.origin) && p in shared.publishers
        invariant old(shared.trace) <= shared.trace
        invariant shared.publishers[p] == Settle(IdsOf(events[i..]))
        invariant StepsBy(shared.trace, p) == StepsBy(old(shared.trace), p) + RecordSteps(p, events[..i])
      {
        RecordOne(events, i);
        i := i + 1;
      }
      complete := i == |events|;
      if complete {
        assert events[i..] == [] && events[..i] == events;
        assert IdsOf(events[i..]) == {} by { NoIds(); }
      } else {
        if luck.oneMore { RecordOne(events, i); }
        GiveUp();
      }
    }

    method RecordOne(events: seq<Event>, i: nat)
      requires shared.Valid() && p in shared.publishers && i < |events| && DistinctIds(events)
      requires shared.publishers[p] == Settle(IdsOf(events[i..]))
      modifies shared
      ensures shared.Valid() && shared.origin == old(shared.origin) && old(shared.trace) <= shared.trace
      ensures p in shared.publishers && shared.publishers[p] == Settle(IdsOf(events[i + 1..]))
      ensures StepsBy(shared.trace, p) == StepsBy(old(shared.trace), p) + [Record(p, events[i].eventId)]
      ensures RecordSteps(p, events[..i + 1]) == RecordSteps(p, events[..i]) + [Record(p, events[i].eventId)]
    {
      hide Inv, Enabled, Next, Executable, After, Claimable, StepsBy, RecordSteps, IdsOf, AllDelivered, SendSteps;
      PrefixGrows(events, i, p, _ => Delivered);
      TailIds(events, i);
      shared.Interfere(p);
      ghost var before := shared.trace;
      var _, _ := shared.RecordPublishFailure(p, events[i].eventId);
      StepsByOne(before, Record(p, events[i].eventId), p);
    }
  }

  lemma NoIds()
    ensures IdsOf([]) == {}
  {
  }

  lemma TailIds(events: seq<Event>, i: nat)
    requires i < |events| && DistinctIds(events)
    ensures events[i].eventId in IdsOf(events[i..])
    ensures IdsOf(events[i + 1..]) == IdsOf(events[i..]) - {events[i].eventId}
  {
    var tail := events[i..];
    assert tail[0] == events[i];
    forall e ensures e in IdsOf(events[i + 1..]) <==> e in IdsOf(tail) - {events[i].eventId} {
      if e in IdsOf(events[i + 1..]) {
        var k :| 0 <= k < |events[i + 1..]| && events[i + 1..][k].eventId == e;
        assert tail[k + 1].eventId == e;
      }
      if e in IdsOf(tail) && e != events[i].eventId {
        var k :| 0 <= k < |tail| && tail[k].eventId == e;
        assert events[i + 1..][k - 1].eventId == e;
      }
    }
  }
}
