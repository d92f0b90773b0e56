/** Progress of the outbox when the broker answers, and the retry schedule when it does not. */
module OutboxDrain {
  import opened Types
  import opened IssueDatabase
  import opened Outbox
  import opened OutboxRuns
  import opened OutboxPublisher

  // Draining

  ghost function Unpublished(rows: Rows): set<Uuid> { set e | e in rows && !rows[e].published }

  ghost function Heads(rows: Rows): set<Uuid> { set e | e in rows && !rows[e].published && IsHead(rows, e) }

  /** Every head is due and none is abandoned. */
  ghost predicate HeadsDue(rows: Rows, now: Time) {
    forall e :: e in Heads(rows) ==> rows[e].attempts < MAX_PUBLISH_ATTEMPTS && rows[e].nextAttemptAt <= now
  }

  /** What an undisturbed claim leases: as many claimable events as there are, up to the limit. */
  ghost predicate IsClaim(rows: Rows, now: Time, ids: set<Uuid>) {
    var claimable := set e | e in rows && Claimable(rows, now, e);
    ids <= claimable && |ids| == Min(BATCH_LIMIT, |claimable|)
  }

  /** A poll whose sends all succeed. */
  function Poll(rows: Rows, now: Time, ids: set<Uuid>): Rows { MarkPublished(Lease(rows, ids, now), ids) }

  lemma {:induction false} HeadBelow(rows: Rows, e: Uuid)
    requires e in rows && !rows[e].published
    ensures Heads(rows) != {}
    decreases rows[e].event.aggregateVersion
  {
    if IsHead(rows, e) {
      assert e in Heads(rows);
    } else {
      var f :| f in rows && SameIssue(rows, f, e) && rows[f].event.aggregateVersion < rows[e].event.aggregateVersion &&
               !rows[f].published;
      HeadBelow(rows, f);
    }
  }

  lemma DueHeadsAreClaimable(rows: Rows, now: Time)
    requires HeadsDue(rows, now)
    ensures (set e | e in rows && Claimable(rows, now, e)) == Heads(rows) <= Unpublished(rows)
  {
    hide IsHead;
  }

  lemma PollPublishes(rows: Rows, now: Time, ids: set<Uuid>)
    requires ids <= Unpublished(rows)
    ensures var rows' := Poll(rows, now, ids);
            Unpublished(rows') == Unpublished(rows) - ids && |Unpublished(rows')| == |Unpublished(rows)| - |ids|
  {
    assert Unpublished(Poll(rows, now, ids)) == Unpublished(rows) - ids;
  }

  /** Each successful poll over due heads publishes min(50, number of heads) of them, and at least one if any event is
      left. */
  lemma PollPublishesHeads(rows: Rows, now: Time, ids: set<Uuid>)
    requires HeadsDue(rows, now) && IsClaim(rows, now, ids)
    ensures var rows' := Poll(rows, now, ids);
            && |ids| == Min(BATCH_LIMIT, |Heads(rows)|)
            && Unpublished(rows') == Unpublished(rows) - ids && ids <= Unpublished(rows)
            && |Unpublished(rows')| == |Unpublished(rows)| - |ids|
            && (Unpublished(rows) != {} ==> |ids| >= 1)
  {
    hide Poll, Heads, HeadsDue, Claimable;
    DueHeadsAreClaimable(rows, now);
    PollPublishes(rows, now, ids);
    if Unpublished(rows) != {} {
      var e :| e in Unpublished(rows);
      HeadBelow(rows, e);
    }
  }

  // The publisher's own poll

  /** Everything answers: the producer connects, every send is acknowledged, and the batch is marked. */
  function Success(): Fortune { Fortune(true, Claimed, {}, _ => Delivered, Marked, 0, false) }

  /** What the poll's claim returns when nobody else has locked anything. */
  ghost predicate Claims(s: State, events: seq<Event>) {
    Selection(s.rows, Due(s.rows, s.now, {}), BATCH_LIMIT, events)
  }

  lemma ClaimedIds(s: State, events: seq<Event>)
    requires Inv(s) && Claims(s, events)
    ensures IsClaim(s.rows, s.now, IdsOf(events)) && |IdsOf(events)| == |events|
    ensures forall i :: 0 <= i < |events| ==> events[i].eventId in s.rows && s.rows[events[i].eventId].event == events[i]
  {
    hide Claimable;
    var due := Due(s.rows, s.now, {});
    assert due == set e | e in s.rows && Claimable(s.rows, s.now, e);
    assert due - (due - IdsOf(events)) == IdsOf(events);
  }

  /** The steps of one kind of poll, up to the i-th send. */
  function Sent(p: nat, events: seq<Event>, i: nat): seq<Step>
    requires i <= |events|
  {
    [Claim(p, IdsOf(events))] + SendSteps(p, events[..i], Success().sends)
  }

  lemma TakeStep(s: State, steps: seq<Step>, step: Step)
    requires Inv(s) && Executable(s, steps) && Enabled(After(s, steps), step)
    ensures Executable(s, steps + [step]) && After(s, steps + [step]) == Next(After(s, steps), step)
  {
    hide Enabled, Next, RowsInv, PublishedInLog, ClaimsAreHeads, LogInv, AcksInv;
    NextKeepsInv(After(s, steps), step);
    assert [step][1..] == [];
    RunsConcatenate(s, steps, [step]);
  }

  lemma {:induction false} SendsGoThrough(s: State, p: nat, events: seq<Event>, i: nat)
    requires Inv(s) && p in s.publishers && s.publishers[p] == Idle && Claims(s, events) && events != [] && i <= |events|
    ensures Executable(s, Sent(p, events, i))
    ensures var t := After(s, Sent(p, events, i));
            && t.rows == Lease(s.rows, IdsOf(events), s.now) && t.now == s.now
            && p in t.publishers && t.publishers[p] == Sending(IdsOf(events), IdsOf(events[..i]))
  {
    hide RowsInv, PublishedInLog, ClaimsAreHeads, LogInv, AcksInv, Claimable, SendSteps, IdsOf, Selection, Lease, Append;
    ClaimedIds(s, events);
    if i == 0 {
      ClaimGoesThrough(s, p, events);
    } else {
      SendsGoThrough(s, p, events, i - 1);
      var e := events[i - 1].eventId;
      assert e in IdsOf(events) by { IdIn(events, i - 1); }
      TakeStep(s, Sent(p, events, i - 1), Deliver(p, e, true));
      OneSendMore(p, events, i);
    }
  }

  lemma ClaimGoesThrough(s: State, p: nat, events: seq<Event>)
    requires Inv(s) && p in s.publishers && s.publishers[p] == Idle && Claims(s, events)
    ensures Executable(s, [Claim(p, IdsOf(events))]) && Sent(p, events, 0) == [Claim(p, IdsOf(events))]
    ensures var t := After(s, [Claim(p, IdsOf(events))]);
            && t.rows == Lease(s.rows, IdsOf(events), s.now) && t.now == s.now && p in t.publishers
            && t.publishers[p] == (if events == [] then Idle else Sending(IdsOf(events), IdsOf(events[..0])))
  {
    hide RowsInv, PublishedInLog, ClaimsAreHeads, LogInv, AcksInv, Lease, Selection, IdsOf, Claimable;
    ClaimedIds(s, events);
    if events != [] { IdIn(events, 0); }
    NoIds();
    assert events[..0] == [];
    assert [] + [Claim(p, IdsOf(events))] == [Claim(p, IdsOf(events))];
    TakeStep(s, [], Claim(p, IdsOf(events)));
  }

  lemma OneSendMore(p: nat, events: seq<Event>, i: nat)
    requires 0 < i <= |events|
    ensures Sent(p, events, i) == Sent(p, events, i - 1) + [Deliver(p, events[i - 1].eventId, true)]
    ensures IdsOf(events[..i]) == IdsOf(events[..i - 1]) + {events[i - 1].eventId}
  {
    PrefixGrows(events, i - 1, p, Success().sends);
  }

  /** A poll in which everything answers and nobody else acts, step by step as Replica.PublishBatch takes it, leaves the
      rows that function Poll states, and the publisher idle. */
  lemma UndisturbedPollIsPoll(s: State, p: nat, events: seq<Event>)
    requires Inv(s) && p in s.publishers && s.publishers[p] == Idle && Claims(s, events)
    ensures Executable(s, PollSteps(p, events, Success()))
    ensures var t := After(s, PollSteps(p, events, Success()));
            t.rows == Poll(s.rows, s.now, IdsOf(events)) && t.now == s.now && p in t.publishers && t.publishers[p] == Idle
    ensures IsClaim(s.rows, s.now, IdsOf(events))
  {
    hide RowsInv, PublishedInLog, ClaimsAreHeads, LogInv, AcksInv, Claimable, SendSteps, IdsOf, Selection, Lease, MarkPublished;
    ClaimedIds(s, events);
    if events == [] {
      ClaimGoesThrough(s, p, events);
      NothingToMark(s.rows, s.now);
      assert PollSteps(p, events, Success()) == [Claim(p, IdsOf(events))];
    } else {
      SendsGoThrough(s, p, events, |events|);
      assert events[..|events|] == events;
      TakeStep(s, Sent(p, events, |events|), Publish(p));
      PollIsSentAndMarked(p, events);
    }
  }

  lemma NothingToMark(rows: Rows, now: Time)
    ensures IdsOf([]) == {} && Poll(rows, now, IdsOf([])) == Lease(rows, IdsOf([]), now)
  {
  }

  lemma PollIsSentAndMarked(p: nat, events: seq<Event>)
    requires events != []
    ensures PollSteps(p, events, Success()) == Sent(p, events, |events|) + [Publish(p)]
  {
    assert events[..|events|] == events;
  }

  /** `s'` is what such polls leave when they are made at the given times and find the heads due. */
  ghost predicate PollsTo(s: State, p: nat, times: seq<Time>, s': State)
    requires Inv(s) && p in s.publishers && s.publishers[p] == Idle
    decreases |times|, 0
  {
    if times == [] then s' == s
    else
      && s.now <= times[0]
      && (NextKeepsInv(s, Advance(times[0]));
          var t := Next(s, Advance(times[0]));
          HeadsDue(t.rows, t.now) && exists events :: PollAgain(t, p, events, times[1..], s'))
  }

  ghost predicate PollAgain(t: State, p: nat, events: seq<Event>, times: seq<Time>, s': State)
    requires Inv(t) && p in t.publishers && t.publishers[p] == Idle
    decreases |times|, 1
  {
    Claims(t, events) && (UndisturbedPollIsPoll(t, p, events);
    PollsTo(After(t, PollSteps(p, events, Success())), p, times, s'))
  }

  /** While no event is added and nobody else acts, as many successful polls as there are unpublished events empty the
      outbox. */
  lemma {:induction false} PollsEmptyTheOutbox(s: State, p: nat, times: seq<Time>, s': State)
    requires Inv(s) && p in s.publishers && s.publishers[p] == Idle
    requires |times| >= |Unpublished(s.rows)| && PollsTo(s, p, times, s')
    ensures Unpublished(s'.rows) == {}
    decreases |times|
  {
    hide RowsInv, PublishedInLog, ClaimsAreHeads, LogInv, AcksInv, Claimable, Poll, PollSteps, IdsOf, Unpublished, HeadsDue, Selection, IsClaim;
    if times != [] {
      NextKeepsInv(s, Advance(times[0]));
      var t := Next(s, Advance(times[0]));
      var events :| PollAgain(t, p, events, times[1..], s');
      UndisturbedPollIsPoll(t, p, events);
      PollPublishesHeads(t.rows, t.now, IdsOf(events));
      PollsEmptyTheOutbox(After(t, PollSteps(p, events, Success())), p, times[1..], s');
    }
  }

  // The operator's reset

  /** After a requeue no unpublished event is abandoned: those that were are due at once with a fresh budget, and nothing
      else has changed. */
  lemma RequeueRevives(s: State, e: Uuid)
    requires |s.topic| > 0 && Keyed(s) && e in s.rows
    ensures var (before, rows) := (s.rows[e], Next(s, Requeue).rows);
            && rows.Keys == s.rows.Keys && (!rows[e].published ==> rows[e].attempts < MAX_PUBLISH_ATTEMPTS)
            && (!before.published && before.attempts >= MAX_PUBLISH_ATTEMPTS ==> rows[e] == OutboxRow(before.event, false, 0, s.now))
            && (before.published || before.attempts < MAX_PUBLISH_ATTEMPTS ==> rows[e] == before)
  {
  }

  // The retry schedule

  /** The delays of the first `n` failures together. */
  function TotalDelay(n: nat): nat { if n == 0 then 0 else TotalDelay(n - 1) + Backoff(n - 1) }

  lemma {:induction false} Pow2Reaches(n: nat)
    requires n >= 9
    ensures Pow2(n) >= 512
  {
    if n > 9 {
      Pow2Reaches(n - 1);
    } else {
      assert Pow2(3) == 8 && Pow2(6) == 8 * Pow2(3) && Pow2(9) == 8 * Pow2(6);
    }
  }

  lemma {:induction false} Pow2Stays(n: nat)
    requires n <= 8
    ensures Pow2(n) <= 256
  {
    assert Pow2(2) == 4 && Pow2(4) == 4 * Pow2(2) && Pow2(6) == 4 * Pow2(4) && Pow2(8) == 4 * Pow2(6);
  }

  lemma {:induction false} TotalDelayDoubles(n: nat)
    requires n <= 9
    ensures TotalDelay(n) == Pow2(n) - 1
  {
    if n > 0 {
      TotalDelayDoubles(n - 1);
      Pow2Stays(n - 1);
    }
  }

  /** The delays double up to 256 s and are 300 s from then on. */
  lemma {:induction false} TotalDelayClosedForm(n: nat)
    ensures TotalDelay(n) == if n <= 9 then Pow2(n) - 1 else 511 + MAX_BACKOFF * (n - 9)
    ensures n == MAX_PUBLISH_ATTEMPTS ==> TotalDelay(n) == 3811
  {
    if n <= 9 {
      TotalDelayDoubles(n);
    } else {
      TotalDelayClosedForm(n - 1);
      Pow2Reaches(Min(n - 1, 20));
      if n == 10 { assert Pow2(3) == 8 && Pow2(6) == 8 * Pow2(3) && Pow2(9) == 8 * Pow2(6); }
    }
  }

  /** The row after `n` failures, each recorded the moment the row was due. */
  function FailedWhenDue(rows: Rows, e: Uuid, n: nat): (r: Rows)
    requires e in rows
    ensures e in r
  {
    if n == 0 then rows
    else
      var before := FailedWhenDue(rows, e, n - 1);
      RecordFailure(before, e, before[e].nextAttemptAt)
  }

  /** A fresh row that fails whenever it is due waits out exactly the schedule, and after 20 failures it is
      abandoned 3811 s after it first was due. */
  lemma {:induction false} ScheduleFollowsBackoff(rows: Rows, e: Uuid, n: nat, now: Time)
    requires e in rows && rows[e].attempts == 0
    ensures var row := FailedWhenDue(rows, e, n)[e];
            && row.attempts == n && row.nextAttemptAt == rows[e].nextAttemptAt + TotalDelay(n)
            && (n == MAX_PUBLISH_ATTEMPTS ==>
                  row.nextAttemptAt == rows[e].nextAttemptAt + 3811 && !Claimable(FailedWhenDue(rows, e, n), now, e))
  {
    if n > 0 { ScheduleFollowsBackoff(rows, e, n - 1, now); }
    TotalDelayClosedForm(n);
  }
}
