/** What holds however dispatchers and webhooks interleave on the delivery rows. */
module DeliveryLaws {
  import opened Common
  import opened Delivery

  datatype Action =
    | Queue(kind: Kind, channel: Channel, now: int)
    | Dispatch(kind: Kind, limit: nat, answers: Answers, max: nat, now: int)
    | Attempt(id: RowId, answer: Option<string>, max: nat, now: int)
    | Webhook(events: seq<Event>, now: int)

  /** A new delivery; a released alert is due at once, a correction has no next attempt yet. */
  function NewRow(kind: Kind, channel: Channel, now: int): Row {
    Row(kind, channel, Queued, 0, now, None, if kind == AlertDelivery then Some(now) else None, None, None, None)
  }

  /** `Attempt` is one step of a dispatcher whose batch was selected earlier. */
  function Step(s: State, a: Action): State {
    match a
    case Queue(kind, channel, now) => s.(rows := s.rows + [NewRow(kind, channel, now)])
    case Dispatch(kind, limit, answers, max, now) =>
      var ids := Batch(s.rows, kind, now, limit);
      s.(rows := DeliverAll(s.rows, ids, |ids|, answers, max, now))
    case Attempt(id, answer, max, now) => if id < |s.rows| then s.(rows := DeliverOne(s.rows, id, answer, max, now)) else s
    case Webhook(events, now) => Receive(s, events, now)
  }

  function Run(s: State, actions: seq<Action>): State
    decreases |actions|
  {
    if actions == [] then s else Run(Step(s, actions[0]), actions[1..])
  }

  /** The configured number of attempts lies between one and `cap`, whenever it is read. */
  predicate Configured(a: Action, cap: nat) {
    match a
    case Dispatch(_, _, _, max, _) => 1 <= max <= cap
    case Attempt(_, _, max, _) => 1 <= max <= cap
    case _ => cap >= 1
  }

  // ---------------------------------------------------------------------------------------
  // What a row looks like in each status, and how it may change
  // ---------------------------------------------------------------------------------------

  predicate RowOk(row: Row, cap: nat) {
    && row.attempts <= cap
    && (row.nextAttempt.Some? ==>
          && row.status == Queued
          && if row.attempts == 0 then row.nextAttempt.value == row.queuedAt
             else row.lastAttempt.Some? && 60 <= row.nextAttempt.value - row.lastAttempt.value <= 3600)
    && (row.status != Queued ==> row.attempts >= 1)
    && (row.ref.Some? <==> row.sentAt.Some?)
    && match row.status
       case Queued => row.attempts < cap && row.ref.None? && row.deliveredAt.None?
       case Sent => row.channel == WhatsApp && row.ref.Some? && row.deliveredAt.None?
       case Delivered => row.ref.Some? && row.deliveredAt.Some?
       case Failed => row.deliveredAt.None?
  }

  function Rank(status: Status): nat {
    match status
    case Queued => 0
    case Sent => 1
    case Delivered => 2
    case Failed => 2
  }

  /** Statuses only advance, terminal rows never change, references and send times are written once. */
  predicate Advances(before: Row, after: Row) {
    && Rank(before.status) <= Rank(after.status)
    && (Terminal(before.status) ==> after == before)
    && before.attempts <= after.attempts
    && (before.ref.Some? ==> after.ref == before.ref && after.sentAt == before.sentAt && after.attempts == before.attempts)
    && after.kind == before.kind && after.channel == before.channel && after.queuedAt == before.queuedAt
  }

  ghost predicate RowsOk(rows: seq<Row>, cap: nat) {
    forall i | 0 <= i < |rows| :: RowOk(rows[i], cap)
  }

  ghost predicate AllAdvance(before: seq<Row>, after: seq<Row>) {
    |before| <= |after| && forall i | 0 <= i < |before| :: Advances(before[i], after[i])
  }

  lemma {:induction false} Pow2Positive(n: nat)
    ensures Pow2(n) >= 1
  {
    if n > 0 {
      Pow2Positive(n - 1);
    }
  }

  lemma {:induction false} Pow2Grows(m: nat, n: nat)
    requires m <= n
    ensures Pow2(m) <= Pow2(n)
  {
    if m < n {
      Pow2Grows(m, n - 1);
      Pow2Positive(n - 1);
    }
  }

  /** Waits start at a minute, never shrink from one attempt to the next, and stay at an hour from the seventh on. */
  lemma BackoffBounds(a: nat, b: nat)
    requires 1 <= a <= b
    ensures 60 <= Backoff(a) <= Backoff(b) <= 3600
    ensures a >= 7 ==> Backoff(a) == 3600
    ensures a < 7 ==> Backoff(a) == 60 * Pow2(a - 1)
  {
    Pow2Positive(a - 1);
    Pow2Grows(a - 1, b - 1);
    assert Pow2(5) == 32 && Pow2(6) == 64;
    if a >= 7 {
      Pow2Grows(6, a - 1);
    } else {
      Pow2Grows(a - 1, 5);
    }
  }

  lemma AttemptedOk(row: Row, answer: Option<string>, max: nat, cap: nat, now: int)
    requires RowOk(row, cap) && row.status == Queued && 1 <= max <= cap
    ensures RowOk(Attempted(row, answer, max, now), cap) && Advances(row, Attempted(row, answer, max, now))
  {
    hide Backoff;
    BackoffBounds(row.attempts + 1, row.attempts + 1);
  }

  lemma AppliedOk(row: Row, e: Event, receivedAt: int, cap: nat)
    requires RowOk(row, cap) && row.ref.Some?
    ensures RowOk(ApplyStatus(row, e, receivedAt), cap) && Advances(row, ApplyStatus(row, e, receivedAt))
  {
  }

  lemma AdvanceTwice(first: seq<Row>, second: seq<Row>, third: seq<Row>)
    requires AllAdvance(first, second) && AllAdvance(second, third)
    ensures AllAdvance(first, third)
  {
    forall i | 0 <= i < |first| ensures Advances(first[i], third[i]) {
      assert Advances(first[i], second[i]) && Advances(second[i], third[i]);
    }
  }

  lemma OneRowChanges(rows: seq<Row>, id: RowId, row: Row, cap: nat)
    requires RowsOk(rows, cap) && id < |rows| && RowOk(row, cap) && Advances(rows[id], row)
    ensures RowsOk(rows[id := row], cap) && AllAdvance(rows, rows[id := row])
  {
    hide RowOk;
  }

  lemma NoRowChanges(rows: seq<Row>)
    ensures AllAdvance(rows, rows)
  {
  }

  lemma DeliverOneOk(rows: seq<Row>, id: RowId, answer: Option<string>, max: nat, cap: nat, now: int)
    requires RowsOk(rows, cap) && id < |rows| && 1 <= max <= cap
    ensures var after := DeliverOne(rows, id, answer, max, now); RowsOk(after, cap) && AllAdvance(rows, after)
  {
    hide Attempted, RowOk, Advances;
    NoRowChanges(rows);
    if rows[id].status == Queued {
      AttemptedOk(rows[id], answer, max, cap, now);
      OneRowChanges(rows, id, Attempted(rows[id], answer, max, now), cap);
    }
  }

  lemma {:induction false} DeliverAllOk(rows: seq<Row>, ids: seq<RowId>, n: nat, answers: Answers, max: nat, cap: nat, now: int)
    requires RowsOk(rows, cap) && InRange(rows, ids) && n <= |ids| && 1 <= max <= cap
    ensures var after := DeliverAll(rows, ids, n, answers, max, now); RowsOk(after, cap) && AllAdvance(rows, after)
  {
    hide DeliverOne, RowsOk, AllAdvance;
    if n == 0 {
      NoRowChanges(rows);
    } else {
      DeliverAllOk(rows, ids, n - 1, answers, max, cap, now);
      var before := DeliverAll(rows, ids, n - 1, answers, max, now);
      DeliverOneOk(before, ids[n - 1], Answer(answers, ids[n - 1]), max, cap, now);
      AdvanceTwice(rows, before, DeliverAll(rows, ids, n, answers, max, now));
    }
  }

  lemma {:induction false} ApplyAllOk(rows: seq<Row>, events: seq<Event>, n: nat, receivedAt: int, cap: nat)
    requires RowsOk(rows, cap) && n <= |events|
    ensures var after := ApplyAll(rows, events, n, receivedAt); RowsOk(after, cap) && AllAdvance(rows, after)
  {
    hide ApplyStatus, RowOk;
    if n == 0 {
      NoRowChanges(rows);
    } else {
      ApplyAllOk(rows, events, n - 1, receivedAt, cap);
      var before, target := ApplyAll(rows, events, n - 1, receivedAt), Target(rows, events[n - 1].ref);
      if target.Some? {
        var row := before[target.value];
        assert Advances(rows[target.value], row);
        AppliedOk(row, events[n - 1], receivedAt, cap);
        OneRowChanges(before, target.value, ApplyStatus(row, events[n - 1], receivedAt), cap);
        AdvanceTwice(rows, before, ApplyAll(rows, events, n, receivedAt));
      }
    }
  }

  lemma StepOk(s: State, a: Action, cap: nat)
    requires RowsOk(s.rows, cap) && Configured(a, cap)
    ensures RowsOk(Step(s, a).rows, cap) && AllAdvance(s.rows, Step(s, a).rows)
  {
    hide Batch, DeliverOne, NewEvents;
    NoRowChanges(s.rows);
    match a
    case Queue(_, _, _) =>
    case Dispatch(kind, limit, answers, max, now) =>
      var ids := Batch(s.rows, kind, now, limit);
      DeliverAllOk(s.rows, ids, |ids|, answers, max, cap, now);
    case Attempt(id, answer, max, now) =>
      if id < |s.rows| {
        DeliverOneOk(s.rows, id, answer, max, cap, now);
      }
    case Webhook(events, now) =>
      var news := NewEvents(s, events);
      ApplyAllOk(s.rows, news, |news|, now, cap);
  }

  /**
   * Under any interleaving of dispatchers and webhooks: attempts never exceed the greatest
   * configured maximum, no status moves back, terminal rows never change, a queued row has no
   * provider reference, and only queued rows wait for a next attempt.
   */
  lemma {:induction false} RunOk(s: State, actions: seq<Action>, cap: nat)
    requires RowsOk(s.rows, cap) && forall i | 0 <= i < |actions| :: Configured(actions[i], cap)
    ensures RowsOk(Run(s, actions).rows, cap) && AllAdvance(s.rows, Run(s, actions).rows)
    decreases |actions|
  {
    hide RowsOk, AllAdvance, Step, Configured;
    if actions == [] {
      NoRowChanges(s.rows);
    } else {
      StepOk(s, actions[0], cap);
      RunOk(Step(s, actions[0]), actions[1..], cap);
      AdvanceTwice(s.rows, Step(s, actions[0]).rows, Run(s, actions).rows);
    }
  }

  // ---------------------------------------------------------------------------------------
  // "Sent" reports
  // ---------------------------------------------------------------------------------------

  /** A "sent" report never changes a row, whatever comes with it: a row that has a reference is no longer queued. */
  lemma SentReportsDoNothing(rows: seq<Row>, events: seq<Event>, n: nat, receivedAt: int, cap: nat)
    requires RowsOk(rows, cap) && 0 < n <= |events| && events[n - 1].report == ReportSent
    ensures ApplyAll(rows, events, n, receivedAt) == ApplyAll(rows, events, n - 1, receivedAt)
    ensures AppliedCount(rows, events, n, receivedAt) == AppliedCount(rows, events, n - 1, receivedAt)
  {
    ApplyAllOk(rows, events, n - 1, receivedAt, cap);
  }

  // ---------------------------------------------------------------------------------------
  // Send time and delivery time
  // ---------------------------------------------------------------------------------------

  /** Sent at or before `clock`, and delivered no earlier than sent. */
  predicate InOrder(row: Row, clock: int) {
    row.sentAt.Some? ==> row.sentAt.value <= clock && (row.deliveredAt.Some? ==> row.sentAt.value <= row.deliveredAt.value)
  }

  /**
   * A delivery report records a time no earlier than the send time exactly when its own time,
   * or else the time of its receipt, is no earlier.
   */
  lemma DeliveryTimeInOrderExactlyWhen(row: Row, e: Event, receivedAt: int, cap: nat)
    requires RowOk(row, cap) && row.status == Sent && (e.report == ReportDelivered || e.report == ReportRead)
    ensures var after := ApplyStatus(row, e, receivedAt);
            && after.status == Delivered && after.sentAt == row.sentAt && after.deliveredAt.Some?
            && (row.sentAt.value <= after.deliveredAt.value
                <==> (e.at.Some? && row.sentAt.value <= e.at.value) || row.sentAt.value <= receivedAt)
  {
  }

  ghost predicate AllInOrder(rows: seq<Row>, clock: int) {
    forall i | 0 <= i < |rows| :: InOrder(rows[i], clock)
  }

  lemma {:induction false} DeliverAllInOrder(rows: seq<Row>, ids: seq<RowId>, n: nat, answers: Answers, max: nat, clock: int, now: int)
    requires AllInOrder(rows, clock) && clock <= now && InRange(rows, ids) && n <= |ids|
    ensures AllInOrder(DeliverAll(rows, ids, n, answers, max, now), now)
  {
    hide Backoff;
    if n > 0 {
      DeliverAllInOrder(rows, ids, n - 1, answers, max, clock, now);
    }
  }

  lemma {:induction false} ApplyAllInOrder(rows: seq<Row>, events: seq<Event>, n: nat, cap: nat, clock: int, receivedAt: int)
    requires AllInOrder(rows, clock) && RowsOk(rows, cap) && clock <= receivedAt && n <= |events|
    ensures AllInOrder(ApplyAll(rows, events, n, receivedAt), receivedAt)
  {
    if n > 0 {
      ApplyAllInOrder(rows, events, n - 1, cap, clock, receivedAt);
      ApplyAllOk(rows, events, n - 1, receivedAt, cap);
      var before, target := ApplyAll(rows, events, n - 1, receivedAt), Target(rows, events[n - 1].ref);
      if target.Some? {
        assert Advances(rows[target.value], before[target.value]) && RowOk(before[target.value], cap);
        assert InOrder(ApplyStatus(before[target.value], events[n - 1], receivedAt), receivedAt);
      }
    }
  }

  lemma StepInOrder(s: State, a: Action, cap: nat, clock: int)
    requires RowsOk(s.rows, cap) && Configured(a, cap) && AllInOrder(s.rows, clock) && clock <= a.now
    ensures AllInOrder(Step(s, a).rows, a.now)
  {
    hide Batch, Backoff, NewEvents, RowsOk;
    match a
    case Queue(_, _, _) =>
    case Dispatch(kind, limit, answers, max, now) =>
      var ids := Batch(s.rows, kind, now, limit);
      DeliverAllInOrder(s.rows, ids, |ids|, answers, max, clock, now);
    case Attempt(id, answer, max, now) =>
    case Webhook(events, now) =>
      var news := NewEvents(s, events);
      ApplyAllInOrder(s.rows, news, |news|, cap, clock, now);
  }

  /** The clock does not go back from one action to the next. */
  ghost predicate Monotone(actions: seq<Action>, clock: int) {
    && (actions != [] ==> clock <= actions[0].now)
    && forall i | 0 < i < |actions| :: actions[i - 1].now <= actions[i].now
  }

  function LastNow(actions: seq<Action>, clock: int): int {
    if actions == [] then clock else actions[|actions| - 1].now
  }

  /** In every run whose clock does not go back, each delivered row was sent no later than it was delivered. */
  lemma {:induction false} RunInOrder(s: State, actions: seq<Action>, cap: nat, clock: int)
    requires RowsOk(s.rows, cap) && AllInOrder(s.rows, clock) && Monotone(actions, clock)
    requires forall i | 0 <= i < |actions| :: Configured(actions[i], cap)
    ensures AllInOrder(Run(s, actions).rows, LastNow(actions, clock))
    decreases |actions|
  {
    hide RowsOk, AllInOrder, Step, Configured;
    if actions != [] {
      StepOk(s, actions[0], cap);
      StepInOrder(s, actions[0], cap, clock);
      RunInOrder(Step(s, actions[0]), actions[1..], cap, actions[0].now);
    }
  }

  // ---------------------------------------------------------------------------------------
  // Duplicated and early webhooks
  // ---------------------------------------------------------------------------------------

  lemma {:induction false} NothingUnseen(events: seq<Event>, n: nat, receipts: set<Event>)
    requires n <= |events| && forall e | e in events :: e in receipts
    ensures Unseen(events, n, receipts) == []
  {
    if n > 0 {
      NothingUnseen(events, n - 1, receipts);
    }
  }

  /** A webhook whose events all have receipts changes nothing and counts all of them as duplicates. */
  lemma KnownEventsDoNothing(s: State, events: seq<Event>, receivedAt: int)
    requires forall e | e in events :: e in s.receipts
    ensures Receive(s, events, receivedAt) == s && Summarize(s, events, receivedAt) == Summary(0, |events|, 0)
  {
    var distinct := Distinct(events, |events|);
    DistinctHasAll(events, |events|);
    assert events[..|events|] == events;
    NothingUnseen(distinct, |distinct|, s.receipts);
  }

  /** A replayed webhook, whenever it comes and whatever happened since, is a no-op. */
  lemma WebhookReplay(s: State, events: seq<Event>, receivedAt: int, between: seq<Action>, again: int)
    ensures var t := Run(Receive(s, events, receivedAt), between);
            Receive(t, events, again) == t && Summarize(t, events, again) == Summary(0, |events|, 0)
  {
    hide Run, Summarize, ApplyAll, NewEvents;
    ReceiptsKept(Receive(s, events, receivedAt), between);
    KnownEventsDoNothing(Run(Receive(s, events, receivedAt), between), events, again);
  }

  lemma {:induction false} ReceiptsKept(s: State, actions: seq<Action>)
    ensures s.receipts <= Run(s, actions).receipts
    decreases |actions|
  {
    hide ApplyAll, DeliverAll, DeliverOne, Batch, NewEvents;
    if actions != [] {
      ReceiptsKept(Step(s, actions[0]), actions[1..]);
    }
  }

  /**
   * A report that arrives before its reference is stored is consumed for good: no later copy
   * of it can reach the row.
   */
  lemma EarlyReportIsLost(s: State, e: Event, receivedAt: int, between: seq<Action>, again: int)
    requires Target(s.rows, e.ref).None? && e !in s.receipts
    ensures Summarize(s, [e], receivedAt) == Summary(0, 0, 1) && Receive(s, [e], receivedAt).rows == s.rows
    ensures var t := Run(Receive(s, [e], receivedAt), between); Receive(t, [e], again) == t
  {
    hide Run, Target;
    assert NewEvents(s, [e]) == [e] by {
      assert Distinct([e], 0) == [] && Distinct([e], 1) == [e];
      assert Unseen([e], 0, s.receipts) == [] && Unseen([e], 1, s.receipts) == [e];
    }
    assert ApplyAll(s.rows, [e], 0, receivedAt) == s.rows && UnmatchedCount(s.rows, [e], 0) == 0 && AppliedCount(s.rows, [e], 0, receivedAt) == 0;
    WebhookReplay(s, [e], receivedAt, between, again);
  }

  // ---------------------------------------------------------------------------------------
  // When a report reaches its row
  // ---------------------------------------------------------------------------------------

  /** What is left after one webhook with one new event. */
  lemma ReceiveOne(s: State, e: Event, receivedAt: int)
    requires e !in s.receipts
    ensures Receive(s, [e], receivedAt)
            == var target := Target(s.rows, e.ref);
               State(if target.None? then s.rows else s.rows[target.value := ApplyStatus(s.rows[target.value], e, receivedAt)], s.receipts + {e})
  {
    hide Target, ApplyStatus;
    assert NewEvents(s, [e]) == [e] by {
      assert Distinct([e], 0) == [] && Distinct([e], 1) == [e];
      assert Unseen([e], 0, s.receipts) == [] && Unseen([e], 1, s.receipts) == [e];
    }
    assert ApplyAll(s.rows, [e], 0, receivedAt) == s.rows;
  }

  /** The report may change the row: it is about that row, and is not a "sent" report. */
  predicate Concerns(rows: seq<Row>, e: Event, i: RowId) {
    e.report != ReportSent && Target(rows, e.ref) == Some(i)
  }

  /** A report finishes a row that has a reference, unless the row is finished already or the report is a "sent" report. */
  lemma ReportFinishesExactly(row: Row, e: Event, receivedAt: int, cap: nat)
    requires RowOk(row, cap) && row.ref.Some?
    ensures var after := ApplyStatus(row, e, receivedAt);
            if Terminal(row.status) || e.report == ReportSent then after == row else Terminal(after.status)
  {
  }

  /** The row takes the first report that concerns it, and that one only. */
  lemma {:induction false} FirstReportCounts(rows: seq<Row>, events: seq<Event>, n: nat, i: RowId, receivedAt: int, cap: nat)
    requires RowsOk(rows, cap) && n <= |events| && i < |rows|
    ensures var after := ApplyAll(rows, events, n, receivedAt);
            if !Terminal(rows[i].status) && exists k | 0 <= k < n :: Concerns(rows, events[k], i)
            then Terminal(after[i].status) else after[i] == rows[i]
  {
    hide LastWithRef, Target, ApplyStatus, RowOk, Terminal, RowsOk;
    if n > 0 {
      FirstReportCounts(rows, events, n - 1, i, receivedAt, cap);
      var before := ApplyAll(rows, events, n - 1, receivedAt);
      if Target(rows, events[n - 1].ref) == Some(i) {
        TargetRowOk(rows, events, n - 1, i, receivedAt, cap);
        ReportFinishesExactly(before[i], events[n - 1], receivedAt, cap);
      }
    }
  }

  lemma TargetRowOk(rows: seq<Row>, events: seq<Event>, n: nat, i: RowId, receivedAt: int, cap: nat)
    requires RowsOk(rows, cap) && n <= |events| && i < |rows| && rows[i].ref.Some?
    ensures var row := ApplyAll(rows, events, n, receivedAt)[i]; RowOk(row, cap) && row.ref.Some?
  {
    hide RowOk, ApplyAll;
    ApplyAllOk(rows, events, n, receivedAt, cap);
    assert Advances(rows[i], ApplyAll(rows, events, n, receivedAt)[i]);
  }

  lemma {:induction false} UnseenExactly(events: seq<Event>, n: nat, receipts: set<Event>, e: Event)
    requires n <= |events|
    ensures e in Unseen(events, n, receipts) <==> e in events[..n] && e !in receipts
  {
    if n > 0 {
      UnseenExactly(events, n - 1, receipts, e);
      assert events[..n] == events[..n - 1] + [events[n - 1]];
    }
  }

  lemma NewEventsExactly(s: State, events: seq<Event>, e: Event)
    ensures e in NewEvents(s, events) <==> e in events && e !in s.receipts
  {
    hide Distinct, Unseen;
    var distinct := Distinct(events, |events|);
    DistinctHasAll(events, |events|);
    UnseenExactly(distinct, |distinct|, s.receipts, e);
    assert events[..|events|] == events && distinct[..|distinct|] == distinct;
  }

  /**
   * A webhook changes a row exactly if the row is not terminal and one of its reports is new,
   * is not a "sent" report, and names a reference that is already stored on this row; the row is
   * then terminal.
   */
  lemma WebhookChangesRowExactly(s: State, events: seq<Event>, receivedAt: int, cap: nat, i: RowId)
    requires RowsOk(s.rows, cap) && i < |s.rows|
    ensures var after := Receive(s, events, receivedAt).rows[i];
            && (after != s.rows[i] <==>
                  !Terminal(s.rows[i].status) && exists e | e in events :: e !in s.receipts && Concerns(s.rows, e, i))
            && (after != s.rows[i] ==> Terminal(after.status))
  {
    hide ApplyAll, Concerns, NewEvents, RowsOk;
    var news := NewEvents(s, events);
    FirstReportCounts(s.rows, news, |news|, i, receivedAt, cap);
    forall e ensures e in news <==> e in events && e !in s.receipts {
      NewEventsExactly(s, events, e);
    }
    if e :| e in events && e !in s.receipts && Concerns(s.rows, e, i) {
      assert e in news;
      var k :| 0 <= k < |news| && news[k] == e;
    }
  }

  /**
   * A new report takes effect exactly if its reference is stored by then on a row that is not
   * terminal: if it is early, or late, nothing changes.
   */
  lemma ReportReachesItsRowExactly(s: State, e: Event, receivedAt: int, cap: nat)
    requires RowsOk(s.rows, cap) && e !in s.receipts && e.report != ReportSent
    ensures Receive(s, [e], receivedAt).rows != s.rows <==>
              Target(s.rows, e.ref).Some? && !Terminal(s.rows[Target(s.rows, e.ref).value].status)
  {
    hide Receive, Target;
    ReceiveOne(s, e, receivedAt);
  }

  lemma RunStep(s: State, a: Action, rest: seq<Action>)
    ensures Run(s, [a] + rest) == Run(Step(s, a), rest)
  {
    hide Step;
    assert ([a] + rest)[1..] == rest;
  }

  lemma {:induction false} RepeatsDoNothing(s: State, e: Event, repeats: seq<Action>)
    requires e in s.receipts && forall i | 0 <= i < |repeats| :: repeats[i].Webhook? && repeats[i].events == [e]
    ensures Run(s, repeats) == s
    decreases |repeats|
  {
    hide Receive, Summarize;
    if repeats != [] {
      KnownEventsDoNothing(s, [e], repeats[0].now);
      RepeatsDoNothing(s, e, repeats[1..]);
    }
  }

  /**
   * A reachable loss: the provider reports delivery between the queueing of a row and the commit
   * of the attempt that stores its reference.  However often the report is repeated after that,
   * the row stays sent; had it come after the commit only, the row would be delivered.
   */
  lemma EarlyReportScenario(repeats: seq<Action>, e: Event)
    requires e.report == ReportDelivered && forall i | 0 <= i < |repeats| :: repeats[i].Webhook? && repeats[i].events == [e]
    ensures var queue, report, attempt := Queue(AlertDelivery, WhatsApp, 0), Webhook([e], 1), Attempt(0, Some(e.ref), 1, 2);
            && (var rows := Run(State([], {}), [queue] + ([report] + ([attempt] + repeats))).rows; |rows| == 1 && rows[0].status == Sent)
            && (var rows := Run(State([], {}), [queue] + ([attempt] + ([report] + repeats))).rows; |rows| == 1 && rows[0].status == Delivered)
  {
    hide Run, Receive;
    var queue, report, attempt := Queue(AlertDelivery, WhatsApp, 0), Webhook([e], 1), Attempt(0, Some(e.ref), 1, 2);
    var queued := State([NewRow(AlertDelivery, WhatsApp, 0)], {});
    assert Step(State([], {}), queue) == queued;
    RunStep(State([], {}), queue, [report] + ([attempt] + repeats));
    RunStep(State([], {}), queue, [attempt] + ([report] + repeats));
    assert Target(queued.rows, e.ref).None?;
    ReceiveOne(queued, e, 1);
    RunStep(queued, report, [attempt] + repeats);
    RunStep(Step(queued, report), attempt, repeats);
    RepeatsDoNothing(Step(Step(queued, report), attempt), e, repeats);
    RunStep(queued, attempt, [report] + repeats);
    var sent := Step(queued, attempt);
    assert sent.rows[0].ref == Some(e.ref) && sent.rows[0].kind == AlertDelivery;
    assert Target(sent.rows, e.ref) == Some(0);
    ReceiveOne(sent, e, 1);
    RunStep(sent, report, repeats);
    RepeatsDoNothing(Step(sent, report), e, repeats);
  }

  lemma {:induction false} CountsAddUp(rows: seq<Row>, events: seq<Event>, n: nat, receivedAt: int)
    requires n <= |events|
    ensures AppliedCount(rows, events, n, receivedAt) + UnmatchedCount(rows, events, n) <= n
  {
    hide ApplyAll, Target;
    if n > 0 {
      CountsAddUp(rows, events, n - 1, receivedAt);
    }
  }

  /** No event is counted twice in a webhook's summary. */
  lemma SummaryAddsUp(s: State, events: seq<Event>, receivedAt: int)
    ensures var summary := Summarize(s, events, receivedAt); summary.accepted + summary.duplicates + summary.unmatched <= |events|
  {
    hide NewEvents;
    var news := NewEvents(s, events);
    CountsAddUp(s.rows, news, |news|, receivedAt);
  }

  // ---------------------------------------------------------------------------------------
  // Batches
  // ---------------------------------------------------------------------------------------

  ghost predicate ByAge(rows: seq<Row>, ids: seq<RowId>)
    requires InRange(rows, ids)
  {
    forall j, k | 0 <= j < k < |ids| :: ids[j] != ids[k] && rows[ids[j]].queuedAt <= rows[ids[k]].queuedAt
  }

  lemma {:induction false} InsertByAge(rows: seq<Row>, ids: seq<RowId>, id: RowId)
    requires InRange(rows, ids) && id < |rows| && ByAge(rows, ids) && id !in ids
    ensures ByAge(rows, Insert(rows, ids, id))
    ensures forall i :: i in Insert(rows, ids, id) <==> i in ids || i == id
  {
    if ids == [] || rows[ids[|ids| - 1]].queuedAt <= rows[id].queuedAt {
      assert forall k | 0 <= k < |ids| :: rows[ids[k]].queuedAt <= rows[id].queuedAt;
    } else {
      var front, last := ids[..|ids| - 1], ids[|ids| - 1];
      InsertByAge(rows, front, id);
      assert ids == front + [last];
      assert last !in front;
      var inserted := Insert(rows, front, id);
      forall k | 0 <= k < |inserted| ensures inserted[k] != last && rows[inserted[k]].queuedAt <= rows[last].queuedAt {
        assert inserted[k] in inserted;
      }
    }
  }

  /** The list holds exactly the due rows among the first `n`. */
  ghost predicate ListsDue(rows: seq<Row>, ids: seq<RowId>, kind: Kind, now: int, n: nat)
    requires n <= |rows|
  {
    forall i: RowId | i < |rows| :: i in ids <==> i < n && Due(rows[i], kind, now)
  }

  lemma {:induction false} DueRowsByAge(rows: seq<Row>, kind: Kind, now: int, n: nat)
    requires n <= |rows|
    ensures ByAge(rows, DueRows(rows, kind, now, n)) && ListsDue(rows, DueRows(rows, kind, now, n), kind, now, n)
  {
    hide ByAge, Insert, Due;
    if n == 0 {
      EmptyByAge(rows);
    } else {
      DueRowsByAge(rows, kind, now, n - 1);
      if Due(rows[n - 1], kind, now) {
        InsertByAge(rows, DueRows(rows, kind, now, n - 1), n - 1);
      }
    }
  }

  lemma EmptyByAge(rows: seq<Row>)
    ensures ByAge(rows, [])
  {
  }

  /** No row of the list is younger than the given one. */
  ghost predicate NoneYounger(rows: seq<Row>, ids: seq<RowId>, i: RowId)
    requires InRange(rows, ids) && i < |rows|
  {
    forall k | 0 <= k < |ids| :: rows[ids[k]].queuedAt <= rows[i].queuedAt
  }

  /** A batch is made of distinct due rows, and no due row outside it is older than one inside. */
  lemma BatchIsOldestDue(rows: seq<Row>, kind: Kind, now: int, limit: nat)
    ensures var ids := Batch(rows, kind, now, limit);
            && |ids| <= limit && ByAge(rows, ids)
            && (forall k | 0 <= k < |ids| :: Due(rows[ids[k]], kind, now))
            && (forall i: RowId | i < |rows| && Due(rows[i], kind, now) && i !in ids :: |ids| == limit && NoneYounger(rows, ids, i))
  {
    hide DueRows, Due;
    var due, ids := DueRows(rows, kind, now, |rows|), Batch(rows, kind, now, limit);
    DueRowsByAge(rows, kind, now, |rows|);
    assert forall k | 0 <= k < |ids| :: ids[k] == due[k] && ids[k] in due;
    forall i: RowId | i < |rows| && Due(rows[i], kind, now) && i !in ids
      ensures |ids| == limit && NoneYounger(rows, ids, i)
    {
      var j :| 0 <= j < |due| && due[j] == i;
      assert j >= |ids|;
    }
  }

  /** Trying the first `n` of a batch of distinct queued rows tries each of them once and no other row. */
  lemma {:induction false} EachIsTriedOnce(rows: seq<Row>, ids: seq<RowId>, n: nat, i: RowId, answers: Answers, max: nat, now: int)
    requires InRange(rows, ids) && n <= |ids| && ByAge(rows, ids) && i < |rows|
    requires forall k | 0 <= k < |ids| :: rows[ids[k]].status == Queued
    ensures DeliverAll(rows, ids, n, answers, max, now)[i]
            == if i in ids[..n] then Attempted(rows[i], Answer(answers, i), max, now) else rows[i]
  {
    hide Attempted, Answer;
    if n > 0 {
      EachIsTriedOnce(rows, ids, n - 1, i, answers, max, now);
      EachIsTriedOnce(rows, ids, n - 1, ids[n - 1], answers, max, now);
      assert ids[..n] == ids[..n - 1] + [ids[n - 1]];
      assert ids[n - 1] !in ids[..n - 1];
    }
  }

  /** A dispatch tries every row of its batch exactly once and touches no other row. */
  lemma DispatchTriesTheBatch(rows: seq<Row>, kind: Kind, now: int, limit: nat, answers: Answers, max: nat, i: RowId)
    requires i < |rows|
    ensures var ids := Batch(rows, kind, now, limit);
            DeliverAll(rows, ids, |ids|, answers, max, now)[i]
            == if i in ids then Attempted(rows[i], Answer(answers, i), max, now) else rows[i]
  {
    hide Attempted, Answer, Batch, DeliverAll, NoneYounger, ByAge;
    BatchIsOldestDue(rows, kind, now, limit);
    var ids := Batch(rows, kind, now, limit);
    assert ids[..|ids|] == ids;
    EachIsTriedOnce(rows, ids, |ids|, i, answers, max, now);
  }

  /** Only a provider's report makes a WhatsApp row delivered; on the other channels acceptance does. */
  lemma OnlyReportsDeliverWhatsApp(s: State, a: Action, i: RowId)
    requires i < |s.rows| && (a.Dispatch? || a.Attempt?) && s.rows[i].status == Queued
    ensures Step(s, a).rows[i].status in (if s.rows[i].channel == WhatsApp then {Queued, Sent, Failed} else {Queued, Delivered, Failed})
  {
    hide Batch, DeliverAll, Backoff;
    match a
    case Dispatch(kind, limit, answers, max, now) => DispatchTriesTheBatch(s.rows, kind, now, limit, answers, max, i);
    case Attempt(_, _, _, _) =>
  }

  // ---------------------------------------------------------------------------------------
  // Waiting between attempts
  // ---------------------------------------------------------------------------------------

  /** A dispatch changes a row exactly if the row is in its batch, and so only a row that is due at that moment. */
  lemma DispatchChangesOnlyDueRows(s: State, kind: Kind, limit: nat, answers: Answers, max: nat, now: int, i: RowId)
    requires i < |s.rows|
    ensures var after := Step(s, Dispatch(kind, limit, answers, max, now)).rows;
            && (after[i] != s.rows[i] <==> i in Batch(s.rows, kind, now, limit))
            && (after[i] != s.rows[i] ==> Due(s.rows[i], kind, now))
  {
    hide Batch, DeliverAll, Due, Backoff;
    BatchIsOldestDue(s.rows, kind, now, limit);
    DispatchTriesTheBatch(s.rows, kind, now, limit, answers, max, i);
  }

  /** The row was refused and is to be tried again at `until`. */
  predicate WaitsUntil(row: Row, until: int) {
    row.status == Queued && row.nextAttempt == Some(until)
  }

  /** After a refusal with attempts left the row waits, and is not due, exactly until the backoff has passed. */
  lemma RefusedRowIsDueExactly(rows: seq<Row>, id: RowId, max: nat, now: int, later: int)
    requires id < |rows| && rows[id].status == Queued && rows[id].attempts + 1 < max
    ensures var failed, until := DeliverOne(rows, id, None, max, now), now + Backoff(rows[id].attempts + 1);
            && now < until && WaitsUntil(failed[id], until)
            && (!Due(failed[id], failed[id].kind, later) <==> later < until)
  {
    BackoffBounds(rows[id].attempts + 1, rows[id].attempts + 1);
  }

  /**
   * During a wait one kind of step changes the row, an attempt out of a batch that was selected
   * earlier: the re-check under the row lock looks at the status only.
   */
  lemma OnlyAStaleAttemptSkipsTheWait(s: State, a: Action, cap: nat, id: RowId, until: int)
    requires RowsOk(s.rows, cap) && id < |s.rows| && WaitsUntil(s.rows[id], until) && a.now < until
    ensures Step(s, a).rows[id] != s.rows[id] <==> a.Attempt? && a.id == id
  {
    hide Batch, Backoff, DeliverAll, Receive;
    match a
    case Queue(_, _, _) =>
    case Dispatch(kind, limit, answers, max, now) => DispatchChangesOnlyDueRows(s, kind, limit, answers, max, now, id);
    case Attempt(_, _, _, _) =>
    case Webhook(events, now) => WebhookChangesRowExactly(s, events, now, cap, id);
  }

  /** A run keeps the wait as long as no such attempt is made, whatever else is dispatched or reported. */
  lemma {:induction false} RunKeepsTheWait(s: State, actions: seq<Action>, cap: nat, id: RowId, until: int)
    requires RowsOk(s.rows, cap) && id < |s.rows| && WaitsUntil(s.rows[id], until)
    requires forall i | 0 <= i < |actions| :: Configured(actions[i], cap) && actions[i].now < until && !(actions[i].Attempt? && actions[i].id == id)
    ensures id < |Run(s, actions).rows| && Run(s, actions).rows[id] == s.rows[id]
    decreases |actions|
  {
    hide RowsOk, Step, Configured, WaitsUntil;
    if actions != [] {
      StepOk(s, actions[0], cap);
      OnlyAStaleAttemptSkipsTheWait(s, actions[0], cap, id, until);
      RunKeepsTheWait(Step(s, actions[0]), actions[1..], cap, id, until);
    }
  }

  /**
   * Two dispatchers select a queued row before either has tried it.  The provider refuses the
   * first; the second tries again, whatever it is answered, and skips the wait exactly if it
   * comes before the backoff has passed.
   */
  lemma StaleBatchSkipsTheWait(rows: seq<Row>, id: RowId, answer: Option<string>, max: nat, now: int, laterMax: nat, later: int)
    requires id < |rows| && rows[id].status == Queued && rows[id].attempts + 1 < max
    ensures var failed := DeliverOne(rows, id, None, max, now);
            && DeliverOne(failed, id, answer, laterMax, later)[id].attempts == rows[id].attempts + 2
            && (!Due(failed[id], failed[id].kind, later) <==> later < now + Backoff(rows[id].attempts + 1))
  {
    hide Backoff;
    RefusedRowIsDueExactly(rows, id, max, now, later);
  }

  // ---------------------------------------------------------------------------------------
  // What a webhook does to a row
  // ---------------------------------------------------------------------------------------

  /** The first of the first `n` events that satisfies the predicate. */
  function FirstSuch(events: seq<Event>, n: nat, p: Event -> bool): Option<Event>
    requires n <= |events|
  {
    if n == 0 then None
    else
      var earlier := FirstSuch(events, n - 1, p);
      if earlier.Some? then earlier else if p(events[n - 1]) then Some(events[n - 1]) else None
  }

  /** The event has no receipt yet, is not a "sent" report, and names the reference stored on the row. */
  function NewReportOn(s: State, i: RowId): Event -> bool {
    (e: Event) => e !in s.receipts && Concerns(s.rows, e, i)
  }

  lemma {:induction false} FirstSuchExactly(events: seq<Event>, n: nat, p: Event -> bool)
    requires n <= |events|
    ensures FirstSuch(events, n, p).None? <==> forall e | e in events[..n] :: !p(e)
    ensures FirstSuch(events, n, p).Some? ==> FirstSuch(events, n, p).value in events[..n] && p(FirstSuch(events, n, p).value)
  {
    if n > 0 {
      FirstSuchExactly(events, n - 1, p);
      assert events[..n] == events[..n - 1] + [events[n - 1]];
    }
  }

  lemma FirstOfOneMore(events: seq<Event>, e: Event, p: Event -> bool)
    ensures FirstSuch(events + [e], |events| + 1, p)
         == if FirstSuch(events, |events|, p).Some? then FirstSuch(events, |events|, p) else if p(e) then Some(e) else None
  {
    FirstOfPrefix(events, [e], |events|, p);
  }

  lemma {:induction false} FirstOfPrefix(events: seq<Event>, more: seq<Event>, n: nat, p: Event -> bool)
    requires n <= |events|
    ensures FirstSuch(events + more, n, p) == FirstSuch(events, n, p)
  {
    if n > 0 {
      FirstOfPrefix(events, more, n - 1, p);
    }
  }

  /** Dropping repeats does not change which event comes first. */
  lemma {:induction false} FirstOfDistinct(events: seq<Event>, n: nat, p: Event -> bool)
    requires n <= |events|
    ensures FirstSuch(Distinct(events, n), |Distinct(events, n)|, p) == FirstSuch(events, n, p)
  {
    if n > 0 {
      FirstOfDistinct(events, n - 1, p);
      var before := Distinct(events, n - 1);
      if events[n - 1] in before {
        FirstSuchExactly(before, |before|, p);
        assert before[..|before|] == before;
      } else {
        FirstOfOneMore(before, events[n - 1], p);
      }
    }
  }

  lemma {:induction false} FirstOfUnseen(events: seq<Event>, n: nat, receipts: set<Event>, p: Event -> bool, q: Event -> bool)
    requires n <= |events| && forall e :: q(e) <==> e !in receipts && p(e)
    ensures FirstSuch(Unseen(events, n, receipts), |Unseen(events, n, receipts)|, p) == FirstSuch(events, n, q)
  {
    if n > 0 {
      FirstOfUnseen(events, n - 1, receipts, p, q);
      if events[n - 1] !in receipts {
        FirstOfOneMore(Unseen(events, n - 1, receipts), events[n - 1], p);
      } else {
        assert Unseen(events, n, receipts) == Unseen(events, n - 1, receipts);
      }
    }
  }

  /** The row takes the first event that concerns it, and that one only. */
  lemma {:induction false} RowTakesFirst(rows: seq<Row>, events: seq<Event>, n: nat, i: RowId, p: Event -> bool, receivedAt: int, cap: nat)
    requires RowsOk(rows, cap) && n <= |events| && i < |rows| && forall e :: p(e) <==> Concerns(rows, e, i)
    ensures var first := FirstSuch(events, n, p);
            ApplyAll(rows, events, n, receivedAt)[i] == if first.Some? then ApplyStatus(rows[i], first.value, receivedAt) else rows[i]
  {
    hide LastWithRef, Target, ApplyStatus, RowOk, RowsOk;
    if n > 0 {
      RowTakesFirst(rows, events, n - 1, i, p, receivedAt, cap);
      var e := events[n - 1];
      if Target(rows, e.ref) == Some(i) {
        TargetRowOk(rows, events, n - 1, i, receivedAt, cap);
        TargetRowOk(rows, events, 0, i, receivedAt, cap);
        ReportFinishesExactly(ApplyAll(rows, events, n - 1, receivedAt)[i], e, receivedAt, cap);
        var first := FirstSuch(events, n - 1, p);
        FirstSuchExactly(events, n - 1, p);
        if first.Some? {
          ReportFinishesExactly(rows[i], first.value, receivedAt, cap);
        }
      }
    }
  }

  /** When a delivery is dated: at the report's own time, or its receipt if that is missing or before the send time. */
  function DeliveryTime(sentAt: int, e: Event, receivedAt: int): int {
    if e.at.None? || e.at.value < sentAt then receivedAt else e.at.value
  }

  /**
   * What a webhook does to a row, whatever else it carries.  The first new report on the row decides:
   * a "failed" one leaves it failed, a "delivered" or "read" one delivered and dated; any other row,
   * and any row that is already terminal, stays as it is.
   */
  lemma WebhookDecidesRow(s: State, events: seq<Event>, receivedAt: int, cap: nat, i: RowId)
    requires RowsOk(s.rows, cap) && i < |s.rows|
    ensures var row, after, first := s.rows[i], Receive(s, events, receivedAt).rows[i], FirstSuch(events, |events|, NewReportOn(s, i));
            if row.status == Delivered || row.status == Failed || first.None? then after == row
            else if first.value.report == ReportFailed then after == row.(status := Failed, nextAttempt := None)
            else
              && first.value.report in {ReportDelivered, ReportRead} && row.sentAt.Some?
              && after == row.(status := Delivered, deliveredAt := Some(DeliveryTime(row.sentAt.value, first.value, receivedAt)), nextAttempt := None)
  {
    hide Distinct, Unseen, ApplyAll, FirstSuch, LastWithRef, RowsOk, Target;
    var news, distinct := NewEvents(s, events), Distinct(events, |events|);
    var p := (e: Event) => Concerns(s.rows, e, i);
    RowTakesFirst(s.rows, news, |news|, i, p, receivedAt, cap);
    FirstOfUnseen(distinct, |distinct|, s.receipts, p, NewReportOn(s, i));
    FirstOfDistinct(events, |events|, NewReportOn(s, i));
    FirstSuchExactly(events, |events|, NewReportOn(s, i));
    assert RowOk(s.rows[i], cap) by {
      assert RowsOk(s.rows, cap);
      RowOfRows(s.rows, cap, i);
    }
  }

  lemma RowOfRows(rows: seq<Row>, cap: nat, i: RowId)
    requires RowsOk(rows, cap) && i < |rows|
    ensures RowOk(rows[i], cap)
  {
  }

  /**
   * For a row that is not terminal and has a reference, about which a new report comes: it ends
   * failed, without a delivery time, exactly if the first such report is a "failed" one, and
   * delivered exactly if it is a "delivered" or "read" one.
   */
  lemma FirstReportDecides(s: State, events: seq<Event>, receivedAt: int, cap: nat, i: RowId)
    requires RowsOk(s.rows, cap) && i < |s.rows| && s.rows[i].status == Sent
    requires FirstSuch(events, |events|, NewReportOn(s, i)).Some?
    ensures var after, report := Receive(s, events, receivedAt).rows[i], FirstSuch(events, |events|, NewReportOn(s, i)).value.report;
            && (after.status == Failed <==> report == ReportFailed)
            && (after.status == Delivered <==> report == ReportDelivered || report == ReportRead)
            && (after.status == Failed ==> after.deliveredAt.None?)
  {
    hide Receive, FirstSuch, NewReportOn;
    WebhookDecidesRow(s, events, receivedAt, cap, i);
  }

  /** The event reports that something with the row's reference was delivered or read. */
  predicate ReportsDelivery(e: Event, row: Row) {
    (e.report == ReportDelivered || e.report == ReportRead) && row.ref == Some(e.ref)
  }

  lemma StepDelivers(s: State, a: Action, cap: nat, i: RowId)
    requires RowsOk(s.rows, cap) && Configured(a, cap) && i < |s.rows| && s.rows[i].channel == WhatsApp && s.rows[i].status != Delivered
    requires Step(s, a).rows[i].status == Delivered
    ensures a.Webhook? && exists e | e in a.events :: ReportsDelivery(e, s.rows[i])
  {
    hide Batch, Backoff, DeliverAll, Receive, RowsOk, FirstSuch;
    match a
    case Queue(_, _, _) =>
    case Dispatch(kind, limit, answers, max, now) => DispatchTriesTheBatch(s.rows, kind, now, limit, answers, max, i);
    case Attempt(_, _, _, _) =>
    case Webhook(events, now) =>
      WebhookDecidesRow(s, events, now, cap, i);
      FirstSuchExactly(events, |events|, NewReportOn(s, i));
      assert events[..|events|] == events;
      var e := FirstSuch(events, |events|, NewReportOn(s, i)).value;
      assert ReportsDelivery(e, s.rows[i]);
  }

  /** In every run a WhatsApp row becomes delivered only if a webhook reports its reference as delivered or read. */
  lemma {:induction false} DeliveredOnlyIfReported(s: State, actions: seq<Action>, cap: nat, i: RowId)
    requires RowsOk(s.rows, cap) && forall k | 0 <= k < |actions| :: Configured(actions[k], cap)
    requires i < |s.rows| && s.rows[i].channel == WhatsApp && s.rows[i].status != Delivered
    requires i < |Run(s, actions).rows| && Run(s, actions).rows[i].status == Delivered
    ensures exists k | 0 <= k < |actions| :: actions[k].Webhook? && exists e | e in actions[k].events :: ReportsDelivery(e, Run(s, actions).rows[i])
    decreases |actions|
  {
    hide RowsOk, Step, Configured, AllAdvance;
    var t := Step(s, actions[0]);
    StepOk(s, actions[0], cap);
    RunOk(t, actions[1..], cap);
    AdvancedRow(s.rows, t.rows, i);
    AdvancedRow(t.rows, Run(s, actions).rows, i);
    if t.rows[i].status == Delivered {
      StepDelivers(s, actions[0], cap, i);
      var e :| e in actions[0].events && ReportsDelivery(e, s.rows[i]);
      assert ReportsDelivery(e, Run(s, actions).rows[i]);
    } else {
      DeliveredOnlyIfReported(t, actions[1..], cap, i);
      var k :| 0 <= k < |actions[1..]| && actions[1..][k].Webhook? && exists e | e in actions[1..][k].events :: ReportsDelivery(e, Run(s, actions).rows[i]);
      assert actions[k + 1] == actions[1..][k];
    }
  }

  lemma AdvancedRow(before: seq<Row>, after: seq<Row>, i: RowId)
    requires AllAdvance(before, after) && i < |before|
    ensures i < |after| && Advances(before[i], after[i])
  {
  }

  // ---------------------------------------------------------------------------------------
  // What an attempt does to a row
  // ---------------------------------------------------------------------------------------

  /** What became of a queued row that was tried at `now`. */
  predicate IsTried(row: Row, answer: Option<string>, max: nat, now: int, after: Row) {
    && after.attempts == row.attempts + 1 && after.lastAttempt == Some(now) && after.queuedAt == row.queuedAt
    && after.kind == row.kind && after.channel == row.channel
    && if answer.Some? then
         && after.ref == answer && after.sentAt == Some(now) && after.nextAttempt.None?
         && if row.channel == WhatsApp then after.status == Sent && after.deliveredAt.None? else after.status == Delivered && after.deliveredAt == Some(now)
       else
         && after.ref == row.ref && after.sentAt == row.sentAt && after.deliveredAt == row.deliveredAt
         && if row.attempts + 1 < max then after.status == Queued && after.nextAttempt == Some(now + Backoff(row.attempts + 1))
            else after.status == Failed && after.nextAttempt.None?
  }

  /**
   * A dispatch tries exactly its batch: each of these rows is sent or delivered if the provider
   * accepts it, and otherwise queued again with a wait, or failed when no attempt is left.
   */
  lemma DispatchOutcome(s: State, kind: Kind, limit: nat, answers: Answers, max: nat, now: int, i: RowId)
    requires i < |s.rows|
    ensures var row, after := s.rows[i], Step(s, Dispatch(kind, limit, answers, max, now)).rows[i];
            if i in Batch(s.rows, kind, now, limit) then IsTried(row, if i in answers then Some(answers[i]) else None, max, now, after) else after == row
    ensures i in Batch(s.rows, kind, now, limit) ==>
              s.rows[i].kind == kind && s.rows[i].status == Queued && (s.rows[i].nextAttempt.Some? ==> s.rows[i].nextAttempt.value <= now)
    ensures (s.rows[i].kind == kind && s.rows[i].status == Queued && (s.rows[i].nextAttempt.Some? ==> s.rows[i].nextAttempt.value <= now)
             && i !in Batch(s.rows, kind, now, limit)) ==> |Batch(s.rows, kind, now, limit)| == limit
  {
    hide Batch, DeliverAll, Backoff;
    DispatchTriesTheBatch(s.rows, kind, now, limit, answers, max, i);
    BatchIsOldestDue(s.rows, kind, now, limit);
  }

  /** An attempt out of an older batch tries its row exactly if it is still queued, and no other row. */
  lemma AttemptOutcome(s: State, id: RowId, answer: Option<string>, max: nat, now: int, i: RowId)
    requires i < |s.rows|
    ensures var row, after := s.rows[i], Step(s, Attempt(id, answer, max, now)).rows[i];
            if i == id && row.status == Queued then IsTried(row, answer, max, now, after) else after == row
  {
    hide Backoff;
  }

  // ---------------------------------------------------------------------------------------
  // What the counters say
  // ---------------------------------------------------------------------------------------

  /** A dispatch counts the rows that it sent: those of its batch that the providers accepted. */
  lemma DispatchCounts(rows: seq<Row>, kind: Kind, now: int, limit: nat, answers: Answers, max: nat)
    ensures var ids := Batch(rows, kind, now, limit);
            AcceptedCount(rows, ids, |ids|, answers, max, now) == |Where(ids, (i: RowId) => i in answers)|
  {
    hide Batch, NoneYounger, AcceptedCount, DeliverAll;
    BatchIsOldestDue(rows, kind, now, limit);
    var ids := Batch(rows, kind, now, limit);
    BatchCounts(rows, ids, |ids|, answers, max, now, (i: RowId) => i in answers);
    assert ids[..|ids|] == ids;
  }

  lemma {:induction false} BatchCounts(rows: seq<Row>, ids: seq<RowId>, n: nat, answers: Answers, max: nat, now: int, p: RowId -> bool)
    requires InRange(rows, ids) && n <= |ids| && ByAge(rows, ids) && forall k | 0 <= k < |ids| :: rows[ids[k]].status == Queued
    requires forall i :: p(i) <==> i in answers
    ensures AcceptedCount(rows, ids, n, answers, max, now) == |Where(ids[..n], p)|
  {
    hide DeliverAll, Where;
    if n == 0 {
      NothingWhere(ids, p);
    } else {
      BatchCounts(rows, ids, n - 1, answers, max, now, p);
      EachIsTriedOnce(rows, ids, n - 1, ids[n - 1], answers, max, now);
      assert ids[n - 1] !in ids[..n - 1];
      assert ids[..n] == ids[..n - 1] + [ids[n - 1]];
      WhereOneMore(ids[..n - 1], ids[n - 1], p);
    }
  }

  lemma NothingWhere<T>(s: seq<T>, p: T -> bool)
    ensures Where(s[..0], p) == {}
  {
  }

  lemma {:induction false} DistinctHasNoRepeats(events: seq<Event>, n: nat)
    requires n <= |events|
    ensures NoRepeats(Distinct(events, n))
  {
    if n > 0 {
      DistinctHasNoRepeats(events, n - 1);
      if events[n - 1] !in Distinct(events, n - 1) {
        OneMoreHasNoRepeats(Distinct(events, n - 1), events[n - 1]);
      }
    }
  }

  lemma {:induction false} UnseenHasNoRepeats(events: seq<Event>, n: nat, receipts: set<Event>)
    requires n <= |events| && NoRepeats(events)
    ensures NoRepeats(Unseen(events, n, receipts))
  {
    if n > 0 {
      UnseenHasNoRepeats(events, n - 1, receipts);
      UnseenExactly(events, n - 1, receipts, events[n - 1]);
      assert events[n - 1] !in events[..n - 1];
      if events[n - 1] !in receipts {
        OneMoreHasNoRepeats(Unseen(events, n - 1, receipts), events[n - 1]);
      } else {
        assert Unseen(events, n, receipts) == Unseen(events, n - 1, receipts);
      }
    }
  }

  lemma {:induction false} UnmatchedExactly(rows: seq<Row>, events: seq<Event>, n: nat, p: Event -> bool)
    requires n <= |events| && NoRepeats(events) && forall e :: p(e) <==> Target(rows, e.ref).None?
    ensures UnmatchedCount(rows, events, n) == |Where(events[..n], p)|
  {
    hide Target, Where;
    if n == 0 {
      NothingWhere(events, p);
    } else {
      UnmatchedExactly(rows, events, n - 1, p);
      assert events[..n] == events[..n - 1] + [events[n - 1]] && events[n - 1] !in events[..n - 1];
      WhereOneMore(events[..n - 1], events[n - 1], p);
    }
  }

  /** The rows that the first `n` events have changed. */
  ghost function Changed(rows: seq<Row>, events: seq<Event>, n: nat, receivedAt: int): set<RowId>
    requires n <= |events|
  {
    set i: RowId | i < |rows| && ApplyAll(rows, events, n, receivedAt)[i] != rows[i]
  }

  lemma {:induction false} AppliedAreChanged(rows: seq<Row>, events: seq<Event>, n: nat, receivedAt: int, cap: nat)
    requires RowsOk(rows, cap) && n <= |events|
    ensures AppliedCount(rows, events, n, receivedAt) == |Changed(rows, events, n, receivedAt)|
  {
    hide LastWithRef, Target, ApplyStatus, RowOk, RowsOk, Concerns;
    if n == 0 {
      assert Changed(rows, events, 0, receivedAt) == {};
    } else {
      AppliedAreChanged(rows, events, n - 1, receivedAt, cap);
      var before, after, target := ApplyAll(rows, events, n - 1, receivedAt), ApplyAll(rows, events, n, receivedAt), Target(rows, events[n - 1].ref);
      if target.Some? {
        var i := target.value;
        TargetRowOk(rows, events, n - 1, i, receivedAt, cap);
        ReportFinishesExactly(before[i], events[n - 1], receivedAt, cap);
        AppliesExactly(before[i], events[n - 1].report, cap);
        FirstReportCounts(rows, events, n - 1, i, receivedAt, cap);
        assert forall j | 0 <= j < |rows| && j != i :: after[j] == before[j];
        if Applies(before[i], events[n - 1].report) {
          assert before[i] == rows[i] && after[i] != rows[i];
          assert Changed(rows, events, n, receivedAt) == Changed(rows, events, n - 1, receivedAt) + {i};
        } else {
          assert after[i] == before[i];
          assert Changed(rows, events, n, receivedAt) == Changed(rows, events, n - 1, receivedAt);
        }
      } else {
        assert after == before;
      }
    }
  }

  lemma AppliesExactly(row: Row, report: Report, cap: nat)
    requires RowOk(row, cap) && row.ref.Some?
    ensures Applies(row, report) <==> !Terminal(row.status) && report != ReportSent
  {
  }

  /**
   * A webhook's summary counts what it says: the rows it changed, its events that were new but
   * matched no row, and all its events that were not new.
   */
  lemma SummaryExactly(s: State, events: seq<Event>, receivedAt: int, cap: nat)
    requires RowsOk(s.rows, cap)
    ensures var summary, after := Summarize(s, events, receivedAt), Receive(s, events, receivedAt).rows;
            && |after| == |s.rows|
            && summary.accepted == |set i: RowId | i < |s.rows| && after[i] != s.rows[i]|
            && summary.unmatched == |set e | e in events && e !in s.receipts && Target(s.rows, e.ref).None?|
            && summary.duplicates == |events| - |set e | e in events && e !in s.receipts|
  {
    hide Distinct, Unseen, ApplyAll, AppliedCount, UnmatchedCount, Target, RowsOk, NoRepeats;
    var distinct, news := Distinct(events, |events|), NewEvents(s, events);
    DistinctHasNoRepeats(events, |events|);
    UnseenHasNoRepeats(distinct, |distinct|, s.receipts);
    forall e ensures e in news <==> e in events && e !in s.receipts {
      NewEventsExactly(s, events, e);
    }
    assert news[..|news|] == news;
    AppliedAreChanged(s.rows, news, |news|, receivedAt, cap);
    var p := (e: Event) => Target(s.rows, e.ref).None?;
    UnmatchedExactly(s.rows, news, |news|, p);
    SizeWithoutRepeats(news);
    assert Where(news, (e: Event) => true) == set e | e in events && e !in s.receipts;
    assert Where(news, p) == set e | e in events && e !in s.receipts && Target(s.rows, e.ref).None?;
  }

  /** A report is about the last alert delivery with its reference, or else the last such correction delivery. */
  lemma TargetExactly(rows: seq<Row>, ref: string, i: RowId)
    ensures Target(rows, ref) == Some(i) <==>
              && i < |rows| && rows[i].ref == Some(ref)
              && (forall j | i < j < |rows| && rows[j].kind == rows[i].kind :: rows[j].ref != Some(ref))
              && (rows[i].kind == CorrectionDelivery ==> forall j | 0 <= j < |rows| && rows[j].kind == AlertDelivery :: rows[j].ref != Some(ref))
  {
    LastWithRefExactly(rows, AlertDelivery, ref, |rows|);
    LastWithRefExactly(rows, CorrectionDelivery, ref, |rows|);
  }

  lemma {:induction false} LastWithRefExactly(rows: seq<Row>, kind: Kind, ref: string, n: nat)
    requires n <= |rows|
    ensures LastWithRef(rows, kind, ref, n).Some? ==>
              forall j | LastWithRef(rows, kind, ref, n).value < j < n && rows[j].kind == kind :: rows[j].ref != Some(ref)
  {
    if n > 0 {
      LastWithRefExactly(rows, kind, ref, n - 1);
    }
  }
}
