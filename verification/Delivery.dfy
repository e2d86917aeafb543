/**
 * Customer deliveries: the dispatcher with its retries (delivery.py:259-373, 429-544) and the
 * provider webhook (whatsapp.py:93-222), which change the same rows.
 *
 * The alert and the correction tables have the same columns and the same code; a row's kind
 * says which table it is in.  What a provider answers to one attempt is a parameter.
 */
module Delivery {
  import opened Common

  datatype Kind = AlertDelivery | CorrectionDelivery

  datatype Channel = Email | Telegram | WhatsApp

  datatype Status = Queued | Sent | Delivered | Failed

  datatype Row = Row(kind: Kind, channel: Channel, status: Status, attempts: nat, queuedAt: int, lastAttempt: Option<int>,
                     nextAttempt: Option<int>, sentAt: Option<int>, deliveredAt: Option<int>, ref: Option<string>)

  type RowId = nat

  predicate Terminal(status: Status) {
    status.Delivered? || status.Failed?
  }

  // ---------------------------------------------------------------------------------------
  // One attempt
  // ---------------------------------------------------------------------------------------

  function Pow2(n: nat): nat {
    if n == 0 then 1 else 2 * Pow2(n - 1)
  }

  /** Seconds to wait after the given number of failed attempts. */
  function Backoff(attempts: nat): int
    requires attempts >= 1
  {
    var delay := 60 * Pow2(attempts - 1);
    if delay <= 3600 then delay else 3600
  }

  /** A queued row after an attempt that the provider accepted under a reference, or refused. */
  function Attempted(row: Row, ref: Option<string>, max: nat, now: int): Row {
    var tried := row.(attempts := row.attempts + 1, lastAttempt := Some(now));
    if ref.Some? then
      tried.(status := if row.channel == WhatsApp then Sent else Delivered, sentAt := Some(now),
             deliveredAt := if row.channel == WhatsApp then None else Some(now), ref := ref, nextAttempt := None)
    else if tried.attempts >= max then tried.(status := Failed, nextAttempt := None)
    else tried.(status := Queued, nextAttempt := Some(now + Backoff(tried.attempts)))
  }

  function DeliverOne(rows: seq<Row>, id: RowId, ref: Option<string>, max: nat, now: int): seq<Row>
    requires id < |rows|
  {
    if rows[id].status == Queued then rows[id := Attempted(rows[id], ref, max, now)] else rows
  }

  // ---------------------------------------------------------------------------------------
  // One dispatch
  // ---------------------------------------------------------------------------------------

  predicate Due(row: Row, kind: Kind, now: int) {
    row.kind == kind && row.status == Queued && (row.nextAttempt.None? || row.nextAttempt.value <= now)
  }

  predicate InRange(rows: seq<Row>, ids: seq<RowId>) {
    forall k | 0 <= k < |ids| :: ids[k] < |rows|
  }

  /** Inserts a row behind the rows that were queued no later. */
  function Insert(rows: seq<Row>, ids: seq<RowId>, id: RowId): (r: seq<RowId>)
    requires InRange(rows, ids) && id < |rows|
    ensures InRange(rows, r)
  {
    if ids == [] || rows[ids[|ids| - 1]].queuedAt <= rows[id].queuedAt then ids + [id]
    else Insert(rows, ids[..|ids| - 1], id) + [ids[|ids| - 1]]
  }

  /** The due rows among the first `n`, oldest first. */
  function DueRows(rows: seq<Row>, kind: Kind, now: int, n: nat): (ids: seq<RowId>)
    requires n <= |rows|
    ensures InRange(rows, ids)
  {
    if n == 0 then []
    else if Due(rows[n - 1], kind, now) then Insert(rows, DueRows(rows, kind, now, n - 1), n - 1)
    else DueRows(rows, kind, now, n - 1)
  }

  function Batch(rows: seq<Row>, kind: Kind, now: int, limit: nat): (ids: seq<RowId>)
    ensures InRange(rows, ids)
  {
    var due := DueRows(rows, kind, now, |rows|);
    if |due| <= limit then due else due[..limit]
  }

  /** The providers' answers in one dispatch: the references of the attempts they accept. */
  type Answers = map<RowId, string>

  function Answer(answers: Answers, id: RowId): Option<string> {
    if id in answers then Some(answers[id]) else None
  }

  /** The rows after attempting the first `n` of a batch. */
  function DeliverAll(rows: seq<Row>, ids: seq<RowId>, n: nat, answers: Answers, max: nat, now: int): (after: seq<Row>)
    requires InRange(rows, ids) && n <= |ids|
    ensures |after| == |rows|
  {
    if n == 0 then rows else DeliverOne(DeliverAll(rows, ids, n - 1, answers, max, now), ids[n - 1], Answer(answers, ids[n - 1]), max, now)
  }

  /** How many of the first `n` attempts of a batch the providers accepted. */
  function AcceptedCount(rows: seq<Row>, ids: seq<RowId>, n: nat, answers: Answers, max: nat, now: int): nat
    requires InRange(rows, ids) && n <= |ids|
  {
    if n == 0 then 0
    else AcceptedCount(rows, ids, n - 1, answers, max, now)
         + if DeliverAll(rows, ids, n - 1, answers, max, now)[ids[n - 1]].status == Queued && ids[n - 1] in answers then 1 else 0
  }

  // ---------------------------------------------------------------------------------------
  // The webhook
  // ---------------------------------------------------------------------------------------

  datatype Report = ReportSent | ReportDelivered | ReportRead | ReportFailed

  /** `at` is the time read from the raw `stamp`, if it can be read; a receipt's hash covers the whole event. */
  datatype Event = Event(ref: string, report: Report, stamp: string, at: Option<int>, errors: string)

  /** Does the report change the row? */
  predicate Applies(row: Row, report: Report) {
    !Terminal(row.status) && (report == ReportSent ==> row.status == Queued)
  }

  function ApplyStatus(row: Row, e: Event, receivedAt: int): Row {
    if !Applies(row, e.report) then row
    else
      var timestamp := if e.at.Some? then e.at.value else receivedAt;
      match e.report
      case ReportSent => row.(status := Sent, sentAt := Some(timestamp))
      case ReportFailed => row.(status := Failed, nextAttempt := None)
      case _ =>
        var sent := if row.sentAt.Some? then row.sentAt.value else timestamp;
        row.(status := Delivered, sentAt := Some(sent), deliveredAt := Some(if timestamp >= sent then timestamp else receivedAt),
             nextAttempt := None)
  }

  /** The first occurrences among the first `n` events. */
  function Distinct(events: seq<Event>, n: nat): seq<Event>
    requires n <= |events|
  {
    if n == 0 then []
    else if events[n - 1] in Distinct(events, n - 1) then Distinct(events, n - 1)
    else Distinct(events, n - 1) + [events[n - 1]]
  }

  /** The events without a receipt, among the first `n`. */
  function Unseen(events: seq<Event>, n: nat, receipts: set<Event>): seq<Event>
    requires n <= |events|
  {
    if n == 0 then []
    else Unseen(events, n - 1, receipts) + if events[n - 1] in receipts then [] else [events[n - 1]]
  }

  /** The last row of a table that carries the reference, among the first `n` rows. */
  function LastWithRef(rows: seq<Row>, kind: Kind, ref: string, n: nat): (id: Option<RowId>)
    requires n <= |rows|
    ensures id.Some? ==> id.value < n && rows[id.value].kind == kind && rows[id.value].ref == Some(ref)
    ensures id.None? ==> forall i | 0 <= i < n :: rows[i].kind != kind || rows[i].ref != Some(ref)
  {
    if n == 0 then None
    else if rows[n - 1].kind == kind && rows[n - 1].ref == Some(ref) then Some(n - 1)
    else LastWithRef(rows, kind, ref, n - 1)
  }

  /** The row an event is about: an alert delivery if there is one, else a correction delivery. */
  function Target(rows: seq<Row>, ref: string): (id: Option<RowId>)
    ensures id.Some? ==> id.value < |rows| && rows[id.value].ref == Some(ref)
  {
    var alert := LastWithRef(rows, AlertDelivery, ref, |rows|);
    if alert.Some? then alert else LastWithRef(rows, CorrectionDelivery, ref, |rows|)
  }

  /** The rows after the first `n` new events, each applied to the row its reference named at the start. */
  function ApplyAll(rows: seq<Row>, events: seq<Event>, n: nat, receivedAt: int): (after: seq<Row>)
    requires n <= |events|
    ensures |after| == |rows|
  {
    if n == 0 then rows
    else
      var before, target := ApplyAll(rows, events, n - 1, receivedAt), Target(rows, events[n - 1].ref);
      if target.None? then before else before[target.value := ApplyStatus(before[target.value], events[n - 1], receivedAt)]
  }

  function UnmatchedCount(rows: seq<Row>, events: seq<Event>, n: nat): nat
    requires n <= |events|
  {
    if n == 0 then 0 else UnmatchedCount(rows, events, n - 1) + if Target(rows, events[n - 1].ref).None? then 1 else 0
  }

  function AppliedCount(rows: seq<Row>, events: seq<Event>, n: nat, receivedAt: int): nat
    requires n <= |events|
  {
    if n == 0 then 0
    else
      var before, target := ApplyAll(rows, events, n - 1, receivedAt), Target(rows, events[n - 1].ref);
      AppliedCount(rows, events, n - 1, receivedAt)
      + if target.Some? && Applies(before[target.value], events[n - 1].report) then 1 else 0
  }

  datatype Summary = Summary(accepted: nat, duplicates: int, unmatched: nat)

  datatype State = State(rows: seq<Row>, receipts: set<Event>)

  function NewEvents(s: State, events: seq<Event>): seq<Event> {
    var distinct := Distinct(events, |events|);
    Unseen(distinct, |distinct|, s.receipts)
  }

  function Receive(s: State, events: seq<Event>, receivedAt: int): State {
    var news := NewEvents(s, events);
    State(ApplyAll(s.rows, news, |news|, receivedAt), s.receipts + set e | e in events)
  }

  function Summarize(s: State, events: seq<Event>, receivedAt: int): Summary {
    var news := NewEvents(s, events);
    Summary(AppliedCount(s.rows, news, |news|, receivedAt), |events| - |news|, UnmatchedCount(s.rows, news, |news|))
  }

  /** Dropping repeats drops no event. */
  lemma {:induction false} DistinctHasAll(events: seq<Event>, n: nat)
    requires n <= |events|
    ensures |Distinct(events, n)| <= n
    ensures forall e :: e in Distinct(events, n) <==> e in events[..n]
  {
    if n > 0 {
      DistinctHasAll(events, n - 1);
      assert events[..n] == events[..n - 1] + [events[n - 1]];
    }
  }

  // ---------------------------------------------------------------------------------------
  // Both actors as the code runs them
  // ---------------------------------------------------------------------------------------

  datatype DeliveryError = DeliveryNotFound

  class Outbox {
    var rows: seq<Row>
    var receipts: set<Event>

    method DeliverRow(enabled: bool, id: RowId, ref: Option<string>, max: nat, now: int) returns (result: Result<bool, DeliveryError>)
      modifies this`rows
      ensures result.Err? <==> enabled && id >= |old(rows)|
      ensures rows == if enabled && id < |old(rows)| then DeliverOne(old(rows), id, ref, max, now) else old(rows)
      ensures result.Ok? ==> (result.value <==> enabled && old(rows)[id].status == Queued && ref.Some?)
    {
      if !enabled {
        return Ok(false);
      }
      if id >= |rows| {
        return Err(DeliveryNotFound);
      }
      if rows[id].status != Queued {
        return Ok(false);
      }
      var row := rows[id].(attempts := rows[id].attempts + 1, lastAttempt := Some(now));
      if ref.Some? {
        row := row.(sentAt := Some(now));
        if row.channel == WhatsApp {
          row := row.(status := Sent, deliveredAt := None);
        } else {
          row := row.(status := Delivered, deliveredAt := Some(now));
        }
        row := row.(ref := ref, nextAttempt := None);
      } else if row.attempts >= max {
        row := row.(status := Failed, nextAttempt := None);
      } else {
        row := row.(status := Queued, nextAttempt := Some(now + Backoff(row.attempts)));
      }
      rows := rows[id := row];
      return Ok(row.status == Sent || row.status == Delivered);
    }

    method SelectDue(kind: Kind, now: int, limit: nat) returns (ids: seq<RowId>)
      ensures ids == Batch(rows, kind, now, limit)
    {
      ids := [];
      for i := 0 to |rows|
        invariant ids == DueRows(rows, kind, now, i)
      {
        if Due(rows[i], kind, now) {
          ids := Insert(rows, ids, i);
        }
      }
      if |ids| > limit {
        ids := ids[..limit];
      }
    }

    method DispatchPending(kind: Kind, enabled: bool, limit: nat, answers: Answers, max: nat, now: int) returns (delivered: nat)
      modifies this`rows
      ensures !enabled ==> rows == old(rows) && delivered == 0
      ensures enabled ==>
                var ids := Batch(old(rows), kind, now, limit);
                && rows == DeliverAll(old(rows), ids, |ids|, answers, max, now)
                && delivered == AcceptedCount(old(rows), ids, |ids|, answers, max, now)
    {
      delivered := 0;
      if !enabled {
        return;
      }
      var ids := SelectDue(kind, now, limit);
      for i := 0 to |ids|
        invariant rows == DeliverAll(old(rows), ids, i, answers, max, now)
        invariant delivered == AcceptedCount(old(rows), ids, i, answers, max, now)
      {
        var accepted := DeliverRow(enabled, ids[i], Answer(answers, ids[i]), max, now);
        if accepted.Ok? && accepted.value {
          delivered := delivered + 1;
        }
      }
    }

    method Apply(id: RowId, e: Event, receivedAt: int) returns (changed: bool)
      requires id < |rows|
      modifies this`rows
      ensures changed == Applies(old(rows[id]), e.report)
      ensures rows == old(rows)[id := ApplyStatus(old(rows[id]), e, receivedAt)]
    {
      var row := rows[id];
      if row.status == Delivered || row.status == Failed {
        return false;
      }
      var timestamp := if e.at.Some? then e.at.value else receivedAt;
      match e.report {
        case ReportSent =>
          if row.status != Queued {
            return false;
          }
          row := row.(status := Sent, sentAt := Some(timestamp));
        case ReportFailed =>
          row := row.(status := Failed, nextAttempt := None);
        case _ =>
          row := row.(status := Delivered);
          if row.sentAt.None? {
            row := row.(sentAt := Some(timestamp));
          }
          row := row.(deliveredAt := Some(if timestamp >= row.sentAt.value then timestamp else receivedAt), nextAttempt := None);
      }
      rows := rows[id := row];
      return true;
    }

    static method DropRepeats(events: seq<Event>) returns (distinct: seq<Event>)
      ensures distinct == Distinct(events, |events|)
    {
      distinct := [];
      for i := 0 to |events|
        invariant distinct == Distinct(events, i)
      {
        if events[i] !in distinct {
          distinct := distinct + [events[i]];
        }
      }
    }

    /** Stores a receipt per event, on conflict doing nothing, and returns the events it was new for. */
    method InsertReceipts(events: seq<Event>) returns (news: seq<Event>)
      modifies this`receipts
      ensures news == Unseen(events, |events|, old(receipts))
      ensures receipts == old(receipts) + set e | e in events
    {
      news := [];
      var known := receipts;
      for i := 0 to |events|
        invariant news == Unseen(events, i, known)
        invariant receipts == known + set e | e in events[..i]
      {
        if events[i] !in known {
          news := news + [events[i]];
        }
        assert events[..i + 1] == events[..i] + [events[i]];
        receipts := receipts + {events[i]};
      }
      assert events[..|events|] == events;
    }

    method ProcessWebhook(events: seq<Event>, receivedAt: int) returns (summary: Summary)
      modifies this
      ensures State(rows, receipts) == Receive(old(State(rows, receipts)), events, receivedAt)
      ensures summary == Summarize(old(State(rows, receipts)), events, receivedAt)
    {
      hide Distinct, Unseen, LastWithRef, ApplyStatus, Applies;
      var distinct := DropRepeats(events);
      var news := InsertReceipts(distinct);
      assert receipts == old(receipts) + set e | e in events by {
        DistinctHasAll(events, |events|);
        assert events[..|events|] == events;
      }
      var duplicates := |events| - |news|;
      var alerts := IndexByRef(AlertDelivery);
      var corrections := IndexByRef(CorrectionDelivery);
      ghost var stored := receipts;
      var accepted, unmatched := 0, 0;
      for i := 0 to |news|
        invariant rows == ApplyAll(old(rows), news, i, receivedAt) && receipts == stored
        invariant accepted == AppliedCount(old(rows), news, i, receivedAt)
        invariant unmatched == UnmatchedCount(old(rows), news, i)
      {
        var ref := news[i].ref;
        if ref in alerts || ref in corrections {
          var changed := Apply(if ref in alerts then alerts[ref] else corrections[ref], news[i], receivedAt);
          if changed {
            accepted := accepted + 1;
          }
        } else {
          unmatched := unmatched + 1;
        }
      }
      return Summary(accepted, duplicates, unmatched);
    }

    method IndexByRef(kind: Kind) returns (index: map<string, RowId>)
      ensures forall ref :: LastWithRef(rows, kind, ref, |rows|) == if ref in index then Some(index[ref]) else None
    {
      index := map[];
      for i := 0 to |rows|
        invariant forall ref :: LastWithRef(rows, kind, ref, i) == if ref in index then Some(index[ref]) else None
      {
        if rows[i].kind == kind && rows[i].ref.Some? {
          index := index[rows[i].ref.value := i];
        }
      }
    }
  }
}
