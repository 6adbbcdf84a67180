/** The outbound mail queue and its drain (internal/imip/sender.go,
    internal/storage/scheduling.go). Row ids are positions: rows are only ever
    appended. The transport and the clock are parameters. */
module MailQueue {
  import opened Components
  import opened Powers

  const MAX_ATTEMPTS := 5
  const BATCH := 20
  const MINUTE := 60 * 1_000_000_000

  datatype Status = Pending | FailedRetry | FailedFinal | Sent

  datatype Message = Message(messageId: string, status: Status, attempts: nat, nextAttempt: Option<int>)

  /** What sending one message came to; a failure carries the clock reading from
      which the retry is scheduled. */
  datatype Outcome = Delivered | Failed(at: int)

  datatype Attempt = Attempt(id: nat, outcome: Outcome)

  /** The queue table and the record of the sends made. */
  datatype Queue = Queue(rows: seq<Message>, log: seq<Attempt>)

  // ----- Which messages are due -----

  predicate Due(m: Message, now: int) {
    && (m.status.Pending? || m.status.FailedRetry?)
    && (m.nextAttempt.None? || m.nextAttempt.value <= now)
  }

  /** The ids of the due messages, ascending. */
  function DueIds(rows: seq<Message>, now: int): (ids: seq<nat>)
    ensures forall i :: 0 <= i < |ids| ==> ids[i] < |rows| && Due(rows[ids[i]], now)
    decreases |rows|
  {
    if rows == [] then []
    else
      var n := |rows| - 1;
      DueIds(rows[..n], now) + if Due(rows[n], now) then [n] else []
  }

  function Batch(rows: seq<Message>, now: int): (ids: seq<nat>)
    ensures forall i :: 0 <= i < |ids| ==> ids[i] < |rows| && Due(rows[ids[i]], now)
  {
    var ids := DueIds(rows, now);
    if |ids| <= BATCH then ids else ids[..BATCH]
  }

  lemma {:induction false} DueIdsAscending(rows: seq<Message>, now: int)
    ensures var ids := DueIds(rows, now);
      && (forall i, j :: 0 <= i < j < |ids| ==> ids[i] < ids[j])
      && (forall id :: 0 <= id < |rows| && Due(rows[id], now) ==> id in ids)
  {
    if rows != [] {
      var n := |rows| - 1;
      DueIdsAscending(rows[..n], now);
      var init := DueIds(rows[..n], now);
      forall id | 0 <= id < |rows| && Due(rows[id], now) ensures id in DueIds(rows, now) {
        if id < n { assert id in init by { assert Due(rows[..n][id], now); } }
      }
    }
  }

  // ----- One attempt and one drain -----

  /** The row after a send: sent, retried after a doubling delay, or given up. */
  function Attempted(m: Message, outcome: Outcome): Message {
    match outcome
    case Delivered => m.(status := Sent, attempts := m.attempts + 1)
    case Failed(at) =>
      if m.attempts + 1 >= MAX_ATTEMPTS then m.(status := FailedFinal, attempts := m.attempts + 1)
      else m.(status := FailedRetry, attempts := m.attempts + 1, nextAttempt := Some(at + Pow2(m.attempts) * MINUTE))
  }

  predicate InRange(ids: seq<nat>, rows: seq<Message>) {
    forall i :: 0 <= i < |ids| ==> ids[i] < |rows|
  }

  /** The queue after the first n sends of a batch. */
  function Drained(q: Queue, ids: seq<nat>, outcomes: nat -> Outcome, n: nat): (r: Queue)
    requires n <= |ids| && InRange(ids, q.rows)
    ensures |r.rows| == |q.rows|
  {
    if n == 0 then q
    else
      var before := Drained(q, ids, outcomes, n - 1);
      var id := ids[n - 1];
      Queue(before.rows[id := Attempted(before.rows[id], outcomes(n - 1))], before.log + [Attempt(id, outcomes(n - 1))])
  }

  datatype Event =
    | Enqueue(messageId: string, now: int)
    | Drain(now: int, outcomes: nat -> Outcome)

  predicate Taken(rows: seq<Message>, messageId: string) {
    exists i :: 0 <= i < |rows| && rows[i].messageId == messageId
  }

  function Enqueued(q: Queue, messageId: string, now: int): Queue {
    if Taken(q.rows, messageId) then q
    else q.(rows := q.rows + [Message(messageId, Pending, 0, Some(now))])
  }

  function DrainedAll(q: Queue, now: int, outcomes: nat -> Outcome): Queue {
    Drained(q, Batch(q.rows, now), outcomes, |Batch(q.rows, now)|)
  }

  function Step(q: Queue, e: Event): Queue {
    match e
    case Enqueue(messageId, now) => Enqueued(q, messageId, now)
    case Drain(now, outcomes) => DrainedAll(q, now, outcomes)
  }

  function Run(q: Queue, es: seq<Event>): Queue
    decreases |es|
  {
    if es == [] then q else Step(Run(q, es[..|es| - 1]), es[|es| - 1])
  }

  const EMPTY := Queue([], [])

  // ----- Invariant -----

  /** The attempt count that goes with each status. */
  predicate CountFits(m: Message) {
    match m.status
    case Pending => m.attempts == 0
    case FailedRetry => 1 <= m.attempts <= 4
    case FailedFinal => m.attempts == 5
    case Sent => 1 <= m.attempts <= 5
  }

  function AttemptsOf(log: seq<Attempt>, id: nat): nat
    decreases |log|
  {
    if log == [] then 0 else AttemptsOf(log[..|log| - 1], id) + if log[|log| - 1].id == id then 1 else 0
  }

  function DeliveriesOf(log: seq<Attempt>, id: nat): nat
    decreases |log|
  {
    if log == [] then 0
    else DeliveriesOf(log[..|log| - 1], id) + if log[|log| - 1] == Attempt(id, Delivered) then 1 else 0
  }

  /** The time of the first, and of the latest, failed send of a message. */
  function FirstFailure(log: seq<Attempt>, id: nat): Option<int>
    decreases |log|
  {
    if log == [] then None
    else
      var n := |log| - 1;
      var earlier := FirstFailure(log[..n], id);
      if earlier.Some? then earlier
      else if log[n].id == id && log[n].outcome.Failed? then Some(log[n].outcome.at) else None
  }

  function LatestFailure(log: seq<Attempt>, id: nat): Option<int>
    decreases |log|
  {
    if log == [] then None
    else
      var n := |log| - 1;
      if log[n].id == id && log[n].outcome.Failed? then Some(log[n].outcome.at) else LatestFailure(log[..n], id)
  }

  /** Attempts in the row are sends in the record, of which one was delivered
      exactly if the row is marked sent. */
  ghost predicate Recorded(q: Queue, id: nat)
    requires id < |q.rows|
  {
    && AttemptsOf(q.log, id) == q.rows[id].attempts
    && DeliveriesOf(q.log, id) == if q.rows[id].status.Sent? then 1 else 0
  }

  /** A retry is not due before the delays doubled so far have passed since the
      first failure, nor is a message given up before all of them have. */
  ghost predicate Spaced(q: Queue, id: nat)
    requires id < |q.rows|
  {
    var m := q.rows[id];
    var first, latest := FirstFailure(q.log, id), LatestFailure(q.log, id);
    && (m.status.Pending? ==> first == None)
    && (m.status.FailedRetry? ==>
          && first.Some? && m.nextAttempt.Some?
          && m.nextAttempt.value >= first.value + (Pow2(m.attempts) - 1) * MINUTE)
    && (m.status.FailedFinal? ==> first.Some? && latest.Some? && latest.value >= first.value + (1 + 2 + 4 + 8) * MINUTE)
  }

  /** The queue invariant; the spacing of failures is part of it for runs whose
      drains read a clock that does not run backwards. */
  ghost predicate Inv(q: Queue, clocked: bool) {
    && (forall id :: 0 <= id < |q.rows| ==> CountFits(q.rows[id]) && Recorded(q, id) && (clocked ==> Spaced(q, id)))
    && (forall i :: 0 <= i < |q.log| ==> q.log[i].id < |q.rows|)
  }

  /** Within a drain, the clock read after a failed send is not behind the one
      read for the query. */
  ghost predicate Clocked(e: Event) {
    e.Drain? ==> forall i :: e.outcomes(i).Failed? ==> e.now <= e.outcomes(i).at
  }

  lemma {:induction false} LogSnoc(log: seq<Attempt>, a: Attempt, id: nat)
    ensures AttemptsOf(log + [a], id) == AttemptsOf(log, id) + if a.id == id then 1 else 0
    ensures DeliveriesOf(log + [a], id) == DeliveriesOf(log, id) + if a == Attempt(id, Delivered) then 1 else 0
    ensures FirstFailure(log + [a], id) ==
      if FirstFailure(log, id).None? && a.id == id && a.outcome.Failed? then Some(a.outcome.at) else FirstFailure(log, id)
    ensures LatestFailure(log + [a], id) == if a.id == id && a.outcome.Failed? then Some(a.outcome.at) else LatestFailure(log, id)
  {
    assert (log + [a])[..|log|] == log;
  }

  /** One send of a due message keeps the invariant. */
  lemma {:induction false} AttemptKeepsInv(q: Queue, clocked: bool, id: nat, now: int, outcome: Outcome)
    requires Inv(q, clocked) && id < |q.rows| && Due(q.rows[id], now)
    requires clocked && outcome.Failed? ==> now <= outcome.at
    ensures Inv(Queue(q.rows[id := Attempted(q.rows[id], outcome)], q.log + [Attempt(id, outcome)]), clocked)
  {
    var next := Queue(q.rows[id := Attempted(q.rows[id], outcome)], q.log + [Attempt(id, outcome)]);
    forall i | 0 <= i < |next.rows| ensures CountFits(next.rows[i]) && Recorded(next, i) && (clocked ==> Spaced(next, i)) {
      assert CountFits(q.rows[i]) && Recorded(q, i) && (clocked ==> Spaced(q, i));
      if i == id {
        AttemptKeepsRow(q, clocked, id, now, outcome);
      } else {
        LogSnoc(q.log, Attempt(id, outcome), i);
      }
    }
  }

  lemma {:induction false} AttemptKeepsRow(q: Queue, clocked: bool, id: nat, now: int, outcome: Outcome)
    requires id < |q.rows| && Due(q.rows[id], now) && (clocked && outcome.Failed? ==> now <= outcome.at)
    requires CountFits(q.rows[id]) && Recorded(q, id) && (clocked ==> Spaced(q, id))
    ensures var next := Queue(q.rows[id := Attempted(q.rows[id], outcome)], q.log + [Attempt(id, outcome)]);
      CountFits(next.rows[id]) && Recorded(next, id) && (clocked ==> Spaced(next, id))
  {
    LogSnoc(q.log, Attempt(id, outcome), id);
    Pow2Values();
    assert Pow2(q.rows[id].attempts + 1) == 2 * Pow2(q.rows[id].attempts);
  }

  /** The sends of a batch do not touch a row before its own turn. */
  lemma {:induction false} DrainedRow(q: Queue, ids: seq<nat>, outcomes: nat -> Outcome, n: nat, id: nat)
    requires n <= |ids| && InRange(ids, q.rows) && id < |q.rows|
    requires forall i, j :: 0 <= i < j < |ids| ==> ids[i] != ids[j]
    ensures (forall i :: 0 <= i < n ==> ids[i] != id) ==> Drained(q, ids, outcomes, n).rows[id] == q.rows[id]
    ensures forall i :: 0 <= i < n && ids[i] == id ==>
      Drained(q, ids, outcomes, n).rows[id] == Attempted(q.rows[id], outcomes(i))
  {
    if n > 0 { DrainedRow(q, ids, outcomes, n - 1, id); }
  }

  lemma {:induction false} BatchDistinct(rows: seq<Message>, now: int)
    ensures var ids := Batch(rows, now); forall i, j :: 0 <= i < j < |ids| ==> ids[i] < ids[j]
  {
    DueIdsAscending(rows, now);
  }

  /** A message of the batch stands as it was queried when its turn comes. */
  lemma {:induction false} DrainedNext(q: Queue, now: int, outcomes: nat -> Outcome, n: nat)
    requires n < |Batch(q.rows, now)|
    ensures var ids := Batch(q.rows, now); var before, id := Drained(q, ids, outcomes, n), ids[n];
      && id < |before.rows| == |q.rows| && before.rows[id] == q.rows[id]
      && Drained(q, ids, outcomes, n + 1) ==
           Queue(before.rows[id := Attempted(before.rows[id], outcomes(n))], before.log + [Attempt(id, outcomes(n))])
  {
    var ids := Batch(q.rows, now);
    BatchDistinct(q.rows, now);
    DrainedRow(q, ids, outcomes, n, ids[n]);
  }

  lemma {:induction false} DrainedKeepsInv(q: Queue, clocked: bool, now: int, outcomes: nat -> Outcome, n: nat)
    requires Inv(q, clocked) && n <= |Batch(q.rows, now)| && (clocked ==> Clocked(Drain(now, outcomes)))
    ensures Inv(Drained(q, Batch(q.rows, now), outcomes, n), clocked)
  {
    if n > 0 {
      var ids := Batch(q.rows, now);
      DrainedKeepsInv(q, clocked, now, outcomes, n - 1);
      BatchDistinct(q.rows, now);
      DrainedRow(q, ids, outcomes, n - 1, ids[n - 1]);
      assert Clocked(Drain(now, outcomes)) ==> (outcomes(n - 1).Failed? ==> now <= outcomes(n - 1).at);
      AttemptKeepsInv(Drained(q, ids, outcomes, n - 1), clocked, ids[n - 1], now, outcomes(n - 1));
    }
  }

  lemma {:induction false} NeverLogged(log: seq<Attempt>, id: nat)
    requires forall i :: 0 <= i < |log| ==> log[i].id != id
    ensures AttemptsOf(log, id) == 0 && DeliveriesOf(log, id) == 0 && FirstFailure(log, id) == None
  {
    if log != [] { NeverLogged(log[..|log| - 1], id); }
  }

  lemma {:induction false} StepKeepsInv(q: Queue, clocked: bool, e: Event)
    requires Inv(q, clocked) && (clocked ==> Clocked(e))
    ensures Inv(Step(q, e), clocked)
  {
    match e
    case Enqueue(messageId, now) =>
      NeverLogged(q.log, |q.rows|);
      var next := Step(q, e);
      forall id | 0 <= id < |q.rows| ensures CountFits(next.rows[id]) && Recorded(next, id) && (clocked ==> Spaced(next, id)) {
        assert CountFits(q.rows[id]) && Recorded(q, id) && (clocked ==> Spaced(q, id));
      }
    case Drain(now, outcomes) =>
      DrainedKeepsInv(q, clocked, now, outcomes, |Batch(q.rows, now)|);
  }

  lemma {:induction false} RunKeepsInv(q: Queue, clocked: bool, es: seq<Event>)
    requires Inv(q, clocked) && (clocked ==> forall i :: 0 <= i < |es| ==> Clocked(es[i]))
    ensures Inv(Run(q, es), clocked)
  {
    if es != [] {
      RunKeepsInv(q, clocked, es[..|es| - 1]);
      StepKeepsInv(Run(q, es[..|es| - 1]), clocked, es[|es| - 1]);
    }
  }

  /** In every reachable queue the attempt counts fit the statuses, and each
      message has been delivered once if it is marked sent and never otherwise. */
  lemma {:induction false} ReachableQueue(es: seq<Event>, id: nat)
    requires id < |Run(EMPTY, es).rows|
    ensures var q := Run(EMPTY, es);
      && CountFits(q.rows[id])
      && AttemptsOf(q.log, id) == q.rows[id].attempts <= 5
      && DeliveriesOf(q.log, id) == if q.rows[id].status.Sent? then 1 else 0
  {
    RunKeepsInv(EMPTY, false, es);
    assert CountFits(Run(EMPTY, es).rows[id]) && Recorded(Run(EMPTY, es), id);
  }

  /** Giving a message up takes at least 1+2+4+8 minutes from its first failure. */
  lemma {:induction false} GivesUpLate(es: seq<Event>, id: nat)
    requires (forall i :: 0 <= i < |es| ==> Clocked(es[i])) && id < |Run(EMPTY, es).rows|
    requires Run(EMPTY, es).rows[id].status.FailedFinal?
    ensures var log := Run(EMPTY, es).log; var first, latest := FirstFailure(log, id), LatestFailure(log, id);
      first.Some? && latest.Some? && latest.value - first.value >= 15 * 60_000_000_000
  {
    RunKeepsInv(EMPTY, true, es);
    assert Spaced(Run(EMPTY, es), id);
  }

  // ----- Final states are absorbing -----

  predicate Finished(m: Message) {
    m.status.Sent? || m.status.FailedFinal?
  }

  lemma {:induction false} StepKeepsFinished(q: Queue, e: Event, id: nat)
    requires id < |q.rows| && Finished(q.rows[id])
    ensures id < |Step(q, e).rows| && Step(q, e).rows[id] == q.rows[id]
  {
    if e.Drain? {
      var ids := Batch(q.rows, e.now);
      BatchDistinct(q.rows, e.now);
      DrainedRow(q, ids, e.outcomes, |ids|, id);
      assert forall i :: 0 <= i < |ids| ==> Due(q.rows[ids[i]], e.now);
    }
  }

  /** A sent or given-up message never changes again. */
  lemma {:induction false} FinishedIsAbsorbing(q: Queue, es: seq<Event>, id: nat)
    requires id < |q.rows| && Finished(q.rows[id])
    ensures id < |Run(q, es).rows| && Run(q, es).rows[id] == q.rows[id]
  {
    if es != [] {
      FinishedIsAbsorbing(q, es[..|es| - 1], id);
      StepKeepsFinished(Run(q, es[..|es| - 1]), es[|es| - 1], id);
    }
  }

  // ----- No starvation -----

  /** The message is due but older due messages fill the batch. */
  predicate PassedOver(q: Queue, e: Event, id: nat) {
    e.Drain? && id < |q.rows| && Due(q.rows[id], e.now) && id !in Batch(q.rows, e.now)
  }

  /** How many events of a run pass the message over. */
  function Passes(q: Queue, es: seq<Event>, id: nat): nat
    decreases |es|
  {
    if es == [] then 0
    else
      var n := |es| - 1;
      Passes(q, es[..n], id) + if PassedOver(Run(q, es[..n]), es[n], id) then 1 else 0
  }

  /** The attempts the first k messages still have. */
  function Budget(rows: seq<Message>, k: nat): int
    requires k <= |rows|
  {
    if k == 0 then 0 else Budget(rows, k - 1) + MAX_ATTEMPTS - rows[k - 1].attempts
  }

  lemma {:induction false} BudgetBounds(rows: seq<Message>, k: nat)
    requires k <= |rows| && forall id :: 0 <= id < |rows| ==> rows[id].attempts <= MAX_ATTEMPTS
    ensures 0 <= Budget(rows, k) <= MAX_ATTEMPTS * k
  {
    if k > 0 { BudgetBounds(rows, k - 1); }
  }

  lemma {:induction false} BudgetUpdate(rows: seq<Message>, k: nat, id: nat, m: Message)
    requires k <= |rows| && id < |rows|
    ensures Budget(rows[id := m], k) == Budget(rows, k) - if id < k then m.attempts - rows[id].attempts else 0
  {
    if k > 0 { BudgetUpdate(rows, k - 1, id, m); }
  }

  lemma {:induction false} BudgetAppend(rows: seq<Message>, k: nat, m: Message)
    requires k <= |rows|
    ensures Budget(rows + [m], k) == Budget(rows, k)
  {
    if k > 0 { BudgetAppend(rows, k - 1, m); }
  }

  /** How many of the first n ids of a batch are below k. */
  function Below(ids: seq<nat>, n: nat, k: nat): nat
    requires n <= |ids|
  {
    if n == 0 then 0 else Below(ids, n - 1, k) + if ids[n - 1] < k then 1 else 0
  }

  /** A batch spends one attempt of the budget for each of its ids below k. */
  lemma {:induction false} DrainSpends(q: Queue, ids: seq<nat>, outcomes: nat -> Outcome, n: nat, k: nat)
    requires n <= |ids| && InRange(ids, q.rows) && k <= |q.rows|
    ensures Budget(Drained(q, ids, outcomes, n).rows, k) == Budget(q.rows, k) - Below(ids, n, k)
  {
    if n > 0 {
      DrainSpends(q, ids, outcomes, n - 1, k);
      var before := Drained(q, ids, outcomes, n - 1);
      BudgetUpdate(before.rows, k, ids[n - 1], Attempted(before.rows[ids[n - 1]], outcomes(n - 1)));
    }
  }

  lemma {:induction false} AllBelow(ids: seq<nat>, n: nat, k: nat)
    requires n <= |ids| && forall i :: 0 <= i < n ==> ids[i] < k
    ensures Below(ids, n, k) == n
  {
    if n > 0 { AllBelow(ids, n - 1, k); }
  }

  /** A message that is due and passed over has a full batch of older ones ahead. */
  lemma {:induction false} PassedOverBatch(q: Queue, e: Event, id: nat)
    requires PassedOver(q, e, id)
    ensures var ids := Batch(q.rows, e.now); |ids| == 20 && forall i :: 0 <= i < |ids| ==> ids[i] < id
  {
    DueIdsAscending(q.rows, e.now);
    var all := DueIds(q.rows, e.now);
    assert id in all;
    var p :| 0 <= p < |all| && all[p] == id;
    if |all| > BATCH {
      assert forall i :: 0 <= i < BATCH ==> all[..BATCH][i] in all[..BATCH];
    }
  }

  lemma {:induction false} StepSpends(q: Queue, e: Event, id: nat)
    requires id < |q.rows|
    ensures id < |Step(q, e).rows|
    ensures Budget(Step(q, e).rows, id) + (if PassedOver(q, e, id) then BATCH else 0) <= Budget(q.rows, id)
  {
    match e
    case Enqueue(messageId, now) =>
      if !Taken(q.rows, messageId) { BudgetAppend(q.rows, id, Message(messageId, Pending, 0, Some(now))); }
    case Drain(now, outcomes) =>
      var ids := Batch(q.rows, now);
      DrainSpends(q, ids, outcomes, |ids|, id);
      if PassedOver(q, e, id) {
        PassedOverBatch(q, e, id);
        AllBelow(ids, |ids|, id);
      }
  }

  lemma {:induction false} RunSpends(q: Queue, es: seq<Event>, id: nat)
    requires id < |q.rows|
    ensures id < |Run(q, es).rows|
    ensures Budget(Run(q, es).rows, id) + BATCH * Passes(q, es, id) <= Budget(q.rows, id)
  {
    if es != [] {
      RunSpends(q, es[..|es| - 1], id);
      StepSpends(Run(q, es[..|es| - 1]), es[|es| - 1], id);
    }
  }

  lemma {:induction false} ReachableBudget(q: Queue, id: nat)
    requires Inv(q, false) && id <= |q.rows|
    ensures 0 <= Budget(q.rows, id) <= MAX_ATTEMPTS * id
  {
    forall i | 0 <= i < |q.rows| ensures q.rows[i].attempts <= MAX_ATTEMPTS { assert CountFits(q.rows[i]); }
    BudgetBounds(q.rows, id);
  }

  /** No starvation: over any run, a message with k older ones is passed over
      while due by at most 5k/20 drains. */
  lemma {:induction false} NoStarvation(past: seq<Event>, es: seq<Event>, id: nat)
    requires id < |Run(EMPTY, past).rows|
    ensures 20 * Passes(Run(EMPTY, past), es, id) <= 5 * id
  {
    var q := Run(EMPTY, past);
    RunKeepsInv(EMPTY, false, past);
    RunKeepsInv(q, false, es);
    RunSpends(q, es, id);
    ReachableBudget(q, id);
    ReachableBudget(Run(q, es), id);
  }

  /** Hence a message that is due at every drain of a run is attempted in it, once
      the run has more than 5k/20 drains, however much mail arrives meanwhile. */
  lemma {:induction false} DueIsAttempted(past: seq<Event>, es: seq<Event>, id: nat)
    requires id < |Run(EMPTY, past).rows|
    requires var q := Run(EMPTY, past); forall i :: 0 <= i < |es| && es[i].Drain? ==> Due(q.rows[id], es[i].now)
    requires 20 * Drains(es) > 5 * id
    ensures var q := Run(EMPTY, past); id < |Run(q, es).rows| && Run(q, es).rows[id].attempts > q.rows[id].attempts
  {
    NoStarvation(past, es, id);
    PassesOrAttempts(Run(EMPTY, past), es, id);
  }

  /** A drain leaves a message alone or counts one attempt for it. */
  lemma {:induction false} DrainTouches(q: Queue, now: int, outcomes: nat -> Outcome, id: nat)
    requires id < |q.rows|
    ensures var next := DrainedAll(q, now, outcomes);
      if id in Batch(q.rows, now) then next.rows[id].attempts == q.rows[id].attempts + 1
      else next.rows[id] == q.rows[id]
  {
    var ids := Batch(q.rows, now);
    BatchDistinct(q.rows, now);
    DrainedRow(q, ids, outcomes, |ids|, id);
    if id in ids {
      var i :| 0 <= i < |ids| && ids[i] == id;
      assert DrainedAll(q, now, outcomes).rows[id] == Attempted(q.rows[id], outcomes(i));
    }
  }

  /** How many drains a run holds. */
  function Drains(es: seq<Event>): nat {
    if es == [] then 0
    else
      var n := |es| - 1;
      Drains(es[..n]) + if es[n].Drain? then 1 else 0
  }

  lemma {:induction false} PassesOrAttempts(q: Queue, es: seq<Event>, id: nat)
    requires id < |q.rows| && forall i :: 0 <= i < |es| && es[i].Drain? ==> Due(q.rows[id], es[i].now)
    ensures id < |Run(q, es).rows|
    ensures Run(q, es).rows[id].attempts > q.rows[id].attempts ||
      (Run(q, es).rows[id] == q.rows[id] && Passes(q, es, id) == Drains(es))
  {
    if es != [] {
      var n := |es| - 1;
      PassesOrAttempts(q, es[..n], id);
      if es[n].Drain? {
        assert Due(q.rows[id], es[n].now);
        DrainTouches(Run(q, es[..n]), es[n].now, es[n].outcomes, id);
      }
    }
  }

  // ----- A bound on a whole life -----

  /** At how many drains of a run the message is due. */
  function DueDrains(q: Queue, es: seq<Event>, id: nat): nat
    decreases |es|
  {
    if es == [] then 0
    else
      var n := |es| - 1;
      DueDrains(q, es[..n], id) + if DueAt(Run(q, es[..n]), es[n], id) then 1 else 0
  }

  predicate DueAt(q: Queue, e: Event, id: nat) {
    e.Drain? && id < |q.rows| && Due(q.rows[id], e.now)
  }

  /** A drain at which a message is due passes it over or attempts it, and one at
      which it is not due does neither. */
  lemma {:induction false} PassOrAttempt(q: Queue, e: Event, id: nat)
    requires id < |q.rows|
    ensures id < |Step(q, e).rows|
    ensures Step(q, e).rows[id].attempts ==
      q.rows[id].attempts + (if DueAt(q, e, id) then 1 else 0) - (if PassedOver(q, e, id) then 1 else 0)
  {
    if e.Drain? {
      DrainTouches(q, e.now, e.outcomes, id);
      var ids := Batch(q.rows, e.now);
      if id in ids {
        var i :| 0 <= i < |ids| && ids[i] == id;
        assert Due(q.rows[ids[i]], e.now);
      }
    }
  }

  lemma {:induction false} DuesCounted(q: Queue, es: seq<Event>, id: nat)
    requires id < |q.rows|
    ensures id < |Run(q, es).rows|
    ensures DueDrains(q, es, id) == Passes(q, es, id) + Run(q, es).rows[id].attempts - q.rows[id].attempts
  {
    if es != [] {
      var n := |es| - 1;
      DuesCounted(q, es[..n], id);
      PassOrAttempt(Run(q, es[..n]), es[n], id);
    }
  }

  /** Over its whole life a message with k older ones is due at no more than
      5 + 5k/20 drains. */
  lemma {:induction false} DueAtMost(past: seq<Event>, es: seq<Event>, id: nat)
    requires id < |Run(EMPTY, past).rows|
    ensures 20 * DueDrains(Run(EMPTY, past), es, id) <= 100 + 5 * id
  {
    var q := Run(EMPTY, past);
    NoStarvation(past, es, id);
    DuesCounted(q, es, id);
    RunKeepsInv(EMPTY, false, past);
    RunKeepsInv(q, false, es);
    assert CountFits(Run(q, es).rows[id]);
  }

  /** At each drain of the run the message is due, or finished already. */
  ghost predicate DueUntilFinished(q: Queue, es: seq<Event>, id: nat) {
    forall i :: 0 <= i < |es| && es[i].Drain? ==>
      DueAt(Run(q, es[..i]), es[i], id) || (id < |Run(q, es[..i]).rows| && Finished(Run(q, es[..i]).rows[id]))
  }

  lemma {:induction false} DueOrFinished(q: Queue, es: seq<Event>, id: nat)
    requires id < |q.rows| && DueUntilFinished(q, es, id)
    ensures id < |Run(q, es).rows|
    ensures Finished(Run(q, es).rows[id]) || DueDrains(q, es, id) == Drains(es)
  {
    if es != [] {
      var n := |es| - 1;
      var front, last := es[..n], es[n];
      assert forall i :: 0 <= i < n ==> front[i] == es[i] && front[..i] == es[..i];
      DueOrFinished(q, front, id);
      PassOrAttempt(Run(q, front), last, id);
      if Finished(Run(q, front).rows[id]) { StepKeepsFinished(Run(q, front), last, id); }
    }
  }

  /** So any run with more drains than that, at each of which it is due unless it
      is finished already, finishes it: the message is sent or given up. */
  lemma {:induction false} FinishedInTime(past: seq<Event>, es: seq<Event>, id: nat)
    requires id < |Run(EMPTY, past).rows| && DueUntilFinished(Run(EMPTY, past), es, id)
    requires 20 * Drains(es) > 100 + 5 * id
    ensures var q := Run(Run(EMPTY, past), es); id < |q.rows| && Finished(q.rows[id])
  {
    DueAtMost(past, es, id);
    DueOrFinished(Run(EMPTY, past), es, id);
  }

  // ----- From the clock alone -----

  /** A message is listed as due if and only if it is neither sent nor given up and
      its next attempt, if one is set, is not in the future. */
  lemma {:induction false} DueListed(rows: seq<Message>, now: int, id: nat)
    ensures id in DueIds(rows, now) <==>
      && id < |rows| && rows[id].status != Sent && rows[id].status != FailedFinal
      && (rows[id].nextAttempt.Some? ==> rows[id].nextAttempt.value <= now)
  {
    DueIdsAscending(rows, now);
    if id in DueIds(rows, now) {
      var i :| 0 <= i < |DueIds(rows, now)| && DueIds(rows, now)[i] == id;
      assert Due(rows[DueIds(rows, now)[i]], now);
    }
    if id < |rows| { assert Due(rows[id], now) ==> id in DueIds(rows, now); }
  }

  /** What a drain of the batch makes of its i-th message: once sent, or failed for
      the fifth time, it is never due again; after a failure at an instant it is due
      from 2^k minutes later on and not before, k being the attempts it had. */
  lemma {:induction false} DueAgainIff(q: Queue, now: int, outcomes: nat -> Outcome, i: nat, later: int)
    requires i < |Batch(q.rows, now)|
    ensures var id := Batch(q.rows, now)[i];
      var next, k := DrainedAll(q, now, outcomes).rows, q.rows[id].attempts;
      id in DueIds(next, later) <==>
        outcomes(i).Failed? && k < 4 && later >= outcomes(i).at + Pow2(k) * 60_000_000_000
  {
    var ids := Batch(q.rows, now);
    BatchDistinct(q.rows, now);
    DrainedRow(q, ids, outcomes, |ids|, ids[i]);
    DueListed(DrainedAll(q, now, outcomes).rows, later, ids[i]);
    assert DrainedAll(q, now, outcomes).rows[ids[i]] == Attempted(q.rows[ids[i]], outcomes(i));
  }

  /** A new message is due from its enqueueing on. */
  lemma {:induction false} DueFromEnqueue(q: Queue, messageId: string, now: int, later: int)
    requires !Taken(q.rows, messageId)
    ensures |q.rows| in DueIds(Enqueued(q, messageId, now).rows, later) <==> later >= now
  {
    DueListed(Enqueued(q, messageId, now).rows, later, |q.rows|);
  }

  /** No drain comes before the time then set for the message's next attempt. */
  ghost predicate Punctual(q: Queue, es: seq<Event>, id: nat) {
    forall i :: 0 <= i < |es| && es[i].Drain? ==> id < |Run(q, es[..i]).rows| && Arrived(Run(q, es[..i]).rows[id], es[i].now)
  }

  predicate Arrived(m: Message, now: int) {
    m.nextAttempt.Some? ==> m.nextAttempt.value <= now
  }

  /** Every message ends. From any reachable queue, a message with k older ones is
      sent or given up by a run of more than 5 + 5k/20 drains, of which none comes
      before the time then set for its next attempt, however much mail arrives
      meanwhile. */
  lemma {:induction false} EveryMessageEnds(past: seq<Event>, es: seq<Event>, id: nat)
    requires id < |Run(EMPTY, past).rows| && Punctual(Run(EMPTY, past), es, id)
    requires 20 * Drains(es) > 100 + 5 * id
    ensures Ended(Run(Run(EMPTY, past), es), id)
  {
    forall i | 0 <= i < |es| && es[i].Drain?
      ensures DueAt(Run(Run(EMPTY, past), es[..i]), es[i], id) || Finished(Run(Run(EMPTY, past), es[..i]).rows[id])
    {
      assert Arrived(Run(Run(EMPTY, past), es[..i]).rows[id], es[i].now);
    }
    FinishedInTime(past, es, id);
  }

  /** So all the messages of a queue end together. */
  lemma {:induction false} QueueEnds(past: seq<Event>, es: seq<Event>)
    requires var q := Run(EMPTY, past); forall id :: 0 <= id < |q.rows| ==> Punctual(q, es, id)
    requires 20 * Drains(es) > 100 + 5 * |Run(EMPTY, past).rows|
    ensures forall id :: 0 <= id < |Run(EMPTY, past).rows| ==> Ended(Run(Run(EMPTY, past), es), id)
  {
    forall id | 0 <= id < |Run(EMPTY, past).rows| ensures Ended(Run(Run(EMPTY, past), es), id) {
      EveryMessageEnds(past, es, id);
    }
  }

  predicate Ended(q: Queue, id: nat) {
    id < |q.rows| && (q.rows[id].status == Sent || q.rows[id].status == FailedFinal)
  }

  /** The time set for a retry is 2^(k-1) minutes after the latest failure, k being
      the attempts so far. */
  ghost predicate Waits(q: Queue, id: nat)
    requires id < |q.rows|
  {
    var m, latest := q.rows[id], LatestFailure(q.log, id);
    m.status.FailedRetry? ==> latest.Some? && m.attempts >= 1 && m.nextAttempt == Some(latest.value + Pow2(m.attempts - 1) * 60_000_000_000)
  }

  lemma {:induction false} AttemptKeepsWaits(q: Queue, id: nat, outcome: Outcome, i: nat)
    requires id < |q.rows| && i < |q.rows| && Waits(q, i)
    ensures Waits(Queue(q.rows[id := Attempted(q.rows[id], outcome)], q.log + [Attempt(id, outcome)]), i)
  {
    LogSnoc(q.log, Attempt(id, outcome), i);
  }

  lemma {:induction false} DrainedKeepsWaits(q: Queue, ids: seq<nat>, outcomes: nat -> Outcome, n: nat, i: nat)
    requires n <= |ids| && InRange(ids, q.rows) && i < |q.rows| && Waits(q, i)
    ensures Waits(Drained(q, ids, outcomes, n), i)
  {
    if n > 0 {
      DrainedKeepsWaits(q, ids, outcomes, n - 1, i);
      AttemptKeepsWaits(Drained(q, ids, outcomes, n - 1), ids[n - 1], outcomes(n - 1), i);
    }
  }

  lemma {:induction false} StepKeepsWaits(q: Queue, e: Event, id: nat)
    requires (id < |q.rows| ==> Waits(q, id)) && id < |Step(q, e).rows|
    ensures Waits(Step(q, e), id)
  {
    if e.Drain? { DrainedKeepsWaits(q, Batch(q.rows, e.now), e.outcomes, |Batch(q.rows, e.now)|, id); }
  }

  /** So it is in every reachable queue. */
  lemma {:induction false} RetriesWait(es: seq<Event>, id: nat)
    requires id < |Run(EMPTY, es).rows|
    ensures Waits(Run(EMPTY, es), id)
  {
    if es != [] {
      var q := Run(EMPTY, es[..|es| - 1]);
      if id < |q.rows| { RetriesWait(es[..|es| - 1], id); }
      StepKeepsWaits(q, es[|es| - 1], id);
    }
  }

  // ----- The sender -----

  function Deliveries(outcomes: nat -> Outcome, n: nat): nat {
    if n == 0 then 0 else Deliveries(outcomes, n - 1) + if outcomes(n - 1).Delivered? then 1 else 0
  }

  class Sender {
    var rows: seq<Message>
    var log: seq<Attempt>

    function State(): Queue
      reads this
    {
      Queue(rows, log)
    }

    constructor ()
      ensures State() == EMPTY
    {
      rows, log := [], [];
    }

    method EnqueueImip(messageId: string, now: int) returns (id: Option<nat>)
      modifies this`rows
      ensures State() == Enqueued(old(State()), messageId, now)
      ensures id == if Taken(old(rows), messageId) then None else Some(old(|rows|))
    {
      if exists i :: 0 <= i < |rows| && rows[i].messageId == messageId { return None; }
      id := Some(|rows|);
      rows := rows + [Message(messageId, Pending, 0, Some(now))];
    }

    /** Oldest first, at most so many. */
    method DueImip(now: int, limit: nat) returns (due: seq<nat>)
      ensures var all := DueIds(rows, now); due == if |all| <= limit then all else all[..limit]
    {
      due := [];
      ghost var all: seq<nat> := [];
      for i := 0 to |rows|
        invariant all == DueIds(rows[..i], now)
        invariant due == if |all| <= limit then all else all[..limit]
      {
        assert rows[..i + 1][..i] == rows[..i];
        if Due(rows[i], now) {
          if |due| < limit { due := due + [i]; }
          all := all + [i];
        }
      }
      assert rows[..|rows|] == rows;
    }

    method MarkSent(id: nat)
      requires id < |rows|
      modifies this`rows
      ensures rows == old(rows)[id := old(rows)[id].(status := Sent, attempts := old(rows)[id].attempts + 1)]
    {
      rows := rows[id := rows[id].(status := Sent, attempts := rows[id].attempts + 1)];
    }

    method MarkRetry(id: nat, next: int)
      requires id < |rows|
      modifies this`rows
      ensures rows == old(rows)[id := old(rows)[id].(status := FailedRetry, attempts := old(rows)[id].attempts + 1, nextAttempt := Some(next))]
    {
      rows := rows[id := rows[id].(status := FailedRetry, attempts := rows[id].attempts + 1, nextAttempt := Some(next))];
    }

    method MarkFinal(id: nat)
      requires id < |rows|
      modifies this`rows
      ensures rows == old(rows)[id := old(rows)[id].(status := FailedFinal, attempts := old(rows)[id].attempts + 1)]
    {
      rows := rows[id := rows[id].(status := FailedFinal, attempts := rows[id].attempts + 1)];
    }

    /** The decision is taken on the attempt count that the query returned. */
    method HandleFailure(id: nat, attempts: nat, at: int)
      requires id < |rows| && rows[id].attempts == attempts
      modifies this`rows
      ensures rows == old(rows)[id := Attempted(old(rows)[id], Failed(at))]
    {
      if attempts + 1 >= MAX_ATTEMPTS {
        MarkFinal(id);
        return;
      }
      MarkRetry(id, at + Pow2(attempts) * MINUTE);
    }

    method SendOne(id: nat, attempts: nat, outcome: Outcome) returns (delivered: bool)
      requires id < |rows| && rows[id].attempts == attempts
      modifies this
      ensures rows == old(rows)[id := Attempted(old(rows)[id], outcome)]
      ensures log == old(log) + [Attempt(id, outcome)]
      ensures delivered == outcome.Delivered?
    {
      log := log + [Attempt(id, outcome)];
      match outcome {
        case Failed(at) => HandleFailure(id, attempts, at);
        case Delivered => MarkSent(id);
      }
      delivered := outcome.Delivered?;
    }

    method DrainQueue(now: int, outcomes: nat -> Outcome) returns (sent: nat)
      modifies this
      ensures State() == DrainedAll(old(State()), now, outcomes)
      ensures sent == Deliveries(outcomes, |Batch(old(rows), now)|)
    {
      ghost var q := State();
      var due := DueImip(now, BATCH);
      var snapshot := rows;
      assert due == Batch(rows, now);
      sent := 0;
      for i := 0 to |due|
        invariant State() == Drained(q, due, outcomes, i)
        invariant sent == Deliveries(outcomes, i)
      {
        DrainedNext(q, now, outcomes, i);
        var delivered := SendOne(due[i], snapshot[due[i]].attempts, outcomes(i));
        if delivered { sent := sent + 1; }
      }
    }
  }
}
