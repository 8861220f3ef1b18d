/** Federated delivery: the durable queue, one drain step, and the drain loop. */
module Delivery {
  import opened Text

  const BACKOFF_SECONDS: seq<nat> := [30, 120, 600, 3_600, 21_600, 86_400]
  const MAX_ATTEMPTS: nat := 6

  datatype Row = Row(id: nat, activity: string, inboxUrl: string, attempts: nat, nextRetry: nat)

  /** The answer of the remote inbox. */
  datatype Response = Status(code: nat) | NetworkError

  datatype Outcome =
    | Delivered
    | Dropped
    | Rescheduled(seconds: nat)
    | Idle
    | SigningFailed

  predicate IsSuccess(r: Response) {
    r.Status? && 200 <= r.code < 300
  }

  /** A client error other than 408 and 429. */
  predicate IsPermanent(r: Response) {
    r.Status? && 400 <= r.code < 500 && r.code != 408 && r.code != 429
  }

  // ------------------------------------------------------------------ queue

  /** The first row, in id order, that is due. */
  function NextDue(rows: seq<Row>, now: nat): (r: Option<nat>)
    ensures r.Some? ==> r.value < |rows| && rows[r.value].nextRetry <= now
                        && forall i | 0 <= i < r.value :: now < rows[i].nextRetry
    ensures r.None? ==> forall i | 0 <= i < |rows| :: now < rows[i].nextRetry
  {
    if rows == [] then None
    else if rows[0].nextRetry <= now then Some(0)
    else
      match NextDue(rows[1..], now)
      case None => None
      case Some(i) => Some(i + 1)
  }

  function Removed(rows: seq<Row>, i: nat): seq<Row>
    requires i < |rows|
  {
    rows[..i] + rows[i + 1..]
  }

  /** The queue, with running totals of what became of every row ever enqueued
      and of how often each row was sent. */
  datatype Queue = Queue(rows: seq<Row>, nextId: nat, delivered: nat, dropped: nat, sends: map<nat, nat>)

  const EMPTY := Queue([], 1, 0, 0, map[])

  function SendsOf(q: Queue, id: nat): nat {
    if id in q.sends then q.sends[id] else 0
  }

  function Enqueued(q: Queue, activity: string, url: string, now: nat): Queue {
    q.(rows := q.rows + [Row(q.nextId, activity, url, 0, now)], nextId := q.nextId + 1)
  }

  function CountSend(q: Queue, id: nat): Queue {
    q.(sends := q.sends[id := SendsOf(q, id) + 1])
  }

  /** One attempt at row `i`: delivered, dropped or rescheduled. */
  function Attempted(q: Queue, i: nat, now: nat, response: Response): (Queue, Outcome)
    requires i < |q.rows|
  {
    var row := q.rows[i];
    var q := CountSend(q, row.id);
    if IsSuccess(response) then
      (q.(rows := Removed(q.rows, i), delivered := q.delivered + 1), Delivered)
    else if IsPermanent(response) || row.attempts + 1 >= MAX_ATTEMPTS then
      (q.(rows := Removed(q.rows, i), dropped := q.dropped + 1), Dropped)
    else
      var delay := BACKOFF_SECONDS[if row.attempts < 5 then row.attempts else 5];
      (q.(rows := q.rows[i := row.(attempts := row.attempts + 1, nextRetry := now + delay)]), Rescheduled(delay))
  }

  /** `drain_once`, given the activities in the outbox, whether signing works
      and what the remote side answers. */
  function Drained(q: Queue, outbox: set<string>, now: nat, signs: bool, response: Response): (Queue, Outcome) {
    match NextDue(q.rows, now)
    case None => (q, Idle)
    case Some(i) =>
      if q.rows[i].activity !in outbox then
        (q.(rows := Removed(q.rows, i), dropped := q.dropped + 1), Dropped)
      else if !signs then (q, SigningFailed)
      else Attempted(q, i, now, response)
  }

  // -------------------------------------------------------------- invariant

  ghost predicate RowsOk(q: Queue) {
    && (forall i | 0 <= i < |q.rows| ::
          q.rows[i].id < q.nextId && q.rows[i].attempts < MAX_ATTEMPTS && SendsOf(q, q.rows[i].id) == q.rows[i].attempts)
    && (forall i, j | 0 <= i < j < |q.rows| :: q.rows[i].id < q.rows[j].id)
  }

  ghost predicate SendsOk(q: Queue) {
    forall id | id in q.sends :: q.sends[id] <= MAX_ATTEMPTS && id < q.nextId
  }

  /** Stored attempts stay below the cap and equal the sends so far, no row is
      ever sent more than six times, and every row ever enqueued is queued,
      delivered or dropped. */
  ghost predicate Inv(q: Queue) {
    RowsOk(q) && SendsOk(q) && q.nextId == 1 + |q.rows| + q.delivered + q.dropped
  }

  lemma EmptyInv()
    ensures Inv(EMPTY)
  {
  }

  lemma EnqueueKeepsInv(q: Queue, activity: string, url: string, now: nat)
    requires Inv(q)
    ensures Inv(Enqueued(q, activity, url, now))
  {
  }

  lemma RemoveKeepsRows(q: Queue, i: nat)
    requires RowsOk(q) && i < |q.rows|
    ensures RowsOk(q.(rows := Removed(q.rows, i)))
    ensures forall k | 0 <= k < |q.rows| - 1 :: Removed(q.rows, i)[k].id != q.rows[i].id
  {
    var rest := Removed(q.rows, i);
    assert forall k | 0 <= k < |rest| :: rest[k] == q.rows[if k < i then k else k + 1];
  }

  lemma CountKeepsSends(q: Queue, i: nat)
    requires RowsOk(q) && SendsOk(q) && i < |q.rows|
    ensures var c := CountSend(q, q.rows[i].id);
            && SendsOk(c) && SendsOf(c, q.rows[i].id) == q.rows[i].attempts + 1
            && forall id | id != q.rows[i].id :: SendsOf(c, id) == SendsOf(q, id)
  {
  }

  lemma RescheduleKeepsRows(q: Queue, i: nat, retry: nat)
    requires RowsOk(q) && SendsOk(q) && i < |q.rows| && q.rows[i].attempts + 1 < MAX_ATTEMPTS
    ensures var row := q.rows[i].(attempts := q.rows[i].attempts + 1, nextRetry := retry);
            RowsOk(CountSend(q, row.id).(rows := q.rows[i := row]))
  {
    CountKeepsSends(q, i);
    hide SendsOk, CountSend;
    var c := CountSend(q, q.rows[i].id);
    forall k | 0 <= k < |q.rows| && k != i ensures q.rows[k].id != q.rows[i].id {
      assert k < i || i < k;
    }
  }

  lemma FinishKeepsRows(q: Queue, i: nat)
    requires RowsOk(q) && SendsOk(q) && i < |q.rows|
    ensures RowsOk(CountSend(q, q.rows[i].id).(rows := Removed(q.rows, i)))
  {
    CountKeepsSends(q, i);
    RemoveKeepsRows(q, i);
    hide SendsOk, Removed;
  }

  lemma AttemptKeepsInv(q: Queue, i: nat, now: nat, response: Response)
    requires Inv(q) && i < |q.rows|
    ensures Inv(Attempted(q, i, now, response).0)
  {
    CountKeepsSends(q, i);
    FinishKeepsRows(q, i);
    var r := Attempted(q, i, now, response).0;
    if |r.rows| == |q.rows| {
      RescheduleKeepsRows(q, i, r.rows[i].nextRetry);
    }
    hide SendsOf, RowsOk;
    assert SendsOk(r) == SendsOk(CountSend(q, q.rows[i].id));
  }

  /** Every drain step keeps the invariant. */
  lemma DrainKeepsInv(q: Queue, outbox: set<string>, now: nat, signs: bool, response: Response)
    requires Inv(q)
    ensures Inv(Drained(q, outbox, now, signs, response).0)
  {
    hide Attempted;
    if NextDue(q.rows, now).Some? {
      var i := NextDue(q.rows, now).value;
      RemoveKeepsRows(q, i);
      AttemptKeepsInv(q, i, now, response);
    }
  }

  // ------------------------------------------------------------ termination

  function Remaining(rows: seq<Row>): int {
    if rows == [] then 0 else MAX_ATTEMPTS - rows[0].attempts + Remaining(rows[1..])
  }

  lemma {:induction false} RemainingConcat(a: seq<Row>, b: seq<Row>)
    ensures Remaining(a + b) == Remaining(a) + Remaining(b)
  {
    if a == [] {
      assert a + b == b;
    } else {
      assert (a + b)[1..] == a[1..] + b;
      RemainingConcat(a[1..], b);
    }
  }

  lemma RemainingAt(rows: seq<Row>, i: nat)
    requires i < |rows|
    ensures Remaining(rows) == Remaining(Removed(rows, i)) + MAX_ATTEMPTS - rows[i].attempts
  {
    RemainingConcat(rows[..i], rows[i..]);
    RemainingConcat(rows[..i], rows[i + 1..]);
    assert rows == rows[..i] + rows[i..];
    assert rows[i..][1..] == rows[i + 1..];
  }

  lemma {:induction false} RemainingBounds(rows: seq<Row>)
    requires forall i | 0 <= i < |rows| :: rows[i].attempts < MAX_ATTEMPTS
    ensures |rows| <= Remaining(rows) <= MAX_ATTEMPTS * |rows|
  {
    if rows != [] {
      RemainingBounds(rows[1..]);
    }
  }

  lemma InvBounds(q: Queue)
    requires Inv(q)
    ensures |q.rows| <= Remaining(q.rows) <= MAX_ATTEMPTS * |q.rows|
  {
    RemainingBounds(q.rows);
  }

  lemma NothingDue(q: Queue, outbox: set<string>, turn: Turn)
    ensures var (r, o) := Drained(q, outbox, turn.now, turn.signs, turn.response);
            && r.nextId == q.nextId
            && (Progress(o) || o == Idle || o == SigningFailed)
            && (o == Idle ==> forall i | 0 <= i < |q.rows| :: turn.now < q.rows[i].nextRetry)
  {
  }

  predicate Progress(o: Outcome) {
    o.Delivered? || o.Dropped? || o.Rescheduled?
  }

  /** Each step that is neither idle nor an error uses up part of a finite budget. */
  lemma DrainProgress(q: Queue, outbox: set<string>, now: nat, signs: bool, response: Response)
    requires Inv(q)
    ensures var (r, o) := Drained(q, outbox, now, signs, response);
            && (Progress(o) ==> Remaining(r.rows) < Remaining(q.rows))
            && (!Progress(o) ==> r == q)
  {
    hide IsSuccess, IsPermanent, SendsOk, SendsOf, Remaining, Removed;
    if NextDue(q.rows, now).Some? {
      var i := NextDue(q.rows, now).value;
      RemainingAt(q.rows, i);
      var r := Drained(q, outbox, now, signs, response).0;
      if |r.rows| == |q.rows| {
        RemainingAfter(q.rows, i, r.rows[i]);
      }
    }
  }

  lemma RemainingAfter(rows: seq<Row>, i: nat, row: Row)
    requires i < |rows|
    ensures Remaining(rows[i := row]) == Remaining(rows) + rows[i].attempts - row.attempts
  {
    hide Remaining;
    RemainingAt(rows, i);
    RemainingAt(rows[i := row], i);
    assert Removed(rows[i := row], i) == Removed(rows, i);
  }

  // --------------------------------------------------------------- as run

  /** What one turn of the worker meets. */
  datatype Turn = Turn(now: nat, signs: bool, response: Response)

  class Worker {
    var rows: seq<Row>
    var nextId: nat
    var outbox: set<string>
    ghost var delivered: nat
    ghost var dropped: nat
    ghost var sends: map<nat, nat>

    ghost function Contents(): Queue
      reads this
    {
      Queue(rows, nextId, delivered, dropped, sends)
    }

    constructor (outbox: set<string>)
      ensures Contents() == EMPTY && this.outbox == outbox
    {
      rows, nextId, delivered, dropped, sends := [], 1, 0, 0, map[];
      this.outbox := outbox;
    }

    method EnqueueDelivery(activity: string, url: string, now: nat) returns (id: nat)
      modifies this
      ensures Contents() == Enqueued(old(Contents()), activity, url, now) && outbox == old(outbox)
      ensures id == old(nextId)
    {
      id := nextId;
      rows := rows + [Row(nextId, activity, url, 0, now)];
      nextId := nextId + 1;
    }

    /** `drain_once`. */
    method DrainOnce(turn: Turn) returns (outcome: Outcome)
      modifies this
      ensures (Contents(), outcome) == Drained(old(Contents()), outbox, turn.now, turn.signs, turn.response)
      ensures outbox == old(outbox)
    {
      var due := NextDue(rows, turn.now);
      if due.None? {
        return Idle;
      }
      var i := due.value;
      var row := rows[i];
      if row.activity !in outbox {
        rows := rows[..i] + rows[i + 1..];
        dropped := dropped + 1;
        return Dropped;
      }
      if !turn.signs {
        return SigningFailed;
      }
      sends := CountSend(Contents(), row.id).sends;
      if IsSuccess(turn.response) {
        rows := rows[..i] + rows[i + 1..];
        delivered := delivered + 1;
        return Delivered;
      }
      if IsPermanent(turn.response) || row.attempts + 1 >= MAX_ATTEMPTS {
        rows := rows[..i] + rows[i + 1..];
        dropped := dropped + 1;
        return Dropped;
      }
      var index := if row.attempts < |BACKOFF_SECONDS| - 1 then row.attempts else |BACKOFF_SECONDS| - 1;
      var delay := BACKOFF_SECONDS[index];
      rows := rows[i := row.(attempts := row.attempts + 1, nextRetry := turn.now + delay)];
      outcome := Rescheduled(delay);
    }

    /** The inner loop of `run`, whatever the network answers: it ends, after
        at most six attempts per queued row, with nothing due or an error. */
    method DrainUntilIdle(turns: nat -> Turn) returns (count: nat, last: Outcome)
      requires Inv(Contents())
      modifies this
      ensures Inv(Contents())
      ensures count <= MAX_ATTEMPTS * |old(rows)| && !Progress(last)
      ensures last.Idle? ==> forall i | 0 <= i < |rows| :: turns(count).now < rows[i].nextRetry
      ensures nextId == old(nextId)
    {
      hide Drained, RowsOk, SendsOk;
      count := 0;
      InvBounds(Contents());
      while true
        invariant Inv(Contents()) && nextId == old(nextId)
        invariant count + Remaining(rows) <= Remaining(old(rows))
        invariant Remaining(rows) >= 0
        decreases Remaining(rows)
      {
        ghost var before := Contents();
        var turn := turns(count);
        DrainKeepsInv(before, outbox, turn.now, turn.signs, turn.response);
        DrainProgress(before, outbox, turn.now, turn.signs, turn.response);
        NothingDue(before, outbox, turn);
        last := DrainOnce(turn);
        InvBounds(Contents());
        if last == Idle || last == SigningFailed {
          return;
        }
        count := count + 1;
      }
    }
  }

  // ------------------------------------------------------------ whole runs

  datatype Op =
    | Enqueue(activity: string, url: string, now: nat)
    | Drain(outbox: set<string>, turn: Turn)

  function Run(ops: seq<Op>): Queue {
    if ops == [] then EMPTY
    else
      var q := Run(ops[..|ops| - 1]);
      match ops[|ops| - 1]
      case Enqueue(activity, url, now) => Enqueued(q, activity, url, now)
      case Drain(outbox, turn) => Drained(q, outbox, turn.now, turn.signs, turn.response).0
  }

  function Enqueues(ops: seq<Op>): nat {
    if ops == [] then 0 else Enqueues(ops[..|ops| - 1]) + if ops[|ops| - 1].Enqueue? then 1 else 0
  }

  /** Over every run of enqueues and drains: no row is sent more than six
      times, and enqueued = queued + delivered + dropped. */
  lemma {:induction false} Accounting(ops: seq<Op>)
    ensures Inv(Run(ops)) && Run(ops).nextId == 1 + Enqueues(ops)
    ensures Enqueues(ops) == |Run(ops).rows| + Run(ops).delivered + Run(ops).dropped
  {
    hide Drained, Enqueued, RowsOk, SendsOk;
    if ops == [] {
      EmptyInv();
    } else {
      var init := ops[..|ops| - 1];
      Accounting(init);
      match ops[|ops| - 1]
      case Enqueue(activity, url, now) =>
        EnqueueKeepsInv(Run(init), activity, url, now);
        EnqueueCounts(Run(init), activity, url, now);
      case Drain(outbox, turn) =>
        DrainKeepsInv(Run(init), outbox, turn.now, turn.signs, turn.response);
        NothingDue(Run(init), outbox, turn);
    }
  }

  lemma EnqueueCounts(q: Queue, activity: string, url: string, now: nat)
    ensures Enqueued(q, activity, url, now).nextId == q.nextId + 1
  {
  }

  // ---------------------------------------------------------------- spacing

  /** The row that a drain step sends, if it gets as far as sending. */
  function SentRow(q: Queue, outbox: set<string>, turn: Turn): Option<nat> {
    match NextDue(q.rows, turn.now)
    case None => None
    case Some(i) => if q.rows[i].activity in outbox && turn.signs then Some(q.rows[i].id) else None
  }

  /** When row `id` was sent, over a whole run. */
  function SendTimes(ops: seq<Op>, id: nat): seq<nat> {
    if ops == [] then []
    else
      var before, op := SendTimes(ops[..|ops| - 1], id), ops[|ops| - 1];
      if op.Drain? && SentRow(Run(ops[..|ops| - 1]), op.outbox, op.turn) == Some(id)
      then before + [op.turn.now] else before
  }

  /** Each send waits for the table entry of the one before it. */
  ghost predicate Spaced(times: seq<nat>) {
    |times| <= MAX_ATTEMPTS && forall k | 0 < k < |times| :: times[k - 1] + BACKOFF_SECONDS[k - 1] <= times[k]
  }

  /** What the queue knows about the sends of row `id` so far. */
  ghost predicate TimesOk(q: Queue, id: nat, times: seq<nat>) {
    && Spaced(times) && (q.nextId <= id ==> times == [])
    && forall i | 0 <= i < |q.rows| && q.rows[i].id == id ::
         && |times| == q.rows[i].attempts < MAX_ATTEMPTS
         && (times != [] ==> q.rows[i].nextRetry == times[|times| - 1] + BACKOFF_SECONDS[|times| - 1])
  }

  lemma RemovedIsPart(q: Queue, r: Queue, i: nat, id: nat, times: seq<nat>)
    requires TimesOk(q, id, times) && i < |q.rows| && r.rows == Removed(q.rows, i) && r.nextId == q.nextId
    ensures TimesOk(r, id, times)
  {
    hide Spaced;
    assert forall k | 0 <= k < |r.rows| :: r.rows[k] == q.rows[if k < i then k else k + 1];
  }

  lemma SpacedAppend(times: seq<nat>, now: nat)
    requires Spaced(times) && |times| < MAX_ATTEMPTS
    requires times != [] ==> times[|times| - 1] + BACKOFF_SECONDS[|times| - 1] <= now
    ensures Spaced(times + [now])
  {
  }

  /** The row that is sent: one more time, and what becomes of the row. */
  lemma SentKeepsTimes(q: Queue, i: nat, turn: Turn, times: seq<nat>)
    requires Inv(q) && NextDue(q.rows, turn.now) == Some(i) && TimesOk(q, q.rows[i].id, times)
    ensures TimesOk(Attempted(q, i, turn.now, turn.response).0, q.rows[i].id, times + [turn.now])
  {
    var id, r := q.rows[i].id, Attempted(q, i, turn.now, turn.response).0;
    SpacedAppend(times, turn.now);
    RemoveKeepsRows(q, i);
    hide Spaced, SendsOk, IsSuccess, IsPermanent, SendsOf, Removed;
    forall k | 0 <= k < |q.rows| && k != i ensures q.rows[k].id != id {
      assert k < i || i < k;
    }
  }

  /** Any other row keeps its place, its count and its date. */
  lemma OthersKeepTimes(q: Queue, i: nat, turn: Turn, id: nat, times: seq<nat>)
    requires i < |q.rows| && q.rows[i].id != id && TimesOk(q, id, times)
    ensures TimesOk(Attempted(q, i, turn.now, turn.response).0, id, times)
  {
    hide Spaced, SendsOf, IsSuccess, IsPermanent, Removed;
    var r := Attempted(q, i, turn.now, turn.response).0;
    if |r.rows| != |q.rows| || r.rows == Removed(q.rows, i) {
      RemovedIsPart(q, r, i, id, times);
    }
  }

  lemma DrainKeepsTimes(q: Queue, outbox: set<string>, turn: Turn, id: nat, times: seq<nat>)
    requires Inv(q) && TimesOk(q, id, times)
    ensures var r := Drained(q, outbox, turn.now, turn.signs, turn.response).0;
            TimesOk(r, id, if SentRow(q, outbox, turn) == Some(id) then times + [turn.now] else times)
  {
    hide TimesOk, Inv, Attempted;
    var due := NextDue(q.rows, turn.now);
    if due.Some? {
      var i := due.value;
      if q.rows[i].activity !in outbox {
        RemovedIsPart(q, Drained(q, outbox, turn.now, turn.signs, turn.response).0, i, id, times);
      } else if turn.signs {
        if q.rows[i].id == id {
          SentKeepsTimes(q, i, turn, times);
        } else {
          OthersKeepTimes(q, i, turn, id, times);
        }
      }
    }
  }

  lemma EnqueueKeepsTimes(q: Queue, activity: string, url: string, now: nat, id: nat, times: seq<nat>)
    requires TimesOk(q, id, times)
    ensures TimesOk(Enqueued(q, activity, url, now), id, times)
  {
    hide Spaced;
  }

  /** Over every run, whatever the clock shows: no row is sent more than six
      times, and between two sends of a row lies at least the table entry for
      the earlier one. So the sixth entry, of a day, is never waited for. */
  lemma {:induction false} SendsAreSpaced(ops: seq<Op>, id: nat)
    ensures TimesOk(Run(ops), id, SendTimes(ops, id)) && Spaced(SendTimes(ops, id))
  {
    if ops != [] {
      hide TimesOk, Drained, Enqueued, Inv, SentRow;
      var init := ops[..|ops| - 1];
      SendsAreSpaced(init, id);
      Accounting(init);
      match ops[|ops| - 1] {
        case Enqueue(activity, url, now) =>
          EnqueueKeepsTimes(Run(init), activity, url, now, id, SendTimes(init, id));
        case Drain(outbox, turn) =>
          DrainKeepsTimes(Run(init), outbox, turn, id, SendTimes(init, id));
      }
      TimesAreSpaced(Run(ops), id, SendTimes(ops, id));
    }
  }

  lemma TimesAreSpaced(q: Queue, id: nat, times: seq<nat>)
    requires TimesOk(q, id, times)
    ensures Spaced(times)
  {
  }
}
