/** What becomes of a delivery, by the answers it meets. */
module DeliveryLaws {
  import opened Text
  import opened Delivery

  // ------------------------------------------------------- classes of answers

  /** The 2xx answers. */
  predicate Accepts(r: Response) {
    r.Status? && r.code / 100 == 2
  }

  /** The 4xx answers, except timeout and too many requests. */
  predicate Rejects(r: Response) {
    r.Status? && r.code / 100 == 4 && r.code !in {408, 429}
  }

  /** Everything else, a network error included. */
  predicate Retryable(r: Response) {
    !Accepts(r) && !Rejects(r)
  }

  lemma Classes(r: Response)
    ensures IsSuccess(r) <==> Accepts(r)
    ensures IsPermanent(r) <==> Rejects(r)
  {
  }

  /** The waits: half a minute, two and ten minutes, one and six hours, a day;
      as many attempts as there are entries. */
  lemma WaitsAre()
    ensures BACKOFF_SECONDS == [30, 2 * 60, 10 * 60, 60 * 60, 6 * 60 * 60, 24 * 60 * 60]
    ensures MAX_ATTEMPTS == |BACKOFF_SECONDS|
  {
  }

  // ------------------------------------------------------------ over every run

  function LastOp(ops: seq<Op>): Op
    requires ops != []
  {
    ops[|ops| - 1]
  }

  /** The answers that the sends of row `id` met, in order. */
  function Answers(ops: seq<Op>, id: nat): seq<Response> {
    if ops == [] then []
    else
      var before, op := Answers(ops[..|ops| - 1], id), LastOp(ops);
      if op.Drain? && SentRow(Run(ops[..|ops| - 1]), op.outbox, op.turn) == Some(id)
      then before + [op.turn.response] else before
  }

  /** A drain found that the activity of row `id` is gone. */
  predicate Orphans(q: Queue, op: Op, id: nat) {
    op.Drain? && NextDue(q.rows, op.turn.now).Some?
    && var row := q.rows[NextDue(q.rows, op.turn.now).value]; row.id == id && row.activity !in op.outbox
  }

  predicate Orphaned(ops: seq<Op>, id: nat) {
    ops != [] && (Orphaned(ops[..|ops| - 1], id) || Orphans(Run(ops[..|ops| - 1]), LastOp(ops), id))
  }

  predicate Queued(q: Queue, id: nat) {
    exists i :: 0 <= i < |q.rows| && q.rows[i].id == id
  }

  ghost predicate AttemptsAre(q: Queue, id: nat, n: nat) {
    forall i | 0 <= i < |q.rows| && q.rows[i].id == id :: q.rows[i].attempts == n
  }

  ghost predicate FateOk(q: Queue, id: nat, answers: seq<Response>, orphaned: bool) {
    && (forall k | 0 <= k < |answers| - 1 :: Retryable(answers[k]))
    && (q.nextId <= id ==> answers == [])
    && (Queued(q, id) ==> AttemptsAre(q, id, |answers|) && forall k | 0 <= k < |answers| :: Retryable(answers[k]))
    && (1 <= id < q.nextId && !Queued(q, id) ==>
          orphaned || (answers != [] && (!Retryable(answers[|answers| - 1]) || |answers| == 6)))
  }

  lemma QueuedAfterRemoval(q: Queue, i: nat, id: nat)
    requires RowsOk(q) && i < |q.rows|
    ensures var r := q.(rows := Removed(q.rows, i));
            && (Queued(r, id) <==> Queued(q, id) && id != q.rows[i].id)
            && (forall n :: AttemptsAre(q, id, n) ==> AttemptsAre(r, id, n))
  {
    var rest := Removed(q.rows, i);
    assert forall k | 0 <= k < |rest| :: rest[k] == q.rows[if k < i then k else k + 1];
    hide Removed;
    if k :| 0 <= k < |q.rows| && q.rows[k].id == id {
      assert id != q.rows[i].id ==> k != i && rest[if k < i then k else k - 1].id == id;
    }
  }

  lemma QueuedAfterRetry(q: Queue, i: nat, row: Row, id: nat)
    requires RowsOk(q) && i < |q.rows| && row.id == q.rows[i].id
    ensures var r := q.(rows := q.rows[i := row]);
            && (Queued(r, id) <==> Queued(q, id))
            && (id != row.id ==> forall n :: AttemptsAre(q, id, n) ==> AttemptsAre(r, id, n))
            && (id == row.id ==> Queued(q, id) && AttemptsAre(r, id, row.attempts) && AttemptsAre(q, id, q.rows[i].attempts))
  {
    var r := q.(rows := q.rows[i := row]);
    if k :| 0 <= k < |q.rows| && q.rows[k].id == id {
      assert r.rows[k].id == id;
    }
    if k :| 0 <= k < |r.rows| && r.rows[k].id == id {
      assert q.rows[k].id == id;
    }
    forall k | 0 <= k < |q.rows| && k != i ensures q.rows[k].id != row.id {
      assert k < i || i < k;
    }
  }

  lemma SameRows(q: Queue, r: Queue, id: nat)
    requires r.rows == q.rows
    ensures Queued(r, id) <==> Queued(q, id)
    ensures forall n :: AttemptsAre(r, id, n) <==> AttemptsAre(q, id, n)
  {
  }

  /** The row that is sent meets its answer. */
  lemma SentFate(q: Queue, i: nat, turn: Turn, answers: seq<Response>, orphaned: bool)
    requires Inv(q) && i < |q.rows| && FateOk(q, q.rows[i].id, answers, orphaned)
    ensures FateOk(Attempted(q, i, turn.now, turn.response).0, q.rows[i].id, answers + [turn.response], orphaned)
  {
    var id, row, c := q.rows[i].id, q.rows[i], CountSend(q, q.rows[i].id);
    Classes(turn.response);
    assert Queued(q, id);
    assert AttemptsAre(q, id, |answers|);
    assert row.attempts == |answers| && row.attempts < 6 && id < q.nextId;
    var r := Attempted(q, i, turn.now, turn.response).0;
    QueuedAfterRemoval(q, i, id);
    hide IsSuccess, IsPermanent, Accepts, Rejects, RowsOk, SendsOk, SendsOf, Removed;
    if Retryable(turn.response) && row.attempts + 1 < MAX_ATTEMPTS {
      assert r.rows == q.rows[i := r.rows[i]] && r.rows[i].id == id && r.rows[i].attempts == row.attempts + 1;
      QueuedAfterRetry(q, i, r.rows[i], id);
      SameRows(q.(rows := q.rows[i := r.rows[i]]), r, id);
      hide Queued, AttemptsAre;
      assert |answers + [turn.response]| == row.attempts + 1;
    } else {
      assert r.rows == Removed(q.rows, i);
      SameRows(q.(rows := Removed(q.rows, i)), r, id);
      hide Queued, AttemptsAre;
    }
  }

  /** Every other row keeps its fate. */
  lemma OtherFate(q: Queue, i: nat, turn: Turn, id: nat, answers: seq<Response>, orphaned: bool)
    requires Inv(q) && i < |q.rows| && q.rows[i].id != id && FateOk(q, id, answers, orphaned)
    ensures FateOk(Attempted(q, i, turn.now, turn.response).0, id, answers, orphaned)
    ensures FateOk(q.(rows := Removed(q.rows, i), dropped := q.dropped + 1), id, answers, orphaned)
  {
    var r := Attempted(q, i, turn.now, turn.response).0;
    QueuedAfterRemoval(q, i, id);
    SameRows(q.(rows := Removed(q.rows, i)), q.(rows := Removed(q.rows, i), dropped := q.dropped + 1), id);
    hide IsSuccess, IsPermanent, RowsOk, SendsOk, SendsOf, Removed, Retryable;
    if r.rows == Removed(q.rows, i) {
      SameRows(q.(rows := Removed(q.rows, i)), r, id);
    } else {
      QueuedAfterRetry(q, i, r.rows[i], id);
      SameRows(q.(rows := q.rows[i := r.rows[i]]), r, id);
    }
    hide Queued, AttemptsAre;
  }

  lemma OrphanFate(q: Queue, i: nat, answers: seq<Response>, orphaned: bool)
    requires Inv(q) && i < |q.rows| && FateOk(q, q.rows[i].id, answers, orphaned)
    ensures FateOk(q.(rows := Removed(q.rows, i), dropped := q.dropped + 1), q.rows[i].id, answers, true)
  {
    var id := q.rows[i].id;
    QueuedAfterRemoval(q, i, id);
    SameRows(q.(rows := Removed(q.rows, i)), q.(rows := Removed(q.rows, i), dropped := q.dropped + 1), id);
    hide RowsOk, SendsOk, Removed, Retryable, Queued, AttemptsAre;
  }

  lemma DrainFate(q: Queue, op: Op, id: nat, answers: seq<Response>, orphaned: bool)
    requires op.Drain? && Inv(q) && FateOk(q, id, answers, orphaned)
    ensures var r := Drained(q, op.outbox, op.turn.now, op.turn.signs, op.turn.response).0;
            FateOk(r, id, if SentRow(q, op.outbox, op.turn) == Some(id) then answers + [op.turn.response] else answers,
                   orphaned || Orphans(q, op, id))
  {
    hide FateOk, Inv, Attempted, Removed;
    var due := NextDue(q.rows, op.turn.now);
    if due.Some? {
      var i := due.value;
      if q.rows[i].activity !in op.outbox {
        if q.rows[i].id == id {
          OrphanFate(q, i, answers, orphaned);
        } else {
          OtherFate(q, i, op.turn, id, answers, orphaned);
        }
      } else if op.turn.signs {
        if q.rows[i].id == id {
          SentFate(q, i, op.turn, answers, orphaned);
        } else {
          OtherFate(q, i, op.turn, id, answers, orphaned);
        }
      }
    }
  }

  lemma EnqueueFate(q: Queue, activity: string, url: string, now: nat, id: nat, answers: seq<Response>, orphaned: bool)
    requires Inv(q) && FateOk(q, id, answers, orphaned)
    ensures FateOk(Enqueued(q, activity, url, now), id, answers, orphaned)
  {
    hide Retryable, SendsOk, SendsOf;
    var r := Enqueued(q, activity, url, now);
    assert r.rows[|q.rows|].id == q.nextId;
    if i :| 0 <= i < |q.rows| && q.rows[i].id == id {
      assert r.rows[i].id == id;
    }
    assert Queued(r, id) <==> Queued(q, id) || id == q.nextId;
  }

  /** The fate of every row of every run: a send is answered by 2xx, by a 4xx
      other than 408 and 429, or by something to be retried; only the last
      answer of a row can be of the first two kinds; a row is queued while all
      its answers, fewer than six, ask for a retry; and it leaves the queue only
      by an answer of the first two kinds, by its sixth answer, or because its
      activity is gone. */
  lemma {:induction false} Fates(ops: seq<Op>, id: nat)
    ensures FateOk(Run(ops), id, Answers(ops, id), Orphaned(ops, id))
  {
    if ops == [] {
      NoRows(id);
    } else {
      hide FateOk, Drained, Enqueued, Inv, SentRow, Orphans;
      var init := ops[..|ops| - 1];
      Fates(init, id);
      Accounting(init);
      match LastOp(ops) {
        case Enqueue(activity, url, now) =>
          EnqueueFate(Run(init), activity, url, now, id, Answers(init, id), Orphaned(init, id));
          assert !Orphans(Run(init), LastOp(ops), id) by { EnqueueOrphansNothing(Run(init), LastOp(ops), id); }
        case Drain(outbox, turn) =>
          DrainFate(Run(init), LastOp(ops), id, Answers(init, id), Orphaned(init, id));
      }
    }
  }

  lemma NoRows(id: nat)
    ensures FateOk(EMPTY, id, [], false)
  {
  }

  lemma EnqueueOrphansNothing(q: Queue, op: Op, id: nat)
    requires op.Enqueue?
    ensures !Orphans(q, op, id)
  {
  }

  /** Sends that were answered by 2xx. */
  function Accepted(ops: seq<Op>): nat {
    if ops == [] then 0
    else
      var init, op := ops[..|ops| - 1], LastOp(ops);
      Accepted(init)
      + if op.Drain? && SentRow(Run(init), op.outbox, op.turn).Some? && Accepts(op.turn.response) then 1 else 0
  }

  /** What is counted as delivered is exactly what was answered by 2xx. */
  lemma {:induction false} DeliveredIsAccepted(ops: seq<Op>)
    ensures Run(ops).delivered == Accepted(ops)
  {
    if ops != [] {
      var init, op := ops[..|ops| - 1], LastOp(ops);
      DeliveredIsAccepted(init);
      if op.Drain? {
        Classes(op.turn.response);
      }
      hide IsSuccess, IsPermanent, Accepts, SendsOf, Removed;
    }
  }

  /** A row is due from the moment it is enqueued: a drain at that time sends it
      if nothing before it is due. */
  lemma EnqueuedIsSent(q: Queue, activity: string, url: string, outbox: set<string>, turn: Turn)
    requires activity in outbox && turn.signs && forall i | 0 <= i < |q.rows| :: turn.now < q.rows[i].nextRetry
    ensures SentRow(Enqueued(q, activity, url, turn.now), outbox, turn) == Some(q.nextId)
    ensures turn.now > 0 ==> NextDue(Enqueued(q, activity, url, turn.now).rows, turn.now - 1) == None
  {
    var r := Enqueued(q, activity, url, turn.now);
    assert r.rows[|q.rows|] == Row(q.nextId, activity, url, 0, turn.now);
    assert forall i | 0 <= i < |q.rows| :: r.rows[i] == q.rows[i];
  }
}
