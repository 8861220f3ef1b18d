/** Overlapping drains of one shared queue. `drain_once` selects a row, sends,
    and only then deletes or reschedules the row, so a second drain can select
    the same row in between. */
module DeliveryRuns {
  import opened Text
  import opened Delivery

  /** A drain in progress: the row it selected, the attempts it read, and
      whether it has sent. */
  datatype Flight = Flight(id: nat, attempts: nat, sent: bool)

  datatype State = State(rows: map<nat, Row>, nextId: nat, flights: seq<Flight>, sends: map<nat, nat>)

  const START := State(map[], 1, [], map[])

  datatype Step =
    | Put(activity: string, url: string, now: nat)
    | Select(id: nat, now: nat)
    | Send(f: nat)                                 // signed and posted
    | Orphan(f: nat)                               // the activity is gone
    | Abort(f: nat)                                // signing failed
    | Finish(f: nat, response: Response, now: nat)

  function Sends(s: State, id: nat): nat {
    if id in s.sends then s.sends[id] else 0
  }

  function Without(fs: seq<Flight>, f: nat): seq<Flight>
    requires f < |fs|
  {
    fs[..f] + fs[f + 1..]
  }

  /** UPDATE: only a row that is still there, and from what is stored now. */
  function Retried(rows: map<nat, Row>, id: nat, retry: nat): map<nat, Row> {
    if id in rows then rows[id := rows[id].(attempts := rows[id].attempts + 1, nextRetry := retry)] else rows
  }

  /** Whether a finished drain removes its row; it goes by the attempts it read. */
  predicate Removes(f: Flight, response: Response) {
    IsSuccess(response) || IsPermanent(response) || f.attempts + 1 >= MAX_ATTEMPTS
  }

  ghost predicate Enabled(s: State, step: Step) {
    match step
    case Put(_, _, _) => true
    case Select(id, now) =>
      id in s.rows && s.rows[id].nextRetry <= now && forall other | other in s.rows && other < id :: now < s.rows[other].nextRetry
    case Send(f) => f < |s.flights| && !s.flights[f].sent
    case Orphan(f) => f < |s.flights| && !s.flights[f].sent
    case Abort(f) => f < |s.flights| && !s.flights[f].sent
    case Finish(f, _, _) => f < |s.flights| && s.flights[f].sent
  }

  ghost function Apply(s: State, step: Step): State
    requires Enabled(s, step)
  {
    match step
    case Put(activity, url, now) =>
      s.(rows := s.rows[s.nextId := Row(s.nextId, activity, url, 0, now)], nextId := s.nextId + 1)
    case Select(id, _) => s.(flights := s.flights + [Flight(id, s.rows[id].attempts, false)])
    case Send(f) =>
      s.(flights := s.flights[f := s.flights[f].(sent := true)],
         sends := s.sends[s.flights[f].id := Sends(s, s.flights[f].id) + 1])
    case Orphan(f) => s.(flights := Without(s.flights, f), rows := s.rows - {s.flights[f].id})
    case Abort(f) => s.(flights := Without(s.flights, f))
    case Finish(f, response, now) =>
      var flight := s.flights[f];
      s.(flights := Without(s.flights, f),
         rows := if Removes(flight, response) then s.rows - {flight.id}
                 else Retried(s.rows, flight.id, now + BACKOFF_SECONDS[flight.attempts]))
  }

  /** `steps` can be taken from `s`, with at most `w` drains in progress at any time. */
  ghost predicate Runs(w: nat, s: State, steps: seq<Step>)
    decreases |steps|
  {
    steps == [] || (Enabled(s, steps[0]) && |Apply(s, steps[0]).flights| <= w && Runs(w, Apply(s, steps[0]), steps[1..]))
  }

  ghost function After(w: nat, s: State, steps: seq<Step>): State
    requires Runs(w, s, steps)
    decreases |steps|
  {
    if steps == [] then s else After(w, Apply(s, steps[0]), steps[1..])
  }

  // --------------------------------------------------------------- counting

  function Tally(fs: seq<Flight>, p: Flight -> bool): (n: nat)
    ensures n <= |fs|
  {
    if fs == [] then 0 else Tally(fs[..|fs| - 1], p) + if p(fs[|fs| - 1]) then 1 else 0
  }

  lemma {:induction false} TallyConcat(a: seq<Flight>, b: seq<Flight>, p: Flight -> bool)
    ensures Tally(a + b, p) == Tally(a, p) + Tally(b, p)
    decreases |b|
  {
    if b == [] {
      assert a + b == a;
    } else {
      assert (a + b)[..|a + b| - 1] == a + b[..|b| - 1];
      TallyConcat(a, b[..|b| - 1], p);
    }
  }

  lemma TallyOne(f: Flight, p: Flight -> bool)
    ensures Tally([f], p) == if p(f) then 1 else 0
  {
    assert [f][..0] == [];
  }

  lemma TallyAppend(fs: seq<Flight>, f: Flight, p: Flight -> bool)
    ensures Tally(fs + [f], p) == Tally(fs, p) + if p(f) then 1 else 0
  {
    TallyConcat(fs, [f], p);
    TallyOne(f, p);
  }

  lemma TallyWithout(fs: seq<Flight>, i: nat, p: Flight -> bool)
    requires i < |fs|
    ensures Tally(fs, p) == Tally(Without(fs, i), p) + if p(fs[i]) then 1 else 0
  {
    hide *;
    ThreePieces(fs, i);
    var a, b := fs[..i], fs[i + 1..];
    TallyConcat(a, b, p);
    TallyAppend(a, fs[i], p);
    TallyConcat(a + [fs[i]], b, p);
  }

  lemma ThreePieces(fs: seq<Flight>, i: nat)
    requires i < |fs|
    ensures fs == fs[..i] + [fs[i]] + fs[i + 1..] && Without(fs, i) == fs[..i] + fs[i + 1..]
  {
  }

  lemma TallyUpdate(fs: seq<Flight>, i: nat, f: Flight, p: Flight -> bool)
    requires i < |fs|
    ensures Tally(fs[i := f], p) == Tally(fs, p) - (if p(fs[i]) then 1 else 0) + if p(f) then 1 else 0
  {
    hide Tally;
    TallyWithout(fs, i, p);
    TallyWithout(fs[i := f], i, p);
    assert Without(fs[i := f], i) == Without(fs, i);
  }

  /** Drains of row `id` in progress that have sent, ... */
  function Sent(s: State, id: nat): nat {
    Tally(s.flights, (f: Flight) => f.id == id && f.sent)
  }

  /** ... that are yet to send, ... */
  function Unsent(s: State, id: nat): nat {
    Tally(s.flights, (f: Flight) => f.id == id && !f.sent)
  }

  /** ... and that may still reschedule. */
  function Live(s: State, id: nat): nat {
    Tally(s.flights, (f: Flight) => f.id == id && f.attempts + 1 < MAX_ATTEMPTS)
  }

  lemma {:induction false} NeverBoth(fs: seq<Flight>, id: nat)
    ensures Tally(fs, (f: Flight) => f.id == id && f.sent) + Tally(fs, (f: Flight) => f.id == id && !f.sent) <= |fs|
  {
    if fs != [] {
      NeverBoth(fs[..|fs| - 1], id);
    }
  }

  // -------------------------------------------------------------- invariant

  /** What holds of one row id with at most `w` drains in progress. */
  ghost predicate RowInv(w: nat, s: State, id: nat) {
    && Sends(s, id) + Unsent(s, id) <= 2 * w + 4
    && (id in s.rows ==>
          && Sends(s, id) == s.rows[id].attempts + Sent(s, id)
          && s.rows[id].attempts + Live(s, id) <= w + 4)
    && (s.nextId <= id ==> id !in s.rows && Sends(s, id) == 0 && Sent(s, id) == 0 && Unsent(s, id) == 0 && Live(s, id) == 0)
  }

  ghost predicate RowsKeyed(s: State) {
    forall id | id in s.rows :: id < s.nextId
  }

  lemma SelectKeeps(w: nat, s: State, step: Step, id: nat)
    requires step.Select? && Enabled(s, step) && RowInv(w, s, id) && RowsKeyed(s) && |Apply(s, step).flights| <= w
    ensures RowInv(w, Apply(s, step), id)
  {
    var f, r := Flight(step.id, s.rows[step.id].attempts, false), Apply(s, step);
    TallyAppend(s.flights, f, (f: Flight) => f.id == id && f.sent);
    TallyAppend(s.flights, f, (f: Flight) => f.id == id && !f.sent);
    TallyAppend(s.flights, f, (f: Flight) => f.id == id && f.attempts + 1 < MAX_ATTEMPTS);
    NeverBoth(r.flights, id);
    hide Tally;
  }

  lemma SendKeeps(w: nat, s: State, step: Step, id: nat)
    requires step.Send? && Enabled(s, step) && RowInv(w, s, id)
    ensures RowInv(w, Apply(s, step), id)
  {
    var i := step.f;
    var f := s.flights[i].(sent := true);
    TallyUpdate(s.flights, i, f, (f: Flight) => f.id == id && f.sent);
    TallyUpdate(s.flights, i, f, (f: Flight) => f.id == id && !f.sent);
    TallyUpdate(s.flights, i, f, (f: Flight) => f.id == id && f.attempts + 1 < MAX_ATTEMPTS);
    hide Tally;
  }

  /** A drain that ends takes its share of every count with it. */
  lemma EndCounts(s: State, i: nat, id: nat, r: State)
    requires i < |s.flights| && r.flights == Without(s.flights, i)
    ensures var f := s.flights[i];
            && Sent(s, id) == Sent(r, id) + (if f.id == id && f.sent then 1 else 0)
            && Unsent(s, id) == Unsent(r, id) + (if f.id == id && !f.sent then 1 else 0)
            && Live(s, id) == Live(r, id) + (if f.id == id && f.attempts + 1 < MAX_ATTEMPTS then 1 else 0)
  {
    TallyWithout(s.flights, i, (f: Flight) => f.id == id && f.sent);
    TallyWithout(s.flights, i, (f: Flight) => f.id == id && !f.sent);
    TallyWithout(s.flights, i, (f: Flight) => f.id == id && f.attempts + 1 < MAX_ATTEMPTS);
    hide Tally;
  }

  lemma EndKeeps(w: nat, s: State, step: Step, id: nat)
    requires (step.Orphan? || step.Abort? || step.Finish?) && Enabled(s, step) && RowInv(w, s, id)
    ensures RowInv(w, Apply(s, step), id)
  {
    hide Tally, Sent, Unsent, Live, IsSuccess, IsPermanent;
    EndCounts(s, step.f, id, Apply(s, step));
  }

  lemma EnqueueKeeps(w: nat, s: State, step: Step, id: nat)
    requires step.Put? && RowInv(w, s, id) && RowsKeyed(s)
    ensures RowInv(w, Apply(s, step), id)
  {
    hide Tally;
    var r := Apply(s, step);
    assert Sent(r, id) == Sent(s, id) && Unsent(r, id) == Unsent(s, id) && Live(r, id) == Live(s, id);
  }

  lemma StepKeeps(w: nat, s: State, step: Step, id: nat)
    requires Enabled(s, step) && RowInv(w, s, id) && RowsKeyed(s) && |Apply(s, step).flights| <= w
    ensures RowInv(w, Apply(s, step), id) && RowsKeyed(Apply(s, step))
  {
    KeyedKeeps(s, step);
    hide RowInv, RowsKeyed, Apply, Enabled;
    match step
    case Put(_, _, _) => EnqueueKeeps(w, s, step, id);
    case Select(_, _) => SelectKeeps(w, s, step, id);
    case Send(_) => SendKeeps(w, s, step, id);
    case _ => EndKeeps(w, s, step, id);
  }

  lemma KeyedKeeps(s: State, step: Step)
    requires Enabled(s, step) && RowsKeyed(s)
    ensures RowsKeyed(Apply(s, step))
  {
    hide IsSuccess, IsPermanent;
  }

  lemma {:induction false} InvHolds(w: nat, s: State, steps: seq<Step>, id: nat)
    requires Runs(w, s, steps) && RowInv(w, s, id) && RowsKeyed(s)
    ensures RowInv(w, After(w, s, steps), id)
    decreases |steps|
  {
    hide RowInv, RowsKeyed, Apply, Enabled;
    if steps != [] {
      StepKeeps(w, s, steps[0], id);
      InvHolds(w, Apply(s, steps[0]), steps[1..], id);
    }
  }

  /** With at most `w` drains in progress at any time, whatever they meet and
      however they interleave, no row is sent more than 2w + 4 times; while it
      is queued, the stored attempts exceed neither w + 4 nor the sends. */
  lemma SendBound(w: nat, steps: seq<Step>, id: nat)
    requires Runs(w, START, steps)
    ensures var s := After(w, START, steps);
            && Sends(s, id) <= 2 * w + 4
            && (id in s.rows ==> s.rows[id].attempts <= w + 4 && s.rows[id].attempts <= Sends(s, id))
  {
    hide Runs, After;
    InvHolds(w, START, steps, id);
  }

  // --------------------------------------------------- without overlap

  /** The rows as a table under their primary key. */
  function Table(rows: seq<Row>): map<nat, Row> {
    if rows == [] then map[] else Table(rows[..|rows| - 1])[rows[|rows| - 1].id := rows[|rows| - 1]]
  }

  ghost predicate Sorted(rows: seq<Row>) {
    forall i, j | 0 <= i < j < |rows| :: rows[i].id < rows[j].id
  }

  lemma {:induction false} TableExact(rows: seq<Row>)
    requires Sorted(rows)
    ensures forall i | 0 <= i < |rows| :: rows[i].id in Table(rows) && Table(rows)[rows[i].id] == rows[i]
    ensures forall id | id in Table(rows) :: exists i :: 0 <= i < |rows| && rows[i].id == id
  {
    if rows != [] {
      TableExact(rows[..|rows| - 1]);
    }
  }

  lemma {:induction false} TableLacks(rows: seq<Row>, id: nat)
    requires forall i | 0 <= i < |rows| :: rows[i].id != id
    ensures id !in Table(rows)
  {
    if rows != [] {
      TableLacks(rows[..|rows| - 1], id);
    }
  }

  lemma {:induction false} TableRemoved(rows: seq<Row>, i: nat)
    requires Sorted(rows) && i < |rows|
    ensures Table(Removed(rows, i)) == Table(rows) - {rows[i].id}
    decreases |rows|
  {
    var init, last := rows[..|rows| - 1], rows[|rows| - 1];
    var rest := Removed(rows, i);
    RemovedLast(rows, i);
    hide Removed;
    if i == |init| {
      TableLacks(init, last.id);
    } else {
      TableRemoved(init, i);
    }
  }

  lemma RemovedLast(rows: seq<Row>, i: nat)
    requires i < |rows|
    ensures var init, rest := rows[..|rows| - 1], Removed(rows, i);
            if i == |init| then rest == init
            else rest != [] && rest[..|rest| - 1] == Removed(init, i) && rest[|rest| - 1] == rows[|rows| - 1]
  {
  }

  lemma {:induction false} TableUpdated(rows: seq<Row>, i: nat, row: Row)
    requires Sorted(rows) && i < |rows| && row.id == rows[i].id
    ensures Table(rows[i := row]) == Table(rows)[row.id := row]
    decreases |rows|
  {
    var init, next := rows[..|rows| - 1], rows[i := row];
    if i == |init| {
      assert next[..|next| - 1] == init;
    } else {
      TableUpdated(init, i, row);
      assert next[..|next| - 1] == init[i := row];
    }
  }

  function AsState(q: Queue): State {
    State(Table(q.rows), q.nextId, [], q.sends)
  }

  lemma SortedRows(q: Queue)
    requires Inv(q)
    ensures Sorted(q.rows) && forall i | 0 <= i < |q.rows| :: q.rows[i].attempts < MAX_ATTEMPTS
  {
  }

  /** Steps that end with no drain in progress, as `Drained` does. */
  ghost predicate Simulates(q: Queue, r: Queue, steps: seq<Step>) {
    Runs(1, AsState(q), steps) && After(1, AsState(q), steps) == AsState(r)
  }

  lemma TwoSteps(s: State, a: Step, b: Step)
    requires Enabled(s, a) && |Apply(s, a).flights| <= 1
    requires Enabled(Apply(s, a), b) && |Apply(Apply(s, a), b).flights| <= 1
    ensures Runs(1, s, [a, b]) && After(1, s, [a, b]) == Apply(Apply(s, a), b)
  {
    hide Apply, Enabled, Runs, After;
    RunsOne(1, s, a);
    RunsOne(1, Apply(s, a), b);
    assert [a, b] == [a] + [b];
    RunsConcat(1, s, [a], [b]);
  }

  /** Selecting the first due row. */
  lemma Selected(q: Queue, i: nat, now: nat)
    requires Inv(q) && NextDue(q.rows, now) == Some(i)
    ensures var s, id := AsState(q), q.rows[i].id;
            && Enabled(s, Select(id, now))
            && Apply(s, Select(id, now)) == s.(flights := [Flight(id, q.rows[i].attempts, false)])
  {
    SortedRows(q);
    TableExact(q.rows);
    hide Table, Inv;
    var s, id := AsState(q), q.rows[i].id;
    forall other | other in s.rows && other < id ensures now < s.rows[other].nextRetry {
      var k :| 0 <= k < |q.rows| && q.rows[k].id == other;
      assert k < i by { assert k != i && !(i < k); }
    }
    assert [] + [Flight(id, q.rows[i].attempts, false)] == [Flight(id, q.rows[i].attempts, false)];
  }

  /** The drain of row `i`, when it has sent. */
  function SentAlone(q: Queue, i: nat): State
    requires i < |q.rows|
  {
    var id := q.rows[i].id;
    State(Table(q.rows), q.nextId, [Flight(id, q.rows[i].attempts, true)], q.sends[id := SendsOf(q, id) + 1])
  }

  lemma RemovedAlone(q: Queue, i: nat, now: nat, response: Response)
    requires Inv(q) && i < |q.rows| && Removes(Flight(q.rows[i].id, q.rows[i].attempts, true), response)
    ensures var s := SentAlone(q, i);
            Enabled(s, Finish(0, response, now)) && Apply(s, Finish(0, response, now)) == AsState(Attempted(q, i, now, response).0)
  {
    hide Table, RowsOk, SendsOk, IsSuccess, IsPermanent, Removed, Sorted;
    SortedRows(q);
    TableRemoved(q.rows, i);
    var f := Flight(q.rows[i].id, q.rows[i].attempts, true);
    assert Without([f], 0) == [];
  }

  lemma RetriedAlone(q: Queue, i: nat, now: nat, response: Response)
    requires Inv(q) && i < |q.rows| && !Removes(Flight(q.rows[i].id, q.rows[i].attempts, true), response)
    ensures var s := SentAlone(q, i);
            Enabled(s, Finish(0, response, now)) && Apply(s, Finish(0, response, now)) == AsState(Attempted(q, i, now, response).0)
  {
    hide Table, RowsOk, SendsOk, IsSuccess, IsPermanent, Removed, Sorted;
    SortedRows(q);
    TableExact(q.rows);
    var row := q.rows[i];
    TableUpdated(q.rows, i, row.(attempts := row.attempts + 1, nextRetry := now + BACKOFF_SECONDS[row.attempts]));
    var f := Flight(row.id, row.attempts, true);
    assert Without([f], 0) == [];
  }

  lemma FinishedAlone(q: Queue, i: nat, now: nat, response: Response)
    requires Inv(q) && i < |q.rows|
    ensures var s := SentAlone(q, i);
            Enabled(s, Finish(0, response, now)) && Apply(s, Finish(0, response, now)) == AsState(Attempted(q, i, now, response).0)
  {
    hide *;
    if Removes(Flight(q.rows[i].id, q.rows[i].attempts, true), response) {
      RemovedAlone(q, i, now, response);
    } else {
      RetriedAlone(q, i, now, response);
    }
  }

  lemma SendsAlone(q: Queue, i: nat)
    requires i < |q.rows|
    ensures var s := AsState(q).(flights := [Flight(q.rows[i].id, q.rows[i].attempts, false)]);
            Enabled(s, Send(0)) && Apply(s, Send(0)) == SentAlone(q, i)
  {
    hide Table;
    var f := Flight(q.rows[i].id, q.rows[i].attempts, false);
    assert [f][0 := f.(sent := true)] == [f.(sent := true)];
  }

  /** Orphaned rows go; a failure to sign leaves everything as it was. */
  lemma UnsentAlone(q: Queue, i: nat)
    requires Inv(q) && i < |q.rows|
    ensures var s := AsState(q).(flights := [Flight(q.rows[i].id, q.rows[i].attempts, false)]);
            && Enabled(s, Orphan(0)) && Apply(s, Orphan(0)) == AsState(q.(rows := Removed(q.rows, i), dropped := q.dropped + 1))
            && Enabled(s, Abort(0)) && Apply(s, Abort(0)) == AsState(q)
  {
    hide Table, RowsOk, SendsOk, Removed, Sorted;
    SortedRows(q);
    TableRemoved(q.rows, i);
    var f := Flight(q.rows[i].id, q.rows[i].attempts, false);
    assert Without([f], 0) == [];
  }

  lemma IdleStates(q: Queue, i: nat)
    requires i < |q.rows|
    ensures |AsState(q).flights| == 0 && |SentAlone(q, i).flights| == 1
    ensures forall f: Flight :: |AsState(q).(flights := [f]).flights| == 1
  {
    hide Table;
  }

  lemma SendAndFinish(q: Queue, i: nat, turn: Turn) returns (steps: seq<Step>)
    requires Inv(q) && NextDue(q.rows, turn.now) == Some(i)
    ensures Simulates(q, Attempted(q, i, turn.now, turn.response).0, steps)
  {
    hide AsState, SentAlone, Attempted, Inv, Runs, After, NextDue, Apply, Enabled;
    var s, id := AsState(q), q.rows[i].id;
    var pick, end := Select(id, turn.now), Finish(0, turn.response, turn.now);
    var r := Attempted(q, i, turn.now, turn.response).0;
    Selected(q, i, turn.now);
    SendsAlone(q, i);
    FinishedAlone(q, i, turn.now, turn.response);
    IdleStates(q, i);
    IdleIsEmpty(r);
    TwoSteps(s, pick, Send(0));
    RunsOne(1, SentAlone(q, i), end);
    steps := [pick, Send(0)] + [end];
    RunsConcat(1, s, [pick, Send(0)], [end]);
  }

  lemma IdleIsEmpty(q: Queue)
    ensures |AsState(q).flights| == 0
  {
  }

  /** A drain that nothing interrupts is `drain_once`. */
  lemma AloneIsDrained(q: Queue, outbox: set<string>, turn: Turn) returns (steps: seq<Step>)
    requires Inv(q)
    ensures Simulates(q, Drained(q, outbox, turn.now, turn.signs, turn.response).0, steps)
  {
    hide AsState, Attempted, Inv, Runs, After, Apply, Enabled, Removed;
    var due := NextDue(q.rows, turn.now);
    if due.None? {
      steps := [];
      RunsNone(1, AsState(q));
    } else {
      var i := due.value;
      var pick := Select(q.rows[i].id, turn.now);
      Selected(q, i, turn.now);
      UnsentAlone(q, i);
      IdleStates(q, i);
      IdleIsEmpty(q.(rows := Removed(q.rows, i), dropped := q.dropped + 1));
      if q.rows[i].activity !in outbox {
        steps := [pick, Orphan(0)];
        TwoSteps(AsState(q), pick, Orphan(0));
      } else if !turn.signs {
        steps := [pick, Abort(0)];
        TwoSteps(AsState(q), pick, Abort(0));
      } else {
        steps := SendAndFinish(q, i, turn);
      }
    }
  }

  // ------------------------------------------------------------ and no less

  lemma {:induction false} RunsConcat(w: nat, s: State, a: seq<Step>, b: seq<Step>)
    requires Runs(w, s, a) && Runs(w, After(w, s, a), b)
    ensures Runs(w, s, a + b) && After(w, s, a + b) == After(w, After(w, s, a), b)
    decreases |a|
  {
    hide Apply, Enabled;
    if a == [] {
      assert a + b == b;
    } else {
      assert (a + b)[1..] == a[1..] + b;
      RunsConcat(w, Apply(s, a[0]), a[1..], b);
    }
  }

  lemma RunsNone(w: nat, s: State)
    ensures Runs(w, s, []) && After(w, s, []) == s
  {
  }

  lemma RunsOne(w: nat, s: State, step: Step)
    requires Enabled(s, step) && |Apply(s, step).flights| <= w
    ensures Runs(w, s, [step]) && After(w, s, [step]) == Apply(s, step)
  {
    hide Apply, Enabled;
    assert [step][1..] == [];
    assert Runs(w, Apply(s, step), []);
  }

  /** One row, number 1, and some drains of it that have all sent. */
  function Lone(row: Row, attempts: nat, n: nat, sends: nat): State {
    State(map[1 := row], 2, seq(n, _ => Flight(1, attempts, true)), map[1 := sends])
  }

  /** `n` drains, one after the other, select the row and send. */
  lemma {:induction false} ManySend(w: nat, row: Row, n: nat, sends: nat, now: nat) returns (steps: seq<Step>)
    requires n <= w && row.nextRetry <= now
    ensures Runs(w, Lone(row, row.attempts, 0, sends), steps)
    ensures After(w, Lone(row, row.attempts, 0, sends), steps) == Lone(row, row.attempts, n, sends + n)
  {
    hide *;
    var s := Lone(row, row.attempts, 0, sends);
    if n == 0 {
      steps := [];
      RunsNone(w, s);
    } else {
      var init := ManySend(w, row, n - 1, sends, now);
      OneMore(w, row, n - 1, sends + n - 1, now);
      steps := init + [Select(1, now), Send(n - 1)];
      RunsConcat(w, s, init, [Select(1, now), Send(n - 1)]);
    }
  }

  lemma OneMore(w: nat, row: Row, n: nat, sends: nat, now: nat)
    requires n < w && row.nextRetry <= now
    ensures var s := Lone(row, row.attempts, n, sends);
            var two := [Select(1, now), Send(n)];
            Runs(w, s, two) && After(w, s, two) == Lone(row, row.attempts, n + 1, sends + 1)
  {
    var s := Lone(row, row.attempts, n, sends);
    var s1 := Apply(s, Select(1, now));
    var s2 := Apply(s1, Send(n));
    assert s2.flights == Lone(row, row.attempts, n + 1, sends + 1).flights;
    hide Runs, After;
    RunsOne(w, s, Select(1, now));
    RunsOne(w, s1, Send(n));
    assert [Select(1, now), Send(n)] == [Select(1, now)] + [Send(n)];
    RunsConcat(w, s, [Select(1, now)], [Send(n)]);
  }

  /** `n` drains meet a network error and reschedule, each counting once more. */
  lemma {:induction false} ManyRetry(w: nat, row: Row, attempts: nat, n: nat, sends: nat, now: nat)
    returns (steps: seq<Step>, last: Row)
    requires n <= w && attempts <= 4
    ensures Runs(w, Lone(row, attempts, n, sends), steps)
    ensures last.attempts == row.attempts + n
    ensures After(w, Lone(row, attempts, n, sends), steps) == Lone(last, attempts, 0, sends)
    decreases n
  {
    if n == 0 {
      steps, last := [], row;
    } else {
      var s, step := Lone(row, attempts, n, sends), Finish(0, NetworkError, now);
      var next := row.(attempts := row.attempts + 1, nextRetry := now + BACKOFF_SECONDS[attempts]);
      assert Apply(s, step).flights == Lone(next, attempts, n - 1, sends).flights;
      assert Apply(s, step) == Lone(next, attempts, n - 1, sends);
      var rest;
      rest, last := ManyRetry(w, next, attempts, n - 1, sends, now);
      hide Runs, After;
      RunsOne(w, s, step);
      steps := [step] + rest;
      RunsConcat(w, s, [step], rest);
    }
  }

  lemma LoneIdle(row: Row, a: nat, b: nat, sends: nat)
    ensures Lone(row, a, 0, sends) == Lone(row, b, 0, sends)
  {
    assert Lone(row, a, 0, sends).flights == Lone(row, b, 0, sends).flights;
  }

  /** `n` overlapping drains of an idle row: all select, all send, all retry. */
  lemma Wave(w: nat, row: Row, n: nat, sends: nat) returns (steps: seq<Step>, last: Row)
    requires n <= w && row.attempts <= 4
    ensures Runs(w, Lone(row, 0, 0, sends), steps)
    ensures last.attempts == row.attempts + n
    ensures After(w, Lone(row, 0, 0, sends), steps) == Lone(last, 0, 0, sends + n)
  {
    hide Runs, After, Lone;
    LoneIdle(row, 0, row.attempts, sends);
    var first := ManySend(w, row, n, sends, row.nextRetry);
    var second;
    second, last := ManyRetry(w, row, row.attempts, n, sends + n, row.nextRetry);
    steps := first + second;
    RunsConcat(w, Lone(row, 0, 0, sends), first, second);
    LoneIdle(last, 0, row.attempts, sends + n);
  }

  /** `k` waves of one drain each. */
  lemma {:induction false} SerialWaves(w: nat, row: Row, k: nat, sends: nat) returns (steps: seq<Step>, last: Row)
    requires 1 <= w && row.attempts + k <= 5
    ensures Runs(w, Lone(row, 0, 0, sends), steps)
    ensures last.attempts == row.attempts + k
    ensures After(w, Lone(row, 0, 0, sends), steps) == Lone(last, 0, 0, sends + k)
    decreases k
  {
    hide *;
    if k == 0 {
      steps, last := [], row;
      RunsNone(w, Lone(row, 0, 0, sends));
    } else {
      var first, mid := Wave(w, row, 1, sends);
      var rest;
      rest, last := SerialWaves(w, mid, k - 1, sends + 1);
      steps := first + rest;
      RunsConcat(w, Lone(row, 0, 0, sends), first, rest);
    }
  }

  /** The bound is reached, for every number of overlapping drains. */
  lemma BoundIsReached(w: nat) returns (steps: seq<Step>)
    requires 1 <= w
    ensures Runs(w, START, steps) && Sends(After(w, START, steps), 1) == 2 * w + 4
  {
    hide *;
    var row := Row(1, "a", "u", 0, 0);
    var begin, row1 := FirstWave(w, row);
    var three, row4 := SerialWaves(w, row1, 3, 1);
    var wave, row5 := Wave(w, row4, w, 4);
    LoneIdle(row5, 0, row5.attempts, 4 + w);
    var more := ManySend(w, row5, w, 4 + w, row5.nextRetry);
    RunsConcat(w, START, begin, three);
    RunsConcat(w, START, begin + three, wave);
    RunsConcat(w, START, begin + three + wave, more);
    steps := begin + three + wave + more;
    LoneSends(row5, row5.attempts, w, 4 + w + w);
  }

  lemma LoneSends(row: Row, attempts: nat, n: nat, sends: nat)
    ensures Sends(Lone(row, attempts, n, sends), 1) == sends
  {
  }

  /** The first send of a row, and its first retry. */
  lemma FirstWave(w: nat, row: Row) returns (steps: seq<Step>, last: Row)
    requires 1 <= w && row == Row(1, "a", "u", 0, 0)
    ensures Runs(w, START, steps) && After(w, START, steps) == Lone(last, 0, 0, 1) && last.attempts == 1
  {
    var s1 := Apply(START, Put("a", "u", 0));
    var s2 := Apply(s1, Select(1, 0));
    var s3 := Apply(s2, Send(0));
    assert s3.flights == Lone(row, 0, 1, 1).flights;
    assert s3 == Lone(row, 0, 1, 1);
    var rest;
    rest, last := ManyRetry(w, row, 0, 1, 1, 0);
    hide Runs, After;
    RunsOne(w, START, Put("a", "u", 0));
    RunsOne(w, s1, Select(1, 0));
    RunsOne(w, s2, Send(0));
    RunsConcat(w, START, [Put("a", "u", 0)], [Select(1, 0)]);
    RunsConcat(w, START, [Put("a", "u", 0)] + [Select(1, 0)], [Send(0)]);
    steps := [Put("a", "u", 0)] + [Select(1, 0)] + [Send(0)] + rest;
    RunsConcat(w, START, [Put("a", "u", 0)] + [Select(1, 0)] + [Send(0)], rest);
  }
}
