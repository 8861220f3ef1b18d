/** Every interleaving of concurrent inbox deliveries. `handle_inbox` awaits
    between recording an activity and acting on it, so another delivery may
    record, act or both in between. */
module InboxRuns {
  import opened Text
  import opened Inbox

  datatype State = State(
    tables: Tables,
    jobs: seq<Delivery>,      // recorded as new, in this order
    acted: set<nat>,          // jobs whose effect has taken place
    done: seq<Op>)            // effects and follow requests, in the order they took place

  datatype Step =
    | Record(d: Delivery)
    | Act(t: nat, now: nat)   // the clock is read again
    | Request(local: string, target: string)

  function Start(): State {
    State(Tables(map[], map[], map[]), [], {}, [])
  }

  predicate Pending(s: State, t: nat) {
    t < |s.jobs| && t !in s.acted
  }

  predicate Enabled(s: State, step: Step) {
    step.Act? ==> Pending(s, step.t) && s.jobs[step.t].activity.typ.Some?
  }

  function Recorded(t: Tables, d: Delivery): Tables {
    t.(inbox := t.inbox[IdOf(d.activity) := LogRow(d.local, d.activity, d.now)])
  }

  function Apply(s: State, step: Step): State
    requires Enabled(s, step)
  {
    match step
    case Record(d) =>
      if IsNew(s.tables, d) then s.(tables := Recorded(s.tables, d), jobs := s.jobs + [d]) else s
    case Act(t, now) =>
      var d := s.jobs[t].(now := now);
      s.(tables := Effect(s.tables, d), acted := s.acted + {t}, done := s.done + [Deliver(d)])
    case Request(local, target) =>
      s.(tables := Requested(s.tables, local, target), done := s.done + [RequestFollow(local, target)])
  }

  ghost predicate IsRun(steps: seq<Step>, states: seq<State>) {
    && |states| == |steps| + 1 && states[0] == Start()
    && forall i | 0 <= i < |steps| :: Enabled(states[i], steps[i]) && states[i + 1] == Apply(states[i], steps[i])
  }

  /** Recording and acting without interruption, in the same instant, is `handle_inbox`. */
  lemma UninterruptedIsHandled(s: State, d: Delivery)
    requires |s.jobs| !in s.acted
    ensures IsNew(s.tables, d) ==>
              var r := Apply(s, Record(d));
              Enabled(r, Act(|s.jobs|, d.now)) && Apply(r, Act(|s.jobs|, d.now)).tables == Handled(s.tables, d)
    ensures !IsNew(s.tables, d) ==> Apply(s, Record(d)).tables == Handled(s.tables, d)
  {
    hide Effect;
  }

  // ---------------------------------------------------------- linearisation

  ghost predicate JobsOk(s: State) {
    && (forall t | 0 <= t < |s.jobs| ::
          var a := s.jobs[t].activity; a.typ.Some? && IdOf(a) != "" && IdOf(a) in s.tables.inbox)
    && (forall t, u | 0 <= t < u < |s.jobs| :: IdOf(s.jobs[t].activity) != IdOf(s.jobs[u].activity))
    && (forall t | t in s.acted :: t < |s.jobs|)
    && (forall id | id in s.tables.inbox :: exists t :: 0 <= t < |s.jobs| && IdOf(s.jobs[t].activity) == id)
  }

  ghost predicate DoneOk(s: State) {
    && (forall id | id in Claimed(s.done) ::
          exists t :: t in s.acted && t < |s.jobs| && IdOf(s.jobs[t].activity) == id)
    && (forall k | 0 <= k < |s.done| :: Effective(s.done, k))
  }

  ghost predicate SameTables(a: Tables, b: Tables) {
    a.followers == b.followers && a.following == b.following
  }

  ghost predicate Inv(s: State) {
    JobsOk(s) && DoneOk(s) && SameTables(s.tables, Run(s.done))
  }

  lemma EffectIsLocal(a: Tables, b: Tables, d: Delivery)
    requires SameTables(a, b) && d.activity.typ.Some?
    ensures SameTables(Effect(a, d), Effect(b, d)) && Effect(a, d).inbox == a.inbox
  {
  }

  lemma RunAppend(ops: seq<Op>, op: Op)
    ensures Run(ops + [op]) == Do(Run(ops), op)
  {
    hide Do;
    assert (ops + [op])[..|ops|] == ops;
  }

  lemma EffectiveAppend(ops: seq<Op>, op: Op)
    requires forall k | 0 <= k < |ops| :: Effective(ops, k)
    requires op.RequestFollow? || (Claims(op).Some? && Claims(op).value !in Claimed(ops))
    ensures forall k | 0 <= k < |ops + [op]| :: Effective(ops + [op], k)
  {
    hide Claims, Claimed;
    var all := ops + [op];
    forall k | 0 <= k < |all| ensures Effective(all, k) {
      assert all[..|ops|] == ops;
      if k < |ops| {
        assert all[..k] == ops[..k] && Effective(ops, k);
      }
    }
  }

  lemma RecordKeeps(s: State, d: Delivery)
    requires Inv(s)
    ensures Inv(Apply(s, Record(d)))
  {
    hide Effective, Claimed, Run, JobsOk, DoneOk;
    if IsNew(s.tables, d) {
      RecordKeepsJobs(s, d);
      RecordKeepsDone(s, d);
    }
  }

  lemma RecordKeepsJobs(s: State, d: Delivery)
    requires JobsOk(s) && IsNew(s.tables, d)
    ensures JobsOk(Apply(s, Record(d)))
  {
    var r := Apply(s, Record(d));
    hide IdOf;
    forall id | id in r.tables.inbox ensures exists t :: 0 <= t < |r.jobs| && IdOf(r.jobs[t].activity) == id {
      if id == IdOf(d.activity) {
        assert IdOf(r.jobs[|s.jobs|].activity) == id;
      } else {
        var t :| 0 <= t < |s.jobs| && IdOf(s.jobs[t].activity) == id;
        assert r.jobs[t] == s.jobs[t];
      }
    }
  }

  lemma RecordKeepsDone(s: State, d: Delivery)
    requires DoneOk(s) && IsNew(s.tables, d)
    ensures DoneOk(Apply(s, Record(d)))
  {
    hide Effective, Claimed, IdOf;
    var r := Apply(s, Record(d));
    forall id | id in Claimed(r.done)
      ensures exists t :: t in r.acted && t < |r.jobs| && IdOf(r.jobs[t].activity) == id
    {
      var t :| t in s.acted && t < |s.jobs| && IdOf(s.jobs[t].activity) == id;
      assert r.jobs[t] == s.jobs[t];
    }
  }

  /** A pending job's id is not yet among the claims of what was done. */
  lemma PendingIsNew(s: State, t: nat, d: Delivery)
    requires Inv(s) && Pending(s, t) && d.activity == s.jobs[t].activity
    ensures d.activity.typ.Some? && IsNew(Run(s.done), d)
    ensures Claims(Deliver(d)).Some? && Claims(Deliver(d)).value !in Claimed(s.done)
  {
    hide Claimed, Run, Effective;
    LogIsClaims(s.done);
  }

  lemma ActKeeps(s: State, t: nat, now: nat)
    requires Inv(s) && Enabled(s, Act(t, now))
    ensures Inv(Apply(s, Act(t, now)))
  {
    hide Claimed, Run, Effective, Effect;
    var d, r := s.jobs[t].(now := now), Apply(s, Act(t, now));
    var op := Deliver(d);
    PendingIsNew(s, t, d);
    RunAppend(s.done, op);
    EffectiveAppend(s.done, op);
    ClaimedAppend(s.done, op);
    var logged := Recorded(Run(s.done), d);
    EffectIsLocal(s.tables, logged, d);
    assert Run(r.done) == Effect(logged, d);
    forall id | id in Claimed(r.done)
      ensures exists u :: u in r.acted && u < |r.jobs| && IdOf(r.jobs[u].activity) == id
    {
      if id == IdOf(d.activity) {
        assert t in r.acted;
      } else {
        var u :| u in s.acted && u < |s.jobs| && IdOf(s.jobs[u].activity) == id;
        assert u in r.acted;
      }
    }
  }

  lemma RequestKeeps(s: State, local: string, target: string)
    requires Inv(s)
    ensures Inv(Apply(s, Request(local, target)))
  {
    hide Claimed, Run, Effective;
    var op := RequestFollow(local, target);
    RunAppend(s.done, op);
    EffectiveAppend(s.done, op);
    ClaimedAppend(s.done, op);
  }

  lemma {:induction false} Invariant(steps: seq<Step>, states: seq<State>, n: nat)
    requires IsRun(steps, states) && n < |states|
    ensures Inv(states[n])
  {
    if n == 0 {
      assert Claimed([]) == {};
    } else {
      hide Inv, Apply;
      Invariant(steps, states, n - 1);
      match steps[n - 1]
      case Record(d) => RecordKeeps(states[n - 1], d);
      case Act(t, now) => ActKeeps(states[n - 1], t, now);
      case Request(local, target) => RequestKeeps(states[n - 1], local, target);
    }
  }

  /** Every interleaving is linearisable at the moment of acting: the tables are
      those of the serial run of what was done, in which every delivery is the
      first of its id. So the serial results hold in the order of the effects. */
  lemma Linearised(steps: seq<Step>, states: seq<State>, n: nat, key: (string, string))
    requires IsRun(steps, states) && n < |states|
    ensures var s := states[n];
            && SameTables(s.tables, Run(s.done))
            && (forall k | 0 <= k < |s.done| :: Effective(s.done, k))
            && Lookup(s.tables.followers, key) == LastWord(s.done, |s.done|, key)
            && (Lookup(s.tables.following, key) == Some(true)
                <==> exists i, j :: AcceptedAt(s.done, |s.done|, key, i, j))
  {
    hide IsRun, Run, Effective, LastWord, Claimed, JobsOk;
    Invariant(steps, states, n);
    var done := states[n].done;
    FollowersExact(done, |done|, key);
    FollowingExact(done, |done|, key);
    assert done[..|done|] == done;
  }

  // ------------------------------------------------- the order of recording

  /** A follower without the time it was written. */
  function Undated(f: Option<Follower>): Option<Option<string>> {
    if f.Some? then Some(f.value.inbox) else None
  }

  /** What a delivery says about one follower, whenever it acts. */
  function VerdictOf(d: Delivery, key: (string, string)): Option<Option<Option<string>>> {
    match Verdict(Deliver(d), key)
    case None => None
    case Some(f) => Some(Undated(f))
  }

  /** The last recorded word on a follower among the first `n` jobs. */
  function RecordedWord(jobs: seq<Delivery>, n: nat, key: (string, string)): Option<Option<string>>
    requires n <= |jobs|
  {
    if n == 0 then None
    else if VerdictOf(jobs[n - 1], key).Some? then VerdictOf(jobs[n - 1], key).value
    else RecordedWord(jobs, n - 1, key)
  }

  ghost predicate PendingAbout(s: State, t: nat, key: (string, string)) {
    Pending(s, t) && VerdictOf(s.jobs[t], key).Some?
  }

  /** Two recorded deliveries about one follower have yet to act. */
  ghost predicate Racing(s: State, key: (string, string)) {
    exists t: nat, u: nat :: t < u && PendingAbout(s, t, key) && PendingAbout(s, u, key)
  }

  /** Nothing about this follower was recorded after job `t`. */
  ghost predicate IsLastAbout(jobs: seq<Delivery>, t: nat, key: (string, string)) {
    forall u | t < u < |jobs| :: VerdictOf(jobs[u], key).None?
  }

  ghost predicate Settled(s: State, key: (string, string)) {
    && (forall t: nat | PendingAbout(s, t, key) :: IsLastAbout(s.jobs, t, key))
    && ((forall t: nat :: !PendingAbout(s, t, key)) ==>
          Undated(Lookup(s.tables.followers, key)) == RecordedWord(s.jobs, |s.jobs|, key))
  }

  lemma {:induction false} RecordedWordPrefix(jobs: seq<Delivery>, more: seq<Delivery>, n: nat, key: (string, string))
    requires n <= |jobs|
    ensures RecordedWord(jobs + more, n, key) == RecordedWord(jobs, n, key)
  {
    hide VerdictOf;
    if n > 0 {
      RecordedWordPrefix(jobs, more, n - 1, key);
    }
  }

  lemma {:induction false} LastAboutIsTheWord(jobs: seq<Delivery>, t: nat, n: nat, key: (string, string))
    requires t < n <= |jobs| && VerdictOf(jobs[t], key).Some? && IsLastAbout(jobs, t, key)
    ensures RecordedWord(jobs, n, key) == VerdictOf(jobs[t], key).value
  {
    hide VerdictOf;
    if t < n - 1 {
      LastAboutIsTheWord(jobs, t, n - 1, key);
    }
  }

  lemma EffectOnFollower(t: Tables, d: Delivery, now: nat, key: (string, string))
    requires d.activity.typ.Some?
    ensures Undated(Lookup(Effect(t, d.(now := now)).followers, key)) ==
            if VerdictOf(d, key).Some? then VerdictOf(d, key).value else Undated(Lookup(t.followers, key))
  {
  }

  lemma RecordSettles(s: State, d: Delivery, key: (string, string))
    requires Settled(s, key) && |s.jobs| !in s.acted && !Racing(Apply(s, Record(d)), key)
    ensures Settled(Apply(s, Record(d)), key)
  {
    hide VerdictOf, IsNew;
    var r := Apply(s, Record(d));
    if IsNew(s.tables, d) {
      RecordedWordPrefix(s.jobs, [d], |s.jobs|, key);
      assert forall t: nat | t < |s.jobs| :: PendingAbout(r, t, key) <==> PendingAbout(s, t, key);
      assert Pending(r, |s.jobs|);
      if VerdictOf(d, key).Some? {
        assert PendingAbout(r, |s.jobs|, key);
      }
    }
  }

  lemma ActSettles(s: State, t: nat, now: nat, key: (string, string))
    requires Settled(s, key) && Enabled(s, Act(t, now))
    ensures Settled(Apply(s, Act(t, now)), key)
  {
    hide VerdictOf, Effect;
    var r := Apply(s, Act(t, now));
    EffectOnFollower(s.tables, s.jobs[t], now, key);
    assert forall u: nat :: PendingAbout(r, u, key) <==> PendingAbout(s, u, key) && u != t;
    if VerdictOf(s.jobs[t], key).Some? {
      assert PendingAbout(s, t, key);
      LastAboutIsTheWord(s.jobs, t, |s.jobs|, key);
    }
  }

  lemma RequestSettles(s: State, local: string, target: string, key: (string, string))
    requires Settled(s, key)
    ensures Settled(Apply(s, Request(local, target)), key)
  {
    hide VerdictOf;
    var r := Apply(s, Request(local, target));
    assert forall t: nat :: PendingAbout(r, t, key) <==> PendingAbout(s, t, key);
  }

  /** If no two deliveries about a follower are ever pending together, then
      whenever none is pending the table holds the last word recorded ... */
  lemma {:induction false} RecordOrderUnlessRacing(steps: seq<Step>, states: seq<State>, n: nat, key: (string, string))
    requires IsRun(steps, states) && n < |states|
    requires forall i | 0 <= i <= n :: !Racing(states[i], key)
    ensures Settled(states[n], key)
  {
    if n > 0 {
      hide Settled, Apply, Racing, Inv;
      RecordOrderUnlessRacing(steps, states, n - 1, key);
      assert !Racing(states[n], key);
      match steps[n - 1]
      case Record(d) =>
        NextIsUnused(steps, states, n - 1);
        RecordSettles(states[n - 1], d, key);
      case Act(t, now) => ActSettles(states[n - 1], t, now, key);
      case Request(local, target) => RequestSettles(states[n - 1], local, target, key);
    }
  }

  lemma NextIsUnused(steps: seq<Step>, states: seq<State>, n: nat)
    requires IsRun(steps, states) && n < |states|
    ensures |states[n].jobs| !in states[n].acted
  {
    hide IsRun, DoneOk, Run;
    Invariant(steps, states, n);
  }

  lemma VerdictIsTyped(d: Delivery, key: (string, string))
    requires VerdictOf(d, key).Some?
    ensures d.activity.typ.Some?
  {
  }

  /** ... and any two that are pending together and disagree can act in the
      other order, which leaves the earlier word standing. */
  lemma RaceReorders(s: State, t: nat, u: nat, now: nat, key: (string, string))
    requires t < u && PendingAbout(s, t, key) && PendingAbout(s, u, key) && IsLastAbout(s.jobs, u, key)
    requires VerdictOf(s.jobs[t], key) != VerdictOf(s.jobs[u], key)
    ensures Enabled(s, Act(u, now)) && Enabled(Apply(s, Act(u, now)), Act(t, now))
    ensures var r := Apply(Apply(s, Act(u, now)), Act(t, now));
            Undated(Lookup(r.tables.followers, key)) != RecordedWord(r.jobs, |r.jobs|, key)
  {
    VerdictIsTyped(s.jobs[t], key);
    VerdictIsTyped(s.jobs[u], key);
    hide VerdictOf, Effect;
    EffectOnFollower(Apply(s, Act(u, now)).tables, s.jobs[t], now, key);
    LastAboutIsTheWord(s.jobs, u, |s.jobs|, key);
  }

  /** The race is real: a Follow and the Undo sent after it can end with the
      follower kept, though the Undo was recorded last and every activity acted. */
  lemma UndoOvertaken(follow: Delivery, undo: Delivery, now: nat)
    requires follow.activity.typ == Some("Follow") && undo.activity.typ == Some("Undo") && AboutFollow(undo)
    requires undo.local == follow.local && Actor(undo) == Actor(follow)
    requires IdOf(follow.activity) != "" && IdOf(undo.activity) != "" && IdOf(follow.activity) != IdOf(undo.activity)
    ensures exists states: seq<State> ::
              && IsRun([Record(follow), Record(undo), Act(1, now), Act(0, now)], states)
              && (forall t: nat :: !Pending(states[4], t))
              && (follow.local, Actor(follow)) in states[4].tables.followers
  {
    var s0 := Start();
    var s1 := Apply(s0, Record(follow));
    var s2 := Apply(s1, Record(undo));
    assert s2.jobs == [follow, undo];
    var s3 := Apply(s2, Act(1, now));
    var s4 := Apply(s3, Act(0, now));
    assert IsRun([Record(follow), Record(undo), Act(1, now), Act(0, now)], [s0, s1, s2, s3, s4]);
  }
}
