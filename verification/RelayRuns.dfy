/** Every interleaving of concurrent ingests with one connection's requests and
    live deliveries. The store lock is taken once to look for a superseded
    event and once more to append, and the broadcast comes after both. */
module RelayRuns {
  import opened Text
  import opened Relay
  import opened RelayProtocol

  // ------------------------------------------------------------------ state

  datatype Phase =
    | Verified            // accepted, nothing written yet
    | MustAppend          // looked for an event to supersede, found none
    | Stored              // written, not yet broadcast
    | Sent(at: nat)       // broadcast, at this channel position

  datatype Job = Job(event: Event, phase: Phase)

  /** A subscription, with what the connection saw when it was opened. */
  datatype Sub = Sub(
    filters: seq<Filter>,
    snapshot: seq<Event>,     // the store the history was computed from
    settled: set<nat>,        // jobs already stored or broadcast by then
    origin: nat,              // frames written before the answer
    start: nat,               // channel cursor by then
    live: seq<nat>)           // channel positions delivered since, in order

  datatype State = State(
    store: seq<Event>,
    jobs: seq<Job>,
    channel: seq<Event>,
    cursor: nat,
    lost: set<nat>,           // positions the connection skipped by lagging
    subs: map<string, Sub>,
    out: seq<Frame>)

  datatype Config = Config(verify: Event -> bool, cap: nat, buffer: nat)

  datatype Step =
    | Begin(e: Event)
    | Replace(t: nat)
    | Append(t: nat)
    | Send(t: nat)
    | Req(sub: string, filters: seq<Filter>)
    | Close(sub: string)
    | Receive(frames: seq<Frame>)
    | Lag

  function Range(lo: nat, hi: nat): (r: set<nat>)
    ensures forall i :: i in r <==> lo <= i < hi
    decreases hi - lo
  {
    if hi <= lo then {} else {lo} + Range(lo + 1, hi)
  }

  predicate Settled(job: Job) {
    job.phase.Stored? || job.phase.Sent?
  }

  function SettledJobs(jobs: seq<Job>): set<nat> {
    set t | 0 <= t < |jobs| && Settled(jobs[t])
  }

  function SetPhase(s: State, t: nat, p: Phase): State
    requires t < |s.jobs|
  {
    s.(jobs := s.jobs[t := s.jobs[t].(phase := p)])
  }

  function Filters(subs: map<string, Sub>): map<string, seq<Filter>> {
    map sub | sub in subs :: subs[sub].filters
  }

  /** A live event at position `at`, noted in every subscription it matches. */
  function Delivered(subs: map<string, Sub>, at: nat, e: Event): map<string, Sub> {
    map sub | sub in subs ::
      if MatchesAny(subs[sub].filters, e) then subs[sub].(live := subs[sub].live + [at]) else subs[sub]
  }

  predicate Init(s: State) {
    s == State([], [], [], 0, {}, map[], [])
  }

  ghost predicate Enabled(c: Config, s: State, step: Step) {
    match step
    case Begin(e) => c.verify(e)
    case Replace(t) => t < |s.jobs| && s.jobs[t].phase == Verified && SlotOf(s.jobs[t].event).Some?
    case Append(t) =>
      t < |s.jobs| && !IsEphemeral(s.jobs[t].event.kind)
      && (s.jobs[t].phase == MustAppend || (s.jobs[t].phase == Verified && SlotOf(s.jobs[t].event).None?))
    case Send(t) =>
      t < |s.jobs|
      && (s.jobs[t].phase == Stored || (s.jobs[t].phase == Verified && IsEphemeral(s.jobs[t].event.kind)))
    case Req(_, _) => true
    case Close(_) => true
    case Receive(frames) =>
      s.cursor < |s.channel| <= s.cursor + c.buffer && LiveFrames(Filters(s.subs), s.channel[s.cursor], frames)
    case Lag => s.cursor + c.buffer < |s.channel|
  }

  ghost function Apply(c: Config, s: State, step: Step): State
    requires Enabled(c, s, step)
  {
    match step
    case Begin(e) => s.(jobs := s.jobs + [Job(e, Verified)])
    case Replace(t) =>
      (match Superseded(s.store, s.jobs[t].event)
       case Some(i) => SetPhase(s, t, Stored).(store := s.store[i := s.jobs[t].event])
       case None => SetPhase(s, t, MustAppend))
    case Append(t) => SetPhase(s, t, Stored).(store := Pushed(s.store, c.cap, s.jobs[t].event))
    case Send(t) => SetPhase(s, t, Sent(|s.channel|)).(channel := s.channel + [s.jobs[t].event])
    case Req(sub, filters) =>
      s.(subs := s.subs[sub := Sub(filters, s.store, SettledJobs(s.jobs), |s.out|, s.cursor, [])],
         out := s.out + ReqFrames(sub, s.store, filters))
    case Close(sub) => s.(subs := s.subs - {sub})
    case Receive(frames) =>
      s.(cursor := s.cursor + 1, subs := Delivered(s.subs, s.cursor, s.channel[s.cursor]), out := s.out + frames)
    case Lag =>
      var oldest := |s.channel| - c.buffer;
      s.(cursor := oldest, lost := s.lost + Range(s.cursor, oldest))
  }

  /** A run: the empty relay, then one enabled step after the other. */
  ghost predicate IsRun(c: Config, steps: seq<Step>, states: seq<State>) {
    IsPath(c, steps, states) && Init(states[0])
  }

  ghost predicate IsPath(c: Config, steps: seq<Step>, states: seq<State>) {
    && |states| == |steps| + 1
    && forall i | 0 <= i < |steps| ::
         Enabled(c, states[i], steps[i]) && states[i + 1] == Apply(c, states[i], steps[i])
  }

  // -------------------------------------------------------------- invariant

  /** Broadcast jobs are where they say they are, and were accepted. */
  ghost predicate JobsOk(c: Config, s: State) {
    forall t | 0 <= t < |s.jobs| ::
      && c.verify(s.jobs[t].event)
      && (s.jobs[t].phase.Sent? ==>
            s.jobs[t].phase.at < |s.channel| && s.channel[s.jobs[t].phase.at] == s.jobs[t].event)
  }

  ghost predicate CursorOk(s: State) {
    && s.cursor <= |s.channel|
    && (forall i | i in s.lost :: i < s.cursor)
  }

  /** Live positions are strictly increasing: in order, never twice. */
  ghost predicate Increasing(live: seq<nat>) {
    forall i, j | 0 <= i < j < |live| :: live[i] < live[j]
  }

  /** Since it was opened, the subscription was handed exactly the matching
      channel positions that the cursor passed without lagging. */
  ghost predicate LiveOk(s: State, sub: Sub) {
    && sub.start <= s.cursor <= |s.channel| && Increasing(sub.live)
    && (forall i: nat :: i in sub.live <==>
         sub.start <= i < s.cursor && i !in s.lost && MatchesAny(sub.filters, s.channel[i]))
  }

  /** A job that was not settled when the subscription was opened is
      broadcast at or after the subscription's start. */
  ghost predicate LateJobsOk(s: State, sub: Sub) {
    forall t | 0 <= t < |s.jobs| && t !in sub.settled && s.jobs[t].phase.Sent? :: sub.start <= s.jobs[t].phase.at
  }

  function LiveEvents(s: State, live: seq<nat>): (r: seq<Event>)
    requires forall i | 0 <= i < |live| :: live[i] < |s.channel|
    ensures |r| == |live| && forall i | 0 <= i < |live| :: r[i] == s.channel[live[i]]
  {
    seq(|live|, i requires 0 <= i < |live| => s.channel[live[i]])
  }

  /** What the client saw for this subscription since it was opened: the
      history, the end marker, then the live events in channel order. */
  ghost predicate TranscriptOk(s: State, name: string, sub: Sub) {
    && sub.origin <= |s.out|
    && (forall i | 0 <= i < |sub.live| :: sub.live[i] < |s.channel|)
    && ForSub(s.out[sub.origin..], name) ==
       ReqFrames(name, sub.snapshot, sub.filters) + EventFrames(name, LiveEvents(s, sub.live))
  }

  ghost predicate SubOk(s: State, name: string, sub: Sub) {
    LiveOk(s, sub) && LateJobsOk(s, sub) && TranscriptOk(s, name, sub)
  }

  ghost predicate Inv(c: Config, s: State) {
    && JobsOk(c, s) && CursorOk(s)
    && forall name | name in s.subs :: SubOk(s, name, s.subs[name])
  }

  // --------------------------------------------------- each step keeps it

  /** A step that leaves channel, cursor, subscriptions and output alone, and
      broadcasts nothing new. */
  lemma QuietStep(s: State, r: State, name: string, sub: Sub)
    requires SubOk(s, name, sub)
    requires SameWire(s, r)
    ensures SubOk(r, name, sub)
  {
    hide ForSub, MatchesAny, ReqFrames, EventFrames;
    assert LiveOk(r, sub);
    assert LateJobsOk(r, sub);
    assert LiveEvents(r, sub.live) == LiveEvents(s, sub.live);
  }

  lemma SendStep(s: State, r: State, t: nat, name: string, sub: Sub)
    requires SubOk(s, name, sub) && CursorOk(s) && t < |s.jobs|
    requires r == SetPhase(s, t, Sent(|s.channel|)).(channel := s.channel + [s.jobs[t].event])
    ensures SubOk(r, name, sub)
  {
    hide ForSub, MatchesAny, ReqFrames, EventFrames;
    assert LiveEvents(r, sub.live) == LiveEvents(s, sub.live);
    assert forall i | 0 <= i < s.cursor :: r.channel[i] == s.channel[i];
    assert LiveOk(r, sub);
    assert LateJobsOk(r, sub);
  }

  lemma OpenedStep(s: State, r: State, name: string, filters: seq<Filter>)
    requires CursorOk(s) && r.cursor == s.cursor && r.channel == s.channel && r.jobs == s.jobs
    requires r.out == s.out + ReqFrames(name, s.store, filters)
    ensures SubOk(r, name, Sub(filters, s.store, SettledJobs(s.jobs), |s.out|, s.cursor, []))
  {
    hide ForSub, MatchesAny, ReqFrames;
    var sub := Sub(filters, s.store, SettledJobs(s.jobs), |s.out|, s.cursor, []);
    var frames := ReqFrames(name, s.store, filters);
    assert r.out[|s.out|..] == frames;
    ForSubReq(name, s.store, filters, name);
    assert EventFrames(name, LiveEvents(r, [])) == [];
    assert frames + [] == frames;
    assert LiveOk(r, sub);
    assert LateJobsOk(r, sub);
  }

  /** Frames for others do not disturb a subscription. */
  lemma OtherReqStep(s: State, r: State, name: string, sub: Sub, other: string, filters: seq<Filter>)
    requires SubOk(s, name, sub) && other != name
    requires r.channel == s.channel && r.cursor == s.cursor && r.lost == s.lost && r.jobs == s.jobs
    requires r.out == s.out + ReqFrames(other, s.store, filters)
    ensures SubOk(r, name, sub)
  {
    hide ForSub, MatchesAny, ReqFrames, EventFrames;
    var frames := ReqFrames(other, s.store, filters);
    assert r.out[sub.origin..] == s.out[sub.origin..] + frames;
    ForSubConcat(s.out[sub.origin..], frames, name);
    ForSubReq(other, s.store, filters, name);
    assert LiveEvents(r, sub.live) == LiveEvents(s, sub.live);
    assert LiveOk(r, sub);
    assert LateJobsOk(r, sub);
  }

  lemma LagStep(s: State, r: State, oldest: nat, name: string, sub: Sub)
    requires SubOk(s, name, sub) && CursorOk(s) && s.cursor <= oldest <= |s.channel|
    requires r == s.(cursor := oldest, lost := s.lost + Range(s.cursor, oldest))
    ensures SubOk(r, name, sub)
  {
    hide ForSub, MatchesAny, ReqFrames, EventFrames;
    assert LiveEvents(r, sub.live) == LiveEvents(s, sub.live);
    assert LiveOk(r, sub);
    assert LateJobsOk(r, sub);
  }

  lemma EventFramesAppend(name: string, evs: seq<Event>, e: Event)
    ensures EventFrames(name, evs + [e]) == EventFrames(name, evs) + [EventFrame(name, e)]
  {
  }

  lemma ReceiveLive(s: State, r: State, sub: Sub, next: Sub)
    requires LiveOk(s, sub) && CursorOk(s) && s.cursor < |s.channel|
    requires r.cursor == s.cursor + 1 && r.channel == s.channel && r.lost == s.lost
    requires next == if MatchesAny(sub.filters, s.channel[s.cursor])
                     then sub.(live := sub.live + [s.cursor]) else sub
    ensures LiveOk(r, next)
  {
    hide MatchesAny;
    assert s.cursor !in s.lost;
    forall i: nat ensures i in next.live <==>
         sub.start <= i < r.cursor && i !in r.lost && MatchesAny(sub.filters, r.channel[i])
    {
      assert i in next.live <==> i in sub.live || (i == s.cursor && MatchesAny(sub.filters, s.channel[s.cursor]));
    }
    forall i | 0 <= i < |sub.live| ensures sub.live[i] < s.cursor {
      assert sub.live[i] in sub.live;
    }
  }

  lemma ReceiveStep(s: State, r: State, name: string, sub: Sub, frames: seq<Frame>)
    requires SubOk(s, name, sub) && CursorOk(s) && s.cursor < |s.channel|
    requires name in s.subs && s.subs[name] == sub
    requires LiveFrames(Filters(s.subs), s.channel[s.cursor], frames)
    requires r == s.(cursor := s.cursor + 1, subs := Delivered(s.subs, s.cursor, s.channel[s.cursor]),
                     out := s.out + frames)
    ensures SubOk(r, name, r.subs[name])
  {
    hide ForSub, MatchesAny, ReqFrames, EventFrames, LiveOk;
    var next, e := r.subs[name], s.channel[s.cursor];
    ReceiveLive(s, r, sub, next);
    assert r.out[sub.origin..] == s.out[sub.origin..] + frames;
    ForSubConcat(s.out[sub.origin..], frames, name);
    assert Filters(s.subs)[name] == sub.filters;
    if MatchesAny(sub.filters, e) {
      EventFramesAppend(name, LiveEvents(s, sub.live), e);
      assert LiveEvents(r, next.live) == LiveEvents(s, sub.live) + [e];
    } else {
      assert LiveEvents(r, next.live) == LiveEvents(s, sub.live);
    }
    assert LateJobsOk(r, next);
  }

  lemma JobsStep(c: Config, s: State, step: Step)
    requires Inv(c, s) && Enabled(c, s, step)
    ensures JobsOk(c, Apply(c, s, step)) && CursorOk(Apply(c, s, step))
  {
    hide SubOk, LiveFrames, ReqFrames, SlotOf, Superseded, Pushed, Delivered, SettledJobs;
  }

  predicate IsQuiet(step: Step) {
    step.Begin? || step.Replace? || step.Append? || step.Close?
  }

  /** Same channel, cursor and output, and nothing newly broadcast. */
  ghost predicate SameWire(s: State, r: State) {
    && r.channel == s.channel && r.cursor == s.cursor && r.lost == s.lost && r.out == s.out
    && (forall t | 0 <= t < |r.jobs| && r.jobs[t].phase.Sent? ::
          t < |s.jobs| && s.jobs[t].phase == r.jobs[t].phase)
    && (forall name | name in r.subs :: name in s.subs && s.subs[name] == r.subs[name])
  }

  lemma QuietKeepsWire(c: Config, s: State, step: Step)
    requires Enabled(c, s, step) && IsQuiet(step)
    ensures SameWire(s, Apply(c, s, step))
  {
    hide LiveFrames, ReqFrames, SlotOf, Superseded, Pushed, MatchesAny, SettledJobs, Delivered, Filters;
  }

  lemma QuietSteps(c: Config, s: State, step: Step, name: string)
    requires Inv(c, s) && Enabled(c, s, step) && IsQuiet(step) && name in Apply(c, s, step).subs
    ensures SubOk(Apply(c, s, step), name, Apply(c, s, step).subs[name])
  {
    hide SubOk, Enabled, Apply, JobsOk, CursorOk;
    QuietKeepsWire(c, s, step);
    QuietStep(s, Apply(c, s, step), name, s.subs[name]);
  }

  lemma ReqSteps(c: Config, s: State, step: Step, name: string)
    requires Inv(c, s) && Enabled(c, s, step) && step.Req? && name in Apply(c, s, step).subs
    ensures SubOk(Apply(c, s, step), name, Apply(c, s, step).subs[name])
  {
    hide SubOk, ReqFrames, SettledJobs, JobsOk;
    var r := Apply(c, s, step);
    if name == step.sub {
      OpenedStep(s, r, name, step.filters);
    } else {
      OtherReqStep(s, r, name, s.subs[name], step.sub, step.filters);
    }
  }

  lemma WireSteps(c: Config, s: State, step: Step, name: string)
    requires Inv(c, s) && Enabled(c, s, step) && !IsQuiet(step) && !step.Req? && name in Apply(c, s, step).subs
    ensures SubOk(Apply(c, s, step), name, Apply(c, s, step).subs[name])
  {
    hide SubOk, LiveFrames, SlotOf, MatchesAny, JobsOk;
    var r := Apply(c, s, step);
    match step
    case Send(t) => SendStep(s, r, t, name, s.subs[name]);
    case Receive(frames) => ReceiveStep(s, r, name, s.subs[name], frames);
    case Lag => LagStep(s, r, |s.channel| - c.buffer, name, s.subs[name]);
  }

  /** Every step keeps the invariant. */
  lemma {:induction false} Preserved(c: Config, s: State, step: Step)
    requires Inv(c, s) && Enabled(c, s, step)
    ensures Inv(c, Apply(c, s, step))
  {
    hide SubOk, Enabled, Apply, JobsOk, CursorOk;
    var r := Apply(c, s, step);
    JobsStep(c, s, step);
    forall name | name in r.subs ensures SubOk(r, name, r.subs[name]) {
      if IsQuiet(step) {
        QuietSteps(c, s, step, name);
      } else if step.Req? {
        ReqSteps(c, s, step, name);
      } else {
        WireSteps(c, s, step, name);
      }
    }
  }

  /** The invariant holds in every state of every run. */
  lemma {:induction false} Invariant(c: Config, steps: seq<Step>, states: seq<State>, n: nat)
    requires IsRun(c, steps, states) && n < |states|
    ensures Inv(c, states[n])
  {
    hide SubOk, Enabled, Apply;
    if n > 0 {
      Invariant(c, steps, states, n - 1);
      Preserved(c, states[n - 1], steps[n - 1]);
    }
  }

  // ---------------------------------------------------------------- theorem

  /** Where a written event that a subscription wants can be. */
  ghost predicate Accounted(s: State, name: string, t: nat)
    requires name in s.subs && t < |s.jobs|
  {
    var sub, job := s.subs[name], s.jobs[t];
    // sent to the client since the request, in the history or live
    || (sub.origin <= |s.out| && exists e :: EventFrame(name, e) in s.out[sub.origin..] && e.id == job.event.id)
    // written before the request, and evicted or replaced by then
    || (t in sub.settled && job.event !in sub.snapshot)
    // written, broadcast still to come; or broadcast, and ahead of the cursor
    || job.phase.Stored?
    || (job.phase.Sent? && s.cursor <= job.phase.at)
    // skipped because the connection fell behind the broadcast buffer
    || (job.phase.Sent? && job.phase.at in s.lost)
  }

  lemma {:induction false} ForSubMember(frames: seq<Frame>, name: string, f: Frame)
    requires f in ForSub(frames, name)
    ensures f in frames
  {
    if frames != [] {
      var init := frames[..|frames| - 1];
      if f in ForSub(init, name) {
        ForSubMember(init, name, f);
      }
    }
  }

  lemma ShownInTranscript(s: State, name: string, sub: Sub, f: Frame)
    requires TranscriptOk(s, name, sub)
    requires f in ReqFrames(name, sub.snapshot, sub.filters) + EventFrames(name, LiveEvents(s, sub.live))
    ensures f in s.out[sub.origin..]
  {
    hide ForSub, ReqFrames, EventFrames;
    ForSubMember(s.out[sub.origin..], name, f);
  }

  lemma ShownInHistory(s: State, name: string, sub: Sub, k: nat, e: Event)
    requires TranscriptOk(s, name, sub)
    requires k < |sub.filters| && sub.filters[k].limit.None? && Matches(sub.filters[k], e) && e in sub.snapshot
    ensures exists h :: EventFrame(name, h) in s.out[sub.origin..] && h.id == e.id
  {
    hide ForSub, Matches, History, TranscriptOk;
    UnlimitedIsComplete(sub.snapshot, sub.filters, k, e);
    var history := History(sub.snapshot, sub.filters);
    var h :| h in history && h.id == e.id;
    var i :| 0 <= i < |history| && history[i] == h;
    assert ReqFrames(name, sub.snapshot, sub.filters)[i] == EventFrame(name, h);
    ShownInTranscript(s, name, sub, EventFrame(name, h));
  }

  /** No gap: in every state of every interleaving, an event that has been
      written and matches a filter without a limit of an open subscription has
      been sent to the client, or was gone from the store before the request,
      or is still on its way, or was skipped by lagging. */
  lemma NoGap(c: Config, steps: seq<Step>, states: seq<State>, n: nat, name: string, k: nat, t: nat)
    requires IsRun(c, steps, states) && n < |states|
    requires var s := states[n];
             && name in s.subs && k < |s.subs[name].filters| && s.subs[name].filters[k].limit.None?
             && t < |s.jobs| && Settled(s.jobs[t]) && Matches(s.subs[name].filters[k], s.jobs[t].event)
    ensures Accounted(states[n], name, t)
  {
    Invariant(c, steps, states, n);
    var s := states[n];
    hide IsRun, Matches, ForSub, ReqFrames, EventFrames, JobsOk;
    var sub, job := s.subs[name], s.jobs[t];
    assert SubOk(s, name, sub);
    if t in sub.settled {
      if job.event in sub.snapshot {
        ShownInHistory(s, name, sub, k, job.event);
      }
    } else if job.phase.Sent? && job.phase.at < s.cursor && job.phase.at !in s.lost {
      ShownLive(c, s, name, sub, t);
    }
  }

  lemma ShownLive(c: Config, s: State, name: string, sub: Sub, t: nat)
    requires JobsOk(c, s) && SubOk(s, name, sub)
    requires t < |s.jobs| && t !in sub.settled && s.jobs[t].phase.Sent?
    requires s.jobs[t].phase.at < s.cursor && s.jobs[t].phase.at !in s.lost
    requires MatchesAny(sub.filters, s.jobs[t].event)
    ensures EventFrame(name, s.jobs[t].event) in s.out[sub.origin..]
  {
    hide ForSub, MatchesAny, ReqFrames;
    var at := s.jobs[t].phase.at;
    assert at in sub.live;
    var i :| 0 <= i < |sub.live| && sub.live[i] == at;
    var frames := EventFrames(name, LiveEvents(s, sub.live));
    assert frames[i] == EventFrame(name, s.jobs[t].event);
    assert frames[i] in frames;
    ShownInTranscript(s, name, sub, frames[i]);
  }

  // ---------------------------------------------------- one event per slot

  /** Two ingests of one slot have both looked, found nothing, and not appended. */
  ghost predicate Racing(s: State) {
    exists t, u | 0 <= t < u < |s.jobs| ::
      s.jobs[t].phase == MustAppend && s.jobs[u].phase == MustAppend
      && SlotOf(s.jobs[t].event) == SlotOf(s.jobs[u].event)
  }

  /** The slot of a job about to append is keyed and still unused. */
  ghost predicate AppendsAreFresh(s: State) {
    forall t | 0 <= t < |s.jobs| && s.jobs[t].phase == MustAppend ::
      && SlotOf(s.jobs[t].event).Some?
      && forall i | 0 <= i < |s.store| :: SlotOf(s.store[i]) != SlotOf(s.jobs[t].event)
  }

  lemma AppendKeepsSlots(c: Config, s: State, t: nat)
    requires Enabled(c, s, Append(t)) && OnePerSlot(s.store) && AppendsAreFresh(s) && !Racing(s)
    ensures OnePerSlot(Apply(c, s, Append(t)).store) && AppendsAreFresh(Apply(c, s, Append(t)))
  {
    hide SlotOf;
    var e, r := s.jobs[t].event, Apply(c, s, Append(t));
    PushedKeepsSlots(s.store, c.cap, e);
    forall u, i | 0 <= u < |r.jobs| && r.jobs[u].phase == MustAppend && 0 <= i < |r.store|
      ensures SlotOf(r.jobs[u].event).Some? && SlotOf(r.store[i]) != SlotOf(r.jobs[u].event)
    {
      assert s.jobs[u] == r.jobs[u] && u != t;
      if r.store[i] == e {
        if s.jobs[t].phase == MustAppend {
          assert SlotOf(e) != SlotOf(s.jobs[u].event);
        }
      } else {
        assert r.store[i] in s.store;
      }
    }
  }

  lemma ReplaceKeepsSlots(c: Config, s: State, t: nat)
    requires Enabled(c, s, Replace(t)) && OnePerSlot(s.store) && AppendsAreFresh(s)
    ensures OnePerSlot(Apply(c, s, Replace(t)).store) && AppendsAreFresh(Apply(c, s, Replace(t)))
  {
    hide SlotOf;
    var e, r := s.jobs[t].event, Apply(c, s, Replace(t));
    match Superseded(s.store, e)
    case None => SlotIsUnused(s.store, e);
    case Some(i) =>
      SupersedesIsSameSlot(e, s.store[i]);
      assert forall k | 0 <= k < |s.store| :: SlotOf(r.store[k]) == SlotOf(s.store[k]);
  }

  lemma SlotStep(c: Config, s: State, step: Step)
    requires Enabled(c, s, step) && OnePerSlot(s.store) && AppendsAreFresh(s) && !Racing(s)
    ensures OnePerSlot(Apply(c, s, step).store) && AppendsAreFresh(Apply(c, s, step))
  {
    hide SlotOf;
    match step
    case Append(t) => AppendKeepsSlots(c, s, t);
    case Replace(t) => ReplaceKeepsSlots(c, s, t);
    case _ =>
      hide LiveFrames, ReqFrames, MatchesAny, SettledJobs, Filters, Delivered, Superseded, Pushed;
  }

  /** One event per slot in every state of a run that never races ... */
  lemma {:induction false} OnePerSlotUnlessRacing(c: Config, steps: seq<Step>, states: seq<State>, n: nat)
    requires IsRun(c, steps, states) && n < |states|
    requires forall i | 0 <= i < n :: !Racing(states[i])
    ensures OnePerSlot(states[n].store) && AppendsAreFresh(states[n])
  {
    hide Enabled, Apply, SlotOf, Racing;
    if n > 0 {
      OnePerSlotUnlessRacing(c, steps, states, n - 1);
      SlotStep(c, states[n - 1], steps[n - 1]);
    }
  }

  /** ... and a race can always end in two events for one slot: the two lock
      acquisitions of `ingest` do not exclude each other. */
  lemma RaceDuplicates(c: Config, s: State, t: nat, u: nat)
    requires c.cap >= 2 && t != u && t < |s.jobs| && u < |s.jobs|
    requires s.jobs[t].phase == MustAppend && s.jobs[u].phase == MustAppend
    requires SlotOf(s.jobs[t].event).Some? && SlotOf(s.jobs[t].event) == SlotOf(s.jobs[u].event)
    ensures Enabled(c, s, Append(t))
    ensures Enabled(c, Apply(c, s, Append(t)), Append(u))
    ensures !OnePerSlot(Apply(c, Apply(c, s, Append(t)), Append(u)).store)
  {
    SlotsAreNotEphemeral(s.jobs[t].event);
    SlotsAreNotEphemeral(s.jobs[u].event);
    hide SlotOf;
    var one := Apply(c, s, Append(t));
    var two := Apply(c, one, Append(u));
    assert one.store[|one.store| - 1] == s.jobs[t].event;
    var n := |two.store|;
    assert two.store[n - 1] == s.jobs[u].event && two.store[n - 2] == s.jobs[t].event;
  }

  /** A job that has looked has a slot. */
  ghost predicate AppendsAreKeyed(s: State) {
    forall t | 0 <= t < |s.jobs| && s.jobs[t].phase == MustAppend :: SlotOf(s.jobs[t].event).Some?
  }

  /** The capacity bound needs no serialisation: it holds in every interleaving. */
  lemma {:induction false} WithinCapacity(c: Config, steps: seq<Step>, states: seq<State>, n: nat)
    requires IsRun(c, steps, states) && n < |states| && c.cap >= 1
    ensures |states[n].store| <= c.cap && AppendsAreKeyed(states[n])
  {
    hide SlotOf, LiveFrames, ReqFrames, MatchesAny, SettledJobs, Filters, Delivered;
    if n > 0 {
      WithinCapacity(c, steps, states, n - 1);
      var s, step := states[n - 1], steps[n - 1];
      assert Enabled(c, s, step) && states[n] == Apply(c, s, step);
    }
  }

  /** At capacity one the race is harmless ... */
  lemma OneEventNeverDuplicates(c: Config, steps: seq<Step>, states: seq<State>, n: nat)
    requires IsRun(c, steps, states) && n < |states| && c.cap == 1
    ensures OnePerSlot(states[n].store)
  {
    hide IsRun, SlotOf;
    WithinCapacity(c, steps, states, n);
  }

  /** ... and from capacity two on every run that reaches a race goes on to a
      run with two events in one slot. */
  lemma RaceExtends(c: Config, steps: seq<Step>, states: seq<State>)
    requires c.cap >= 2 && IsRun(c, steps, states) && Racing(states[|steps|])
    ensures exists t: nat, u: nat, one: State, two: State ::
              IsRun(c, steps + [Append(t), Append(u)], states + [one, two]) && !OnePerSlot(two.store)
  {
    var s := states[|steps|];
    WithinCapacity(c, steps, states, |steps|);
    hide SlotOf, Enabled, Apply, OnePerSlot, Init;
    var t, u :| 0 <= t < u < |s.jobs| && s.jobs[t].phase == MustAppend && s.jobs[u].phase == MustAppend
                && SlotOf(s.jobs[t].event) == SlotOf(s.jobs[u].event);
    RaceDuplicates(c, s, t, u);
    var one := Apply(c, s, Append(t));
    var two := Apply(c, one, Append(u));
    assert IsRun(c, steps + [Append(t), Append(u)], states + [one, two]);
  }

  /** The race is real: any two valid events of one slot have such a run from the start. */
  lemma RaceFromTheStart(c: Config, e: Event, f: Event)
    requires c.cap >= 2 && c.verify(e) && c.verify(f) && SlotOf(e).Some? && SlotOf(e) == SlotOf(f)
    ensures exists states: seq<State> ::
              && IsRun(c, [Begin(e), Begin(f), Replace(0), Replace(1), Append(0), Append(1)], states)
              && !OnePerSlot(states[6].store)
  {
    hide SlotOf, OnePerSlot;
    var s0 := State([], [], [], 0, {}, map[], []);
    var s1 := s0.(jobs := [Job(e, Verified)]);
    var s2 := s0.(jobs := [Job(e, Verified), Job(f, Verified)]);
    var s3 := s0.(jobs := [Job(e, MustAppend), Job(f, Verified)]);
    var s4 := s0.(jobs := [Job(e, MustAppend), Job(f, MustAppend)]);
    assert s1 == Apply(c, s0, Begin(e)) && s2 == Apply(c, s1, Begin(f));
    assert s3 == Apply(c, s2, Replace(0)) && s4 == Apply(c, s3, Replace(1));
    RaceDuplicates(c, s4, 0, 1);
    var s5 := Apply(c, s4, Append(0));
    var s6 := Apply(c, s5, Append(1));
    assert IsRun(c, [Begin(e), Begin(f), Replace(0), Replace(1), Append(0), Append(1)],
                 [s0, s1, s2, s3, s4, s5, s6]);
  }

  /** An undisturbed ingest is one path through the steps, and ends as `Written` says. */
  lemma SerialIngest(c: Config, s: State, e: Event)
    requires c.verify(e)
    ensures exists steps: seq<Step>, states: seq<State> ::
              && IsPath(c, steps, states) && states[0] == s
              && states[|steps|].store == Written(s.store, c.cap, e)
              && states[|steps|].channel == s.channel + [e]
  {
    SlotsAreNotEphemeral(e);
    hide SlotOf, Superseded, Pushed, LiveFrames, ReqFrames, SettledJobs, Delivered, Filters;
    var t := |s.jobs|;
    var s1 := Apply(c, s, Begin(e));
    if IsEphemeral(e.kind) {
      var s2 := Apply(c, s1, Send(t));
      assert IsPath(c, [Begin(e), Send(t)], [s, s1, s2]);
    } else if SlotOf(e).None? {
      var s2 := Apply(c, s1, Append(t));
      var s3 := Apply(c, s2, Send(t));
      assert IsPath(c, [Begin(e), Append(t), Send(t)], [s, s1, s2, s3]);
    } else {
      var s2 := Apply(c, s1, Replace(t));
      if Superseded(s.store, e).Some? {
        var s3 := Apply(c, s2, Send(t));
        assert IsPath(c, [Begin(e), Replace(t), Send(t)], [s, s1, s2, s3]);
      } else {
        var s3 := Apply(c, s2, Append(t));
        var s4 := Apply(c, s3, Send(t));
        assert IsPath(c, [Begin(e), Replace(t), Append(t), Send(t)], [s, s1, s2, s3, s4]);
      }
    }
  }
}
