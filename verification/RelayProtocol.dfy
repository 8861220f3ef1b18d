/** The WebSocket side of the relay: what one connection answers and delivers. */
module RelayProtocol {
  import opened Text
  import opened Relay

  // ------------------------------------------------------------ one socket

  datatype Frame =
    | EventFrame(sub: string, event: Event)
    | EoseFrame(sub: string)
    | NoticeFrame

  function EventFrames(sub: string, evs: seq<Event>): (r: seq<Frame>)
    ensures |r| == |evs| && forall i | 0 <= i < |evs| :: r[i] == EventFrame(sub, evs[i])
  {
    seq(|evs|, i requires 0 <= i < |evs| => EventFrame(sub, evs[i]))
  }

  /** The answer to a well-formed REQ: stored matches, then end-of-stored-events. */
  function ReqFrames(sub: string, stored: seq<Event>, filters: seq<Filter>): seq<Frame> {
    EventFrames(sub, History(stored, filters)) + [EoseFrame(sub)]
  }

  predicate IsFor(f: Frame, sub: string) {
    (f.EventFrame? || f.EoseFrame?) && f.sub == sub
  }

  /** The frames of one subscription, in order. */
  function ForSub(frames: seq<Frame>, sub: string): seq<Frame> {
    if frames == [] then []
    else
      var init := ForSub(frames[..|frames| - 1], sub);
      var f := frames[|frames| - 1];
      if IsFor(f, sub) then init + [f] else init
  }

  /** The hash map is iterated in no fixed order, so what a live event yields
      is fixed per subscription only: one frame if it matches, else none. */
  ghost predicate LiveFrames(subs: map<string, seq<Filter>>, e: Event, frames: seq<Frame>) {
    && (forall sub: string :: ForSub(frames, sub) ==
         if sub in subs && MatchesAny(subs[sub], e) then [EventFrame(sub, e)] else [])
    && (forall i | 0 <= i < |frames| :: frames[i].EventFrame?)
  }

  lemma {:induction false} ForSubConcat(a: seq<Frame>, b: seq<Frame>, sub: string)
    ensures ForSub(a + b, sub) == ForSub(a, sub) + ForSub(b, sub)
    decreases |b|
  {
    if b == [] {
      assert a + b == a;
    } else {
      var init := b[..|b| - 1];
      assert (a + b)[..|a + b| - 1] == a + init;
      ForSubConcat(a, init, sub);
    }
  }

  lemma NoFrames()
    ensures forall sub :: ForSub([], sub) == []
  {
  }

  lemma ForSubOne(f: Frame, sub: string)
    ensures ForSub([f], sub) == if IsFor(f, sub) then [f] else []
  {
    assert [f][..0] == [];
  }

  lemma {:induction false} ForSubEvents(evs: seq<Event>, sub: string, other: string)
    ensures ForSub(EventFrames(sub, evs), other) == if sub == other then EventFrames(sub, evs) else []
    decreases |evs|
  {
    var frames := EventFrames(sub, evs);
    if evs != [] {
      var init := evs[..|evs| - 1];
      ForSubEvents(init, sub, other);
      assert frames[..|frames| - 1] == EventFrames(sub, init);
    }
  }

  lemma ForSubReq(sub: string, stored: seq<Event>, filters: seq<Filter>, other: string)
    ensures ForSub(ReqFrames(sub, stored, filters), other) ==
            if sub == other then ReqFrames(sub, stored, filters) else []
  {
    hide History;
    var evs := History(stored, filters);
    ForSubEvents(evs, sub, other);
    ForSubConcat(EventFrames(sub, evs), [EoseFrame(sub)], other);
    ForSubOne(EoseFrame(sub), other);
  }

  /** Filters as decoded from the request; `None` is one that does not decode. */
  predicate AllDecode(raw: seq<Option<Filter>>) {
    forall i | 0 <= i < |raw| :: raw[i].Some?
  }

  function Decoded(raw: seq<Option<Filter>>): (r: seq<Filter>)
    requires AllDecode(raw)
    ensures |r| == |raw| && forall i | 0 <= i < |raw| :: r[i] == raw[i].value
  {
    seq(|raw|, i requires 0 <= i < |raw| => raw[i].value)
  }

  /** One WebSocket: its subscriptions and the frames written to it. */
  class Connection {
    var subscriptions: map<string, seq<Filter>>
    var out: seq<Frame>

    constructor ()
      ensures subscriptions == map[] && out == []
    {
      subscriptions, out := map[], [];
    }

    /** `handle_req`: one bad filter rejects the request and leaves the
        subscriptions alone; otherwise the id is bound, replacing an earlier
        binding, and the stored matches are sent. */
    method HandleReq(stored: seq<Event>, sub: Option<string>, raw: seq<Option<Filter>>)
      modifies this
      ensures sub.None? || !AllDecode(raw) ==>
                subscriptions == old(subscriptions) && out == old(out) + [NoticeFrame]
      ensures sub.Some? && AllDecode(raw) ==>
                && subscriptions == old(subscriptions)[sub.value := Decoded(raw)]
                && out == old(out) + ReqFrames(sub.value, stored, Decoded(raw))
    {
      hide History;
      if sub.None? {
        out := out + [NoticeFrame];
        return;
      }
      var filters: seq<Filter> := [];
      for i := 0 to |raw|
        invariant |filters| == i && forall k | 0 <= k < i :: raw[k].Some? && filters[k] == raw[k].value
      {
        if raw[i].None? {
          out := out + [NoticeFrame];
          return;
        }
        filters := filters + [raw[i].value];
      }
      assert filters == Decoded(raw);
      var history := ComputeHistory(stored, filters);
      subscriptions := subscriptions[sub.value := filters];
      var frames: seq<Frame> := [];
      for i := 0 to |history|
        invariant frames == EventFrames(sub.value, history)[..i]
      {
        frames := frames + [EventFrame(sub.value, history[i])];
      }
      out := out + (frames + [EoseFrame(sub.value)]);
    }

    method HandleClose(sub: Option<string>)
      modifies this
      ensures sub.None? ==> subscriptions == old(subscriptions) && out == old(out) + [NoticeFrame]
      ensures sub.Some? ==> subscriptions == old(subscriptions) - {sub.value} && out == old(out)
    {
      if sub.None? {
        out := out + [NoticeFrame];
      } else {
        subscriptions := subscriptions - {sub.value};
      }
    }

    /** The live arm of the select loop. */
    method Deliver(e: Event)
      modifies this
      ensures subscriptions == old(subscriptions)
      ensures old(out) <= out && LiveFrames(subscriptions, e, out[|old(out)|..])
    {
      hide MatchesAny, ForSub;
      var frames: seq<Frame> := [];
      NoFrames();
      var rest := subscriptions.Keys;
      while rest != {}
        invariant subscriptions == old(subscriptions) && out == old(out)
        invariant rest <= subscriptions.Keys
        invariant LiveFrames(subscriptions - rest, e, frames)
      {
        var sub :| sub in rest;
        ghost var before, done := frames, subscriptions - rest;
        if MatchesAny(subscriptions[sub], e) {
          frames := frames + [EventFrame(sub, e)];
        }
        rest := rest - {sub};
        LiveStep(done, subscriptions - rest, sub, subscriptions[sub], e, before, frames);
      }
      assert subscriptions - rest == subscriptions;
      assert (out + frames)[|out|..] == frames;
      out := out + frames;
    }
  }

  lemma LiveStep(done: map<string, seq<Filter>>, next: map<string, seq<Filter>>, sub: string,
                 filters: seq<Filter>, e: Event, before: seq<Frame>, after: seq<Frame>)
    requires LiveFrames(done, e, before) && sub !in done
    requires next.Keys == done.Keys + {sub} && next[sub] == filters
    requires forall s | s in done :: next[s] == done[s]
    requires after == if MatchesAny(filters, e) then before + [EventFrame(sub, e)] else before
    ensures LiveFrames(next, e, after)
  {
    hide MatchesAny, ForSub;
    forall s: string ensures ForSub(after, s) ==
         if s in next && MatchesAny(next[s], e) then [EventFrame(s, e)] else []
    {
      ForSubConcat(before, [EventFrame(sub, e)], s);
      ForSubOne(EventFrame(sub, e), s);
    }
  }
}
