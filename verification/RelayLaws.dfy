/** What the relay's vocabulary means, apart from the code: event kinds, the
    address of an event, filters, and the frames that answer a request. */
module RelayLaws {
  import opened Text
  import opened Relay
  import opened RelayProtocol
  import RelayRuns

  // ------------------------------------------------------------------ kinds

  /** NIP-01 and NIP-16 by ten thousands: 1 is replaceable, 2 ephemeral, 3
      parameterised; below them, 0 and 3 are replaceable too. Every kind has
      exactly one class. */
  lemma KindClasses(kind: nat)
    ensures IsEphemeral(kind) <==> kind / 10_000 == 2
    ensures IsParameterised(kind) <==> kind / 10_000 == 3
    ensures IsReplaceable(kind) <==> kind / 10_000 == 1 || kind in {0, 3}
    ensures IsRegular(kind) <==> (kind / 10_000 == 0 && kind !in {0, 3}) || kind / 10_000 >= 4
  {
  }

  // -------------------------------------------------------------- addresses

  /** The value of the first tag named `d`, as a relation. */
  ghost predicate HasD(e: Event, d: Option<string>) {
    if exists i :: 0 <= i < |e.tags| && ["d"] <= e.tags[i] then exists i :: IsFirstD(e, i, d) else d == None
  }

  ghost predicate IsFirstD(e: Event, i: nat, d: Option<string>) {
    && i < |e.tags| && ["d"] <= e.tags[i] && (forall j | 0 <= j < i :: !(["d"] <= e.tags[j]))
    && d == (if |e.tags[i]| >= 2 then Some(e.tags[i][1]) else None)
  }

  lemma TagNames(tag: seq<string>, name: string)
    ensures IsTag(tag, name) <==> [name] <= tag
  {
  }

  lemma DTagMeans(e: Event, d: Option<string>)
    ensures DTag(e) == d <==> HasD(e, d)
  {
    var r := FirstTag(e.tags, "d");
    forall i | 0 <= i < |e.tags| ensures IsTag(e.tags[i], "d") <==> ["d"] <= e.tags[i] {
      TagNames(e.tags[i], "d");
    }
    hide IsTag, FirstTag;
    if r.Some? {
      var i: nat :| i < |e.tags| && e.tags[i] == r.value && IsTag(e.tags[i], "d") && forall j | 0 <= j < i :: !IsTag(e.tags[j], "d");
      assert IsFirstD(e, i, DTag(e));
      if HasD(e, d) {
        var k: nat :| IsFirstD(e, k, d);
        assert k == i;
      }
    }
  }

  /** Two events that NIP-16 keys alike. */
  ghost predicate SameAddress(a: Event, b: Event) {
    && a.pubkey == b.pubkey && a.kind == b.kind
    && (|| a.kind in {0, 3} || a.kind / 10_000 == 1
        || (a.kind / 10_000 == 3 && exists d :: HasD(a, d) && HasD(b, d)))
  }

  lemma SlotsAreAddresses(a: Event, b: Event)
    ensures SlotOf(a).Some? && SlotOf(a) == SlotOf(b) <==> SameAddress(a, b)
  {
    KindClasses(a.kind);
    KindClasses(b.kind);
    DTagMeans(a, DTag(a));
    DTagMeans(b, DTag(b));
    if d :| HasD(a, d) && HasD(b, d) {
      DTagMeans(a, d);
      DTagMeans(b, d);
    }
    hide HasD, DTag;
  }

  lemma LoneSuperseded(e: Event, f: Event)
    requires SlotOf(f).Some?
    ensures Superseded([e], f) == (if SlotOf(e) == SlotOf(f) then Some(0) else None) && Superseded([], f) == None
  {
    hide SlotOf;
    SupersedesIsSameSlot(f, e);
    var r := Superseded([e], f);
    assert [e][0] == e;
    if r.None? {
      assert !Supersedes(f, [e][0]);
    }
  }

  /** Two valid events, one after the other, in a store with room for both: the
      second replaces the first exactly if they have the same address, and an
      ephemeral event is never stored. */
  lemma TwoEvents(verify: Event -> bool, cap: nat, e: Event, f: Event)
    requires cap >= 2 && verify(e) && verify(f)
    ensures Run(verify, cap, [e, f]) ==
            if e.kind / 10_000 == 2 && f.kind / 10_000 == 2 then []
            else if f.kind / 10_000 == 2 then [e]
            else if e.kind / 10_000 == 2 || SameAddress(e, f) then [f]
            else [e, f]
  {
    hide SlotOf, SameAddress, Written;
    KindClasses(e.kind);
    KindClasses(f.kind);
    RunTwo(verify, cap, e, f);
    OnEmpty(cap, e);
    OnEmpty(cap, f);
    OnOne(cap, e, f);
    SlotsAreAddresses(f, e);
    SlotsAreAddresses(e, f);
  }

  lemma RunTwo(verify: Event -> bool, cap: nat, e: Event, f: Event)
    requires verify(e) && verify(f)
    ensures Run(verify, cap, [e, f]) == Written(Written([], cap, e), cap, f)
  {
    hide Written;
    var two, one := [e, f], [e];
    assert two[..|two| - 1] == one && one[..|one| - 1] == [];
    assert Run(verify, cap, []) == [];
    assert Run(verify, cap, one) == Written([], cap, e);
  }

  lemma OnEmpty(cap: nat, e: Event)
    ensures Written([], cap, e) == if IsEphemeral(e.kind) then [] else [e]
  {
    hide SlotOf, Superseded;
    assert Pushed([], cap, e) == [e];
    if SlotOf(e).Some? {
      LoneSuperseded(e, e);
    }
  }

  lemma OnOne(cap: nat, e: Event, f: Event)
    requires cap >= 2
    ensures Written([e], cap, f) ==
            if IsEphemeral(f.kind) then [e] else if SlotOf(f).Some? && SlotOf(e) == SlotOf(f) then [f] else [e, f]
  {
    hide SlotOf, Superseded;
    assert Pushed([e], cap, f) == [e, f] && [e][0 := f] == [f];
    if SlotOf(f).Some? {
      LoneSuperseded(e, f);
    }
  }

  /** A replacement takes the place of the first event of its address; the rest
      of the store, and its order, stay. */
  lemma ReplacesInPlace(s: seq<Event>, cap: nat, e: Event, i: nat)
    requires i < |s| && SameAddress(s[i], e) && forall j | 0 <= j < i :: !SameAddress(s[j], e)
    ensures Written(s, cap, e) == s[i := e]
  {
    hide SlotOf, SameAddress, Supersedes;
    forall j | 0 <= j < |s| ensures SameAddress(s[j], e) <==> SlotOf(s[j]).Some? && SlotOf(s[j]) == SlotOf(e) {
      SlotsAreAddresses(s[j], e);
    }
    SlotsAreNotEphemeral(e);
    forall j | 0 <= j < |s| ensures Supersedes(e, s[j]) <==> SlotOf(s[j]) == SlotOf(e) {
      SupersedesIsSameSlot(e, s[j]);
    }
    assert Superseded(s, e) == Some(i);
  }

  /** Removal keeps order and number: what it keeps of two parts is what it keeps
      of each, and of one event that event or nothing. */
  lemma {:induction false} RemovesInOrder(a: seq<Event>, b: seq<Event>, e: Event, id: string)
    ensures Without(a + b, id) == Without(a, id) + Without(b, id)
    ensures Without([e], id) == if e.id == id then [] else [e]
    decreases |b|
  {
    assert [e][..0] == [];
    if b == [] {
      assert a + b == a;
    } else {
      assert (a + b)[..|a + b| - 1] == a + b[..|b| - 1];
      RemovesInOrder(a, b[..|b| - 1], e, id);
    }
  }

  // ---------------------------------------------------------------- filters

  /** Some listed text is the wanted one, whatever its case. */
  ghost predicate Lists(listed: Option<seq<string>>, text: string) {
    listed.Some? ==> exists x :: x in listed.value && SameLetters(x, text)
  }

  /** The event carries a tag of this name with one of the wanted values. */
  ghost predicate Carries(e: Event, name: string, wanted: TagValues) {
    wanted.Values? && exists v, tag :: Some(v) in wanted.values && tag in e.tags && [name, v] <= tag
  }

  lemma ListsMeans(listed: seq<string>, text: string)
    ensures HasIgnoringCase(listed, text) <==> Lists(Some(listed), text)
  {
    hide SameLetters, Lower;
    if i :| 0 <= i < |listed| && Lower(listed[i]) == Lower(text) {
      LowerMeans(listed[i], text);
      assert listed[i] in listed;
    }
    if x :| x in listed && SameLetters(x, text) {
      LowerMeans(x, text);
      var i :| 0 <= i < |listed| && listed[i] == x;
    }
  }

  lemma CarriesMeans(e: Event, name: string, wanted: TagValues)
    ensures TagMatches(e, name, wanted) <==> Carries(e, name, wanted)
  {
    if TagMatches(e, name, wanted) {
      var i :| 0 <= i < |wanted.values| && wanted.values[i].Some? && HasTag(e, name, wanted.values[i].value);
      var v := wanted.values[i].value;
      var k :| 0 <= k < |e.tags| && |e.tags[k]| >= 2 && e.tags[k][0] == name && e.tags[k][1] == v;
      assert Some(v) in wanted.values && e.tags[k] in e.tags && [name, v] <= e.tags[k];
    }
    if Carries(e, name, wanted) {
      var v, tag :| Some(v) in wanted.values && tag in e.tags && [name, v] <= tag;
      var k :| 0 <= k < |e.tags| && e.tags[k] == tag;
      assert [name, v][0] == tag[0] && [name, v][1] == tag[1];
      assert HasTag(e, name, v);
    }
  }

  /** What a filter asks of an event: all of its criteria, in the terms of
      NIP-01; the limit plays no part. */
  lemma FilterMeans(f: Filter, e: Event)
    ensures Matches(f, e) <==>
            && Lists(f.ids, e.id) && Lists(f.authors, e.pubkey)
            && (f.kinds == None || exists k :: 0 <= k < |f.kinds.value| && f.kinds.value[k] == e.kind)
            && (f.since == None || e.createdAt >= f.since.value)
            && (f.until == None || e.createdAt <= f.until.value)
            && (forall name | name in f.tags :: Carries(e, name, f.tags[name]))
  {
    hide Lists, Carries, HasIgnoringCase, TagMatches;
    if f.ids.Some? {
      ListsMeans(f.ids.value, e.id);
    }
    if f.authors.Some? {
      ListsMeans(f.authors.value, e.pubkey);
    }
    assert f.ids == None ==> Lists(f.ids, e.id) by { NothingListed(e.id); }
    assert f.authors == None ==> Lists(f.authors, e.pubkey) by { NothingListed(e.pubkey); }
    forall name | name in f.tags ensures TagMatches(e, name, f.tags[name]) <==> Carries(e, name, f.tags[name]) {
      CarriesMeans(e, name, f.tags[name]);
    }
  }

  lemma NothingListed(text: string)
    ensures Lists(None, text)
  {
  }

  /** The filter with no criteria. */
  const ANYTHING := Filter(None, None, None, None, None, None, map[])

  function Either<T>(a: Option<T>, b: Option<T>): Option<T> {
    if a.Some? then a else b
  }

  /** The criteria of two filters that share none. */
  function Together(f: Filter, g: Filter): Filter {
    Filter(Either(f.ids, g.ids), Either(f.authors, g.authors), Either(f.kinds, g.kinds), Either(f.since, g.since),
           Either(f.until, g.until), Either(f.limit, g.limit), f.tags + g.tags)
  }

  predicate ShareNone(f: Filter, g: Filter) {
    && (f.ids.None? || g.ids.None?) && (f.authors.None? || g.authors.None?) && (f.kinds.None? || g.kinds.None?)
    && (f.since.None? || g.since.None?) && (f.until.None? || g.until.None?) && f.tags.Keys !! g.tags.Keys
  }

  /** Criteria add up: both filters together ask for exactly what each asks. */
  lemma CriteriaAddUp(f: Filter, g: Filter, e: Event)
    requires ShareNone(f, g)
    ensures Matches(Together(f, g), e) <==> Matches(f, e) && Matches(g, e)
    ensures Matches(ANYTHING, e)
  {
    hide HasIgnoringCase, TagMatches;
    var both := Together(f, g);
    assert forall name | name in f.tags :: name in both.tags && both.tags[name] == f.tags[name];
    assert forall name | name in g.tags :: name in both.tags && both.tags[name] == g.tags[name];
  }

  // ----------------------------------------------------------------- frames

  /** A request is answered by its history, event by event in the order of
      positions, and then by one end marker. */
  lemma AnswerByPosition(sub: string, stored: seq<Event>, fs: seq<Filter>) returns (cs: seq<Pick>)
    ensures InOrderOf(cs) && (forall c: Pick :: c in cs <==>
              Picks(stored, fs, c) && forall b: Pick | Picks(stored, fs, b) && Before(b, c) :: stored[b.at].id != stored[c.at].id)
    ensures var frames := ReqFrames(sub, stored, fs);
            && |frames| == |cs| + 1 && frames[|cs|] == EoseFrame(sub)
            && forall n | 0 <= n < |cs| :: cs[n].at < |stored| && frames[n] == EventFrame(sub, stored[cs[n].at])
  {
    hide History, Picks, Before;
    cs := HistoryByPosition(stored, fs);
  }

  /** A connection loses an event by lagging only once the broadcast buffer has
      gone past it. */
  lemma {:induction false} LostIsOld(c: RelayRuns.Config, steps: seq<RelayRuns.Step>, states: seq<RelayRuns.State>, n: nat)
    requires RelayRuns.IsRun(c, steps, states) && n < |states|
    ensures forall i | i in states[n].lost :: i + c.buffer < |states[n].channel|
  {
    hide LiveFrames, ReqFrames, SlotOf, Superseded, Pushed, MatchesAny;
    if n > 0 {
      LostIsOld(c, steps, states, n - 1);
      var s, step := states[n - 1], steps[n - 1];
      assert RelayRuns.Enabled(c, s, step) && states[n] == RelayRuns.Apply(c, s, step);
    }
  }
}
