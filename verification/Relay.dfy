/** The Nostr relay: events, filters, the bounded event store, `ingest` and
    `history` (NIP-01 and NIP-16). */
module Relay {
  import opened Text

  datatype Event = Event(
    id: string, pubkey: string, createdAt: nat, kind: nat,
    tags: seq<seq<string>>, content: string, sig: string)

  // ---------------------------------------------------------------- filters

  /** A tag filter is an array of JSON values; `None` is one that is not a string. */
  datatype TagValues = NotAnArray | Values(values: seq<Option<string>>)

  datatype Filter = Filter(
    ids: Option<seq<string>>, authors: Option<seq<string>>, kinds: Option<seq<nat>>,
    since: Option<nat>, until: Option<nat>, limit: Option<nat>, tags: map<string, TagValues>)

  predicate HasIgnoringCase(ss: seq<string>, s: string) {
    exists i | 0 <= i < |ss| :: Lower(ss[i]) == Lower(s)
  }

  predicate HasTag(e: Event, name: string, value: string) {
    exists i | 0 <= i < |e.tags| :: |e.tags[i]| >= 2 && e.tags[i][0] == name && e.tags[i][1] == value
  }

  predicate TagMatches(e: Event, name: string, wanted: TagValues) {
    wanted.Values? && exists i | 0 <= i < |wanted.values| ::
      wanted.values[i].Some? && HasTag(e, name, wanted.values[i].value)
  }

  predicate Matches(f: Filter, e: Event) {
    && (f.ids.Some? ==> HasIgnoringCase(f.ids.value, e.id))
    && (f.authors.Some? ==> HasIgnoringCase(f.authors.value, e.pubkey))
    && (f.kinds.Some? ==> e.kind in f.kinds.value)
    && (f.since.Some? ==> f.since.value <= e.createdAt)
    && (f.until.Some? ==> e.createdAt <= f.until.value)
    && (forall name | name in f.tags :: TagMatches(e, name, f.tags[name]))
  }

  predicate MatchesAny(fs: seq<Filter>, e: Event) {
    exists i | 0 <= i < |fs| :: Matches(fs[i], e)
  }

  // ------------------------------------------------------------------ slots

  predicate IsReplaceable(kind: nat) {
    kind == 0 || kind == 3 || 10_000 <= kind < 20_000
  }

  predicate IsEphemeral(kind: nat) {
    20_000 <= kind < 30_000
  }

  predicate IsParameterised(kind: nat) {
    30_000 <= kind < 40_000
  }

  predicate IsTag(tag: seq<string>, name: string) {
    tag != [] && tag[0] == name
  }

  function FirstTag(tags: seq<seq<string>>, name: string): (r: Option<seq<string>>)
    ensures r.Some? ==> exists i :: 0 <= i < |tags| && tags[i] == r.value && IsTag(tags[i], name)
                                    && forall j | 0 <= j < i :: !IsTag(tags[j], name)
    ensures r.None? ==> forall j | 0 <= j < |tags| :: !IsTag(tags[j], name)
  {
    if tags == [] then None
    else if IsTag(tags[0], name) then Some(tags[0])
    else
      var r := FirstTag(tags[1..], name);
      assert forall i | 0 <= i < |tags| - 1 :: tags[1..][i] == tags[i + 1];
      r
  }

  /** The value of the first `d` tag; a first `d` tag without a value hides later ones. */
  function DTag(e: Event): Option<string> {
    match FirstTag(e.tags, "d")
    case None => None
    case Some(tag) => if |tag| >= 2 then Some(tag[1]) else None
  }

  /** What NIP-16 keys an event by. */
  datatype Slot = Replaceable(pubkey: string, kind: nat) | Parameterised(pubkey: string, kind: nat, d: Option<string>)

  function SlotOf(e: Event): Option<Slot> {
    if IsReplaceable(e.kind) then Some(Replaceable(e.pubkey, e.kind))
    else if IsParameterised(e.kind) then Some(Parameterised(e.pubkey, e.kind, DTag(e)))
    else None
  }

  /** The predicate `ingest` hands to `replace_where`. */
  predicate Supersedes(e: Event, old_: Event) {
    && old_.pubkey == e.pubkey && old_.kind == e.kind
    && (IsParameterised(e.kind) ==> DTag(old_) == DTag(e))
  }

  lemma SupersedesIsSameSlot(e: Event, old_: Event)
    requires SlotOf(e).Some?
    ensures Supersedes(e, old_) <==> SlotOf(old_) == SlotOf(e)
  {
  }

  // ------------------------------------------------------------------ store

  function FirstMatch(s: seq<Event>, p: Event -> bool): (r: Option<nat>)
    ensures r.Some? ==> r.value < |s| && p(s[r.value]) && forall i | 0 <= i < r.value :: !p(s[i])
    ensures r.None? ==> forall i | 0 <= i < |s| :: !p(s[i])
  {
    if s == [] then None
    else if p(s[0]) then Some(0)
    else
      match FirstMatch(s[1..], p)
      case None => None
      case Some(i) => Some(i + 1)
  }

  function Pushed(s: seq<Event>, cap: nat, e: Event): seq<Event> {
    (if |s| >= cap && s != [] then s[1..] else s) + [e]
  }

  function Superseded(s: seq<Event>, e: Event): Option<nat> {
    FirstMatch(s, o => Supersedes(e, o))
  }

  function Without(s: seq<Event>, id: string): (r: seq<Event>)
    ensures |r| <= |s|
  {
    if s == [] then []
    else
      var kept := Without(s[..|s| - 1], id);
      if s[|s| - 1].id != id then kept + [s[|s| - 1]] else kept
  }

  lemma {:induction false} WithoutExact(s: seq<Event>, id: string, e: Event)
    ensures e in Without(s, id) <==> e in s && e.id != id
  {
    if s != [] {
      WithoutExact(s[..|s| - 1], id, e);
      assert s == s[..|s| - 1] + [s[|s| - 1]];
    }
  }

  /** The store after one whole, undisturbed ingest of a valid event. */
  function Written(s: seq<Event>, cap: nat, e: Event): seq<Event> {
    if IsEphemeral(e.kind) then s
    else if SlotOf(e).None? then Pushed(s, cap, e)
    else
      match Superseded(s, e)
      case Some(i) => s[i := e]
      case None => Pushed(s, cap, e)
  }

  /** `InMemoryEventStore`. */
  class EventStore {
    var inner: seq<Event>
    const maxEvents: nat

    ghost predicate Valid()
      reads this
    {
      1 <= maxEvents && |inner| <= maxEvents
    }

    constructor (limit: nat)
      ensures Valid() && inner == [] && maxEvents == if limit == 0 then 1 else limit
    {
      inner, maxEvents := [], if limit == 0 then 1 else limit;
    }

    method Put(e: Event)
      requires Valid()
      modifies this
      ensures Valid() && inner == Pushed(old(inner), maxEvents, e)
    {
      if |inner| >= maxEvents {
        inner := inner[1..];
      }
      inner := inner + [e];
    }

    method Remove(id: string)
      requires Valid()
      modifies this
      ensures Valid() && inner == Without(old(inner), id)
    {
      var kept: seq<Event> := [];
      for i := 0 to |inner|
        invariant inner == old(inner) && kept == Without(inner[..i], id)
      {
        assert inner[..i + 1][..i] == inner[..i];
        if inner[i].id != id {
          kept := kept + [inner[i]];
        }
      }
      assert inner[..|inner|] == inner;
      inner := kept;
    }

    method ReplaceWhere(p: Event -> bool, e: Event) returns (replaced: bool)
      requires Valid()
      modifies this
      ensures Valid()
      ensures match FirstMatch(old(inner), p)
              case Some(i) => replaced && inner == old(inner)[i := e]
              case None => !replaced && inner == old(inner)
    {
      for i := 0 to |inner|
        invariant inner == old(inner)
        invariant forall k | 0 <= k < i :: !p(inner[k])
      {
        if p(inner[i]) {
          inner := inner[i := e];
          return true;
        }
      }
      replaced := false;
    }
  }

  /** `Relay`: the store and everything ever sent on the broadcast channel. */
  class RelayServer {
    const store: EventStore
    var sent: seq<Event>

    constructor (store: EventStore)
      ensures this.store == store && sent == []
    {
      this.store, sent := store, [];
    }

    /** `ingest`, undisturbed: the store becomes `Written`, the event goes out once. */
    method Ingest(verify: Event -> bool, e: Event) returns (accepted: bool)
      requires store.Valid()
      modifies this, store
      ensures store.Valid() && accepted == verify(e)
      ensures accepted ==> store.inner == Written(old(store.inner), store.maxEvents, e) && sent == old(sent) + [e]
      ensures !accepted ==> store.inner == old(store.inner) && sent == old(sent)
    {
      if !verify(e) {
        return false;
      }
      if IsEphemeral(e.kind) {
        sent := sent + [e];
        return true;
      }
      if IsReplaceable(e.kind) || IsParameterised(e.kind) {
        var replaced := store.ReplaceWhere(o => Supersedes(e, o), e);
        if !replaced {
          store.Put(e);
        }
      } else {
        store.Put(e);
      }
      sent := sent + [e];
      accepted := true;
    }
  }

  // ------------------------------------------------------- serialised runs

  /** The store after ingesting `es` one after the other, starting empty. */
  function Run(verify: Event -> bool, cap: nat, es: seq<Event>): seq<Event> {
    if es == [] then []
    else
      var before := Run(verify, cap, es[..|es| - 1]);
      var e := es[|es| - 1];
      if verify(e) then Written(before, cap, e) else before
  }

  ghost predicate OnePerSlot(s: seq<Event>) {
    forall i, j | 0 <= i < j < |s| && SlotOf(s[i]).Some? :: SlotOf(s[i]) != SlotOf(s[j])
  }

  /** `e` was ingested, and nothing valid for its slot was ingested after it. */
  ghost predicate LastForSlot(verify: Event -> bool, es: seq<Event>, e: Event) {
    exists n :: 0 <= n < |es| && es[n] == e
                && forall m | n < m < |es| && verify(es[m]) :: SlotOf(e).None? || SlotOf(es[m]) != SlotOf(e)
  }

  lemma PushedKeepsSlots(s: seq<Event>, cap: nat, e: Event)
    requires OnePerSlot(s)
    requires SlotOf(e).Some? ==> forall i | 0 <= i < |s| :: SlotOf(s[i]) != SlotOf(e)
    ensures OnePerSlot(Pushed(s, cap, e))
  {
    hide SlotOf;
  }

  lemma SlotIsUnused(s: seq<Event>, e: Event)
    requires SlotOf(e).Some? && Superseded(s, e).None?
    ensures forall i | 0 <= i < |s| :: SlotOf(s[i]) != SlotOf(e)
  {
    hide SlotOf;
    forall i | 0 <= i < |s| ensures SlotOf(s[i]) != SlotOf(e) {
      SupersedesIsSameSlot(e, s[i]);
    }
  }

  lemma WrittenKeepsSlots(s: seq<Event>, cap: nat, e: Event)
    requires OnePerSlot(s)
    ensures OnePerSlot(Written(s, cap, e))
  {
    hide SlotOf, Pushed;
    if !IsEphemeral(e.kind) {
      if SlotOf(e).None? {
        PushedKeepsSlots(s, cap, e);
      } else {
        match Superseded(s, e) {
          case None =>
            SlotIsUnused(s, e);
            PushedKeepsSlots(s, cap, e);
          case Some(i) =>
            SupersedesIsSameSlot(e, s[i]);
            assert SlotOf(s[i]) == SlotOf(e);
        }
      }
    }
  }

  /** Every event of the new store was stored before or is the new one, and
      the new one has pushed out whatever held its slot. */
  lemma WrittenContents(s: seq<Event>, cap: nat, e: Event, o: Event)
    requires OnePerSlot(s) && o in Written(s, cap, e)
    ensures o == e || o in s
    ensures o != e && SlotOf(e).Some? && !IsEphemeral(e.kind) ==> SlotOf(o) != SlotOf(e)
  {
    hide SlotOf;
    if SlotOf(e).Some? {
      match Superseded(s, e)
      case None => SlotIsUnused(s, e);
      case Some(i) => SupersedesIsSameSlot(e, s[i]);
    }
  }

  lemma SlotsAreNotEphemeral(e: Event)
    ensures IsEphemeral(e.kind) ==> SlotOf(e).None?
  {
  }

  /** The store invariant over every serialised run. */
  lemma {:induction false} StoreInvariant(verify: Event -> bool, cap: nat, es: seq<Event>)
    requires cap >= 1
    ensures var s := Run(verify, cap, es);
            && |s| <= cap
            && OnePerSlot(s)
            && forall e | e in s :: verify(e) && !IsEphemeral(e.kind) && LastForSlot(verify, es, e)
    decreases |es|
  {
    hide SlotOf;
    if es != [] {
      var prefix, e := es[..|es| - 1], es[|es| - 1];
      var before, after := Run(verify, cap, prefix), Run(verify, cap, es);
      StoreInvariant(verify, cap, prefix);
      if verify(e) {
        WrittenKeepsSlots(before, cap, e);
        SlotsAreNotEphemeral(e);
      }
      forall o | o in after ensures verify(o) && !IsEphemeral(o.kind) && LastForSlot(verify, es, o) {
        if verify(e) {
          WrittenContents(before, cap, e, o);
        }
        if o in before && (o != e || !verify(e)) {
          LastForSlotExtends(verify, prefix, e, o);
          assert prefix + [e] == es;
        } else {
          assert es[|es| - 1] == o;
        }
      }
    }
  }

  lemma LastForSlotExtends(verify: Event -> bool, prefix: seq<Event>, e: Event, o: Event)
    requires LastForSlot(verify, prefix, o)
    requires verify(e) && SlotOf(o).Some? ==> SlotOf(e) != SlotOf(o)
    ensures LastForSlot(verify, prefix + [e], o)
  {
    hide SlotOf;
    var n :| 0 <= n < |prefix| && prefix[n] == o
             && forall m | n < m < |prefix| && verify(prefix[m]) :: SlotOf(o).None? || SlotOf(prefix[m]) != SlotOf(o);
    assert (prefix + [e])[n] == o;
  }

  lemma WrittenHasTheNewEvent(s: seq<Event>, cap: nat, e: Event)
    requires !IsEphemeral(e.kind)
    ensures e in Written(s, cap, e)
  {
    hide SlotOf;
    match Superseded(s, e)
    case None => assert Pushed(s, cap, e)[|Pushed(s, cap, e)| - 1] == e;
    case Some(i) =>
      assert s[i := e][i] == e;
      assert Pushed(s, cap, e)[|Pushed(s, cap, e)| - 1] == e;
  }

  // ------------------------------------------------- which event of a slot

  ghost predicate ValidFor(verify: Event -> bool, es: seq<Event>, n: nat, slot: Slot) {
    n < |es| && verify(es[n]) && SlotOf(es[n]) == Some(slot)
  }

  /** Ingest number `n` is the last valid one of its slot. */
  ghost predicate IsLastFor(verify: Event -> bool, es: seq<Event>, n: nat, slot: Slot) {
    ValidFor(verify, es, n, slot) && forall m | n < m < |es| :: !ValidFor(verify, es, m, slot)
  }

  ghost predicate NewestFor(verify: Event -> bool, es: seq<Event>, e: Event, slot: Slot) {
    forall m: nat | ValidFor(verify, es, m, slot) :: es[m].createdAt <= e.createdAt
  }

  /** `created_at` is not consulted: an older event that arrives later takes the slot. */
  lemma OlderTakesTheSlot(verify: Event -> bool, cap: nat, e: Event, f: Event)
    requires cap >= 1 && verify(e) && verify(f) && SlotOf(e).Some? && SlotOf(f) == SlotOf(e)
    requires f.createdAt < e.createdAt
    ensures Run(verify, cap, [e, f]) == [f]
  {
    hide SlotOf;
    SlotsAreNotEphemeral(e);
    SlotsAreNotEphemeral(f);
    assert [e, f][..1] == [e] && [e][..0] == [];
    assert Run(verify, cap, [e]) == [e];
    SupersedesIsSameSlot(f, e);
    assert Superseded([e], f) == Some(0);
  }

  /** What a run stores for a slot is its last valid ingest, and that is the
      newest exactly if no earlier valid ingest of the slot was newer. */
  lemma StoredIsLast(verify: Event -> bool, cap: nat, es: seq<Event>, e: Event, slot: Slot)
    requires cap >= 1 && e in Run(verify, cap, es) && SlotOf(e) == Some(slot)
    ensures exists n: nat :: IsLastFor(verify, es, n, slot)
    ensures forall n: nat | IsLastFor(verify, es, n, slot) ::
              && es[n] == e
              && (NewestFor(verify, es, e, slot)
                  <==> forall m | 0 <= m < n && ValidFor(verify, es, m, slot) :: es[m].createdAt <= es[n].createdAt)
  {
    hide SlotOf, Run;
    StoreInvariant(verify, cap, es);
    var k :| 0 <= k < |es| && es[k] == e && forall m | k < m < |es| && verify(es[m]) :: SlotOf(es[m]) != SlotOf(e);
    assert IsLastFor(verify, es, k, slot);
    forall n: nat | IsLastFor(verify, es, n, slot) ensures n == k {
      assert ValidFor(verify, es, k, slot) && ValidFor(verify, es, n, slot);
    }
  }

  /** In each slot the valid ingests come in order of `created_at`. */
  ghost predicate InOrder(verify: Event -> bool, es: seq<Event>) {
    forall i: nat, j: nat, slot | i < j && ValidFor(verify, es, i, slot) && ValidFor(verify, es, j, slot) ::
      es[i].createdAt <= es[j].createdAt
  }

  ghost predicate StoresNewest(verify: Event -> bool, cap: nat, es: seq<Event>) {
    forall e, slot | e in Run(verify, cap, es) && SlotOf(e) == Some(slot) :: NewestFor(verify, es, e, slot)
  }

  /** The documented rule, "supersedes older", holds throughout a run exactly if
      the events of each slot arrive in order of their `created_at`. */
  lemma NewestWinsIffInOrder(verify: Event -> bool, cap: nat, es: seq<Event>)
    requires cap >= 1
    ensures (forall n | 0 <= n <= |es| :: StoresNewest(verify, cap, es[..n])) <==> InOrder(verify, es)
  {
    hide SlotOf, Run, Written;
    if forall n | 0 <= n <= |es| :: StoresNewest(verify, cap, es[..n]) {
      forall i: nat, j: nat, slot | i < j && ValidFor(verify, es, i, slot) && ValidFor(verify, es, j, slot)
        ensures es[i].createdAt <= es[j].createdAt
      {
        JustStored(verify, cap, es, j);
        assert StoresNewest(verify, cap, es[..j + 1]);
        assert ValidFor(verify, es[..j + 1], i, slot);
      }
    }
    if InOrder(verify, es) {
      forall n | 0 <= n <= |es| ensures StoresNewest(verify, cap, es[..n]) {
        InOrderStoresNewest(verify, cap, es, n);
      }
    }
  }

  lemma JustStored(verify: Event -> bool, cap: nat, es: seq<Event>, j: nat)
    requires j < |es| && verify(es[j]) && SlotOf(es[j]).Some?
    ensures es[j] in Run(verify, cap, es[..j + 1])
  {
    hide SlotOf, Written;
    SlotsAreNotEphemeral(es[j]);
    assert es[..j + 1][..j] == es[..j];
    WrittenHasTheNewEvent(Run(verify, cap, es[..j]), cap, es[j]);
  }

  lemma InOrderStoresNewest(verify: Event -> bool, cap: nat, es: seq<Event>, n: nat)
    requires cap >= 1 && n <= |es| && InOrder(verify, es)
    ensures StoresNewest(verify, cap, es[..n])
  {
    hide SlotOf, Run;
    var prefix := es[..n];
    forall e, slot | e in Run(verify, cap, prefix) && SlotOf(e) == Some(slot)
      ensures NewestFor(verify, prefix, e, slot)
    {
      StoredIsLast(verify, cap, prefix, e, slot);
      var k: nat :| IsLastFor(verify, prefix, k, slot);
      forall m: nat | ValidFor(verify, prefix, m, slot) ensures prefix[m].createdAt <= e.createdAt {
        assert ValidFor(verify, es, m, slot) && ValidFor(verify, es, k, slot);
        assert m <= k;
      }
    }
  }

  predicate IsRegular(kind: nat) {
    !IsEphemeral(kind) && !IsReplaceable(kind) && !IsParameterised(kind)
  }

  /** The last `cap` events, or all of them. */
  function Window(es: seq<Event>, cap: nat): seq<Event> {
    if |es| <= cap then es else es[|es| - cap..]
  }

  lemma WindowSlides(es: seq<Event>, cap: nat, e: Event)
    requires cap >= 1
    ensures Pushed(Window(es, cap), cap, e) == Window(es + [e], cap)
  {
  }

  /** With regular kinds only, the store is a sliding window over the run. */
  lemma {:induction false} RegularRun(verify: Event -> bool, cap: nat, es: seq<Event>)
    requires cap >= 1 && forall i | 0 <= i < |es| :: verify(es[i]) && IsRegular(es[i].kind)
    ensures Run(verify, cap, es) == Window(es, cap)
    decreases |es|
  {
    hide Window, Pushed;
    if es == [] {
      assert Window(es, cap) == es by { EmptyWindow(es, cap); }
    } else {
      var prefix, e := es[..|es| - 1], es[|es| - 1];
      RegularRun(verify, cap, prefix);
      assert es == prefix + [e];
      WindowSlides(prefix, cap, e);
    }
  }

  lemma EmptyWindow(es: seq<Event>, cap: nat)
    requires es == []
    ensures Window(es, cap) == es
  {
  }

  // ---------------------------------------------------------------- history

  function Ids(s: seq<Event>): set<string> {
    set e | e in s :: e.id
  }

  function Matching(f: Filter, s: seq<Event>): seq<Event> {
    if s == [] then []
    else
      var rest := Matching(f, s[..|s| - 1]);
      if Matches(f, s[|s| - 1]) then rest + [s[|s| - 1]] else rest
  }

  function LastN(s: seq<Event>, limit: Option<nat>): seq<Event> {
    if limit.Some? && |s| > limit.value then s[|s| - limit.value..] else s
  }

  /** What one filter contributes: its last `limit` matches, oldest first. */
  function Selected(f: Filter, s: seq<Event>): seq<Event> {
    LastN(Matching(f, s), f.limit)
  }

  /** Append the events whose id has not been seen yet. */
  function Merged(acc: seq<Event>, evs: seq<Event>): seq<Event> {
    if evs == [] then acc
    else
      var before := Merged(acc, evs[..|evs| - 1]);
      var e := evs[|evs| - 1];
      if e.id in Ids(before) then before else before + [e]
  }

  function History(s: seq<Event>, fs: seq<Filter>): seq<Event> {
    if fs == [] then []
    else Merged(History(s, fs[..|fs| - 1]), Selected(fs[|fs| - 1], s))
  }

  method FilterEvents(f: Filter, s: seq<Event>) returns (r: seq<Event>)
    ensures r == Matching(f, s)
  {
    hide Matches;
    r := [];
    for i := 0 to |s|
      invariant r == Matching(f, s[..i])
    {
      assert s[..i + 1][..i] == s[..i];
      if Matches(f, s[i]) {
        r := r + [s[i]];
      }
    }
    assert s[..|s|] == s;
  }

  /** `history`: one pass per filter, with a set of the ids already emitted. */
  method ComputeHistory(s: seq<Event>, fs: seq<Filter>) returns (acc: seq<Event>)
    ensures acc == History(s, fs)
  {
    hide Matching;
    acc := [];
    var seen: set<string> := {};
    for k := 0 to |fs|
      invariant acc == History(s, fs[..k]) && seen == Ids(acc)
    {
      var matched := FilterEvents(fs[k], s);
      matched := LastN(matched, fs[k].limit);
      ghost var start := acc;
      for i := 0 to |matched|
        invariant acc == Merged(start, matched[..i]) && seen == Ids(acc)
      {
        assert matched[..i + 1][..i] == matched[..i];
        if matched[i].id !in seen {
          assert Ids(acc + [matched[i]]) == Ids(acc) + {matched[i].id};
          seen := seen + {matched[i].id};
          acc := acc + [matched[i]];
        }
      }
      assert matched[..|matched|] == matched;
      assert fs[..k + 1][..k] == fs[..k];
    }
    assert fs[..|fs|] == fs;
  }

  ghost predicate DistinctIds(s: seq<Event>) {
    forall i, j | 0 <= i < j < |s| :: s[i].id != s[j].id
  }

  lemma IdInIds(s: seq<Event>, e: Event)
    requires e in s
    ensures e.id in Ids(s)
  {
  }

  lemma IdsAppend(s: seq<Event>, e: Event)
    ensures Ids(s + [e]) == Ids(s) + {e.id}
    ensures DistinctIds(s) && e.id !in Ids(s) ==> DistinctIds(s + [e])
  {
    if e.id !in Ids(s) {
      forall o | o in s ensures o.id != e.id {
        IdInIds(s, o);
      }
    }
  }

  lemma {:induction false} MergedExact(acc: seq<Event>, evs: seq<Event>)
    requires DistinctIds(acc)
    ensures DistinctIds(Merged(acc, evs)) && Ids(Merged(acc, evs)) == Ids(acc) + Ids(evs)
    decreases |evs|
  {
    if evs == [] {
      assert Ids(evs) == {};
    } else {
      var init, e := evs[..|evs| - 1], evs[|evs| - 1];
      hide Ids, DistinctIds;
      MergedExact(acc, init);
      assert evs == init + [e];
      IdsAppend(init, e);
      IdsAppend(Merged(acc, init), e);
    }
  }

  // ---------------------------------------------------- history by position

  /** How many stored events match from position `i` on. */
  function MatchesFrom(f: Filter, s: seq<Event>, i: nat): nat
    requires i <= |s|
    decreases |s| - i
  {
    if i == |s| then 0 else (if Matches(f, s[i]) then 1 else 0) + MatchesFrom(f, s, i + 1)
  }

  /** The event at `i` matches, and fewer than `limit` later ones do. */
  predicate Chosen(f: Filter, s: seq<Event>, i: nat) {
    i < |s| && Matches(f, s[i]) && (f.limit.Some? ==> MatchesFrom(f, s, i + 1) < f.limit.value)
  }

  ghost predicate Ascending(ps: seq<nat>) {
    forall i, j | 0 <= i < j < |ps| :: ps[i] < ps[j]
  }

  ghost predicate Within(ps: seq<nat>, n: nat) {
    forall i | 0 <= i < |ps| :: ps[i] < n
  }

  /** The events at some positions. */
  function At(s: seq<Event>, ps: seq<nat>): (r: seq<Event>)
    requires Within(ps, |s|)
    ensures |r| == |ps| && forall i | 0 <= i < |ps| :: r[i] == s[ps[i]]
  {
    seq(|ps|, i requires 0 <= i < |ps| => s[ps[i]])
  }

  lemma {:induction false} MatchesFromPrefix(f: Filter, s: seq<Event>, e: Event, i: nat)
    requires i <= |s|
    ensures MatchesFrom(f, s + [e], i) == MatchesFrom(f, s, i) + if Matches(f, e) then 1 else 0
    decreases |s| - i
  {
    hide Matches;
    if i < |s| {
      MatchesFromPrefix(f, s, e, i + 1);
    } else {
      assert MatchesFrom(f, s + [e], |s| + 1) == 0;
    }
  }

  /** Exactly the positions that match. */
  ghost predicate AllMatches(f: Filter, s: seq<Event>, ps: seq<nat>) {
    forall i: nat :: i in ps <==> i < |s| && Matches(f, s[i])
  }

  /** How many matches follow each position. */
  ghost predicate Ranked(f: Filter, s: seq<Event>, ps: seq<nat>) {
    forall k | 0 <= k < |ps| :: ps[k] < |s| && MatchesFrom(f, s, ps[k] + 1) == |ps| - 1 - k
  }

  /** All matches, with how many follow each. */
  lemma {:induction false} MatchingByPosition(f: Filter, s: seq<Event>) returns (ps: seq<nat>)
    ensures Ascending(ps) && Within(ps, |s|) && Matching(f, s) == At(s, ps)
    ensures AllMatches(f, s, ps) && Ranked(f, s, ps)
    decreases |s|
  {
    hide *;
    if s == [] {
      ps := [];
      NoPositions(s);
      NothingMatches(f, s);
    } else {
      var init, e := s[..|s| - 1], s[|s| - 1];
      var before := MatchingByPosition(f, init);
      assert s == init + [e];
      MatchingStep(f, init, e);
      NextPosition(init, e, before);
      if Matches(f, e) {
        ps := before + [|init|];
      } else {
        ps := before;
      }
      CountsAppend(f, init, e, before, ps);
      PositionsMatch(f, init, e, before, ps);
    }
  }

  lemma NothingMatches(f: Filter, s: seq<Event>)
    requires s == []
    ensures Matching(f, s) == [] && AllMatches(f, s, []) && Ranked(f, s, [])
  {
  }

  lemma MatchingStep(f: Filter, s: seq<Event>, e: Event)
    ensures Matching(f, s + [e]) == if Matches(f, e) then Matching(f, s) + [e] else Matching(f, s)
  {
    hide Matches;
    assert (s + [e])[..|s|] == s;
  }

  lemma PositionsMatch(f: Filter, s: seq<Event>, e: Event, before: seq<nat>, ps: seq<nat>)
    requires AllMatches(f, s, before) && ps == if Matches(f, e) then before + [|s|] else before
    ensures AllMatches(f, s + [e], ps)
  {
    hide Matches;
    forall i: nat ensures i in ps <==> i < |s| + 1 && Matches(f, (s + [e])[i]) {
      assert i < |s| ==> (s + [e])[i] == s[i];
      assert i in ps <==> i in before || (i == |s| && Matches(f, e));
    }
  }

  lemma NoPositions(s: seq<Event>)
    ensures Ascending([]) && Within([], |s|) && At(s, []) == []
  {
  }

  /** One more event, and its position if wanted. */
  lemma NextPosition(s: seq<Event>, e: Event, ps: seq<nat>)
    requires Ascending(ps) && Within(ps, |s|)
    ensures Within(ps, |s| + 1) && At(s + [e], ps) == At(s, ps)
    ensures Ascending(ps + [|s|]) && Within(ps + [|s|], |s| + 1) && At(s + [e], ps + [|s|]) == At(s, ps) + [e]
    ensures forall i: nat :: i in ps + [|s|] <==> i in ps || i == |s|
    ensures forall i: nat | i in ps :: i < |s|
  {
  }

  lemma CountsAppend(f: Filter, s: seq<Event>, e: Event, before: seq<nat>, ps: seq<nat>)
    requires Ranked(f, s, before) && ps == if Matches(f, e) then before + [|s|] else before
    ensures Ranked(f, s + [e], ps)
  {
    hide Matches, MatchesFrom;
    NoneFromEnd(f, s + [e]);
    forall k | 0 <= k < |ps| ensures ps[k] < |s| + 1 && MatchesFrom(f, s + [e], ps[k] + 1) == |ps| - 1 - k {
      if k < |before| {
        MatchesFromPrefix(f, s, e, before[k] + 1);
      }
    }
  }

  lemma NoneFromEnd(f: Filter, s: seq<Event>)
    ensures MatchesFrom(f, s, |s|) == 0
  {
  }

  /** What one filter selects: exactly the chosen positions, in store order. */
  lemma SelectedByPosition(f: Filter, s: seq<Event>) returns (ps: seq<nat>)
    ensures Ascending(ps) && Within(ps, |s|) && Selected(f, s) == At(s, ps)
    ensures forall i: nat :: i in ps <==> Chosen(f, s, i)
  {
    hide *;
    var all := MatchingByPosition(f, s);
    var skip := Skipped(f, |all|);
    ps := all[skip..];
    SuffixPositions(s, all, skip);
    SelectedIsSuffix(f, s);
    forall i: nat ensures i in ps <==> Chosen(f, s, i) {
      MatchedPositions(f, s, all, i);
      if i in all {
        var k :| 0 <= k < |all| && all[k] == i;
        RankOf(f, s, all, k);
        ChosenByRank(f, s, i, |all|, k);
      } else {
        NotChosen(f, s, i);
      }
    }
  }

  /** How many of `n` matches a limit cuts off. */
  function Skipped(f: Filter, n: nat): (r: nat)
    ensures r <= n
  {
    if f.limit.Some? && n > f.limit.value then n - f.limit.value else 0
  }

  lemma SelectedIsSuffix(f: Filter, s: seq<Event>)
    ensures Selected(f, s) == Matching(f, s)[Skipped(f, |Matching(f, s)|)..]
  {
    hide Matching;
  }

  lemma SuffixPositions(s: seq<Event>, all: seq<nat>, skip: nat)
    requires skip <= |all| && Ascending(all) && Within(all, |s|)
    ensures Ascending(all[skip..]) && Within(all[skip..], |s|) && At(s, all[skip..]) == At(s, all)[skip..]
    ensures forall k | 0 <= k < |all| :: all[k] in all[skip..] <==> k >= skip
    ensures forall i: nat | i in all[skip..] :: i in all
  {
    forall k | 0 <= k < |all| ensures all[k] in all[skip..] <==> k >= skip {
      if k >= skip {
        assert all[skip..][k - skip] == all[k];
      }
    }
  }

  lemma MatchedPositions(f: Filter, s: seq<Event>, ps: seq<nat>, i: nat)
    requires AllMatches(f, s, ps)
    ensures i in ps <==> i < |s| && Matches(f, s[i])
  {
    hide Matches;
  }

  lemma RankOf(f: Filter, s: seq<Event>, ps: seq<nat>, k: nat)
    requires Ranked(f, s, ps) && k < |ps|
    ensures ps[k] < |s| && MatchesFrom(f, s, ps[k] + 1) == |ps| - 1 - k
  {
    hide MatchesFrom;
  }

  lemma ChosenByRank(f: Filter, s: seq<Event>, i: nat, n: nat, k: nat)
    requires i < |s| && Matches(f, s[i]) && k < n && MatchesFrom(f, s, i + 1) == n - 1 - k
    ensures Chosen(f, s, i) <==> k >= Skipped(f, n)
  {
    hide Matches, MatchesFrom;
  }

  lemma NotChosen(f: Filter, s: seq<Event>, i: nat)
    requires !(i < |s| && Matches(f, s[i]))
    ensures !Chosen(f, s, i)
  {
    hide Matches, MatchesFrom;
  }

  /** A filter and a position; filters come first. */
  datatype Pick = Pick(filter: nat, at: nat)

  predicate Before(a: Pick, b: Pick) {
    a.filter < b.filter || (a.filter == b.filter && a.at < b.at)
  }

  ghost predicate InOrderOf(cs: seq<Pick>) {
    forall i, j | 0 <= i < j < |cs| :: Before(cs[i], cs[j])
  }

  /** The filter selects the position. */
  predicate Picks(s: seq<Event>, fs: seq<Filter>, c: Pick) {
    c.filter < |fs| && Chosen(fs[c.filter], s, c.at)
  }

  function EventsAt(s: seq<Event>, cs: seq<Pick>): (r: seq<Event>)
    requires forall i | 0 <= i < |cs| :: cs[i].at < |s|
    ensures |r| == |cs| && forall i | 0 <= i < |cs| :: r[i] == s[cs[i].at]
  {
    seq(|cs|, i requires 0 <= i < |cs| => s[cs[i].at])
  }

  lemma {:induction false} MergedConcat(acc: seq<Event>, a: seq<Event>, b: seq<Event>)
    ensures Merged(Merged(acc, a), b) == Merged(acc, a + b)
    decreases |b|
  {
    hide Ids;
    if b == [] {
      assert a + b == a;
    } else {
      assert (a + b)[..|a + b| - 1] == a + b[..|b| - 1];
      MergedConcat(acc, a, b[..|b| - 1]);
    }
  }

  /** All candidates in order; the history merges their events. */
  lemma {:induction false} HistoryCandidates(s: seq<Event>, fs: seq<Filter>) returns (cs: seq<Pick>)
    ensures InOrderOf(cs) && forall c: Pick :: c in cs <==> Picks(s, fs, c)
    ensures (forall i | 0 <= i < |cs| :: cs[i].at < |s|) && History(s, fs) == Merged([], EventsAt(s, cs))
    decreases |fs|
  {
    hide Chosen, Selected, Ids;
    if fs == [] {
      cs := [];
    } else {
      var n := |fs| - 1;
      var init := fs[..n];
      var before := HistoryCandidates(s, init);
      var ps := SelectedByPosition(fs[n], s);
      var here: seq<Pick> := seq(|ps|, i requires 0 <= i < |ps| => Pick(n, ps[i]));
      cs := before + here;
      forall c: Pick ensures c in cs <==> Picks(s, fs, c) {
        CandidateStep(s, fs, before, ps, here, c);
      }
      forall i, j | 0 <= i < j < |cs| ensures Before(cs[i], cs[j]) {
        if i < |before| <= j {
          assert before[i] in before && Picks(s, init, before[i]);
        }
      }
      forall i | 0 <= i < |cs| ensures cs[i].at < |s| {
        if i < |before| {
          assert before[i] in before;
        }
      }
      assert EventsAt(s, cs) == EventsAt(s, before) + At(s, ps);
      MergedConcat([], EventsAt(s, before), At(s, ps));
    }
  }

  lemma CandidateStep(s: seq<Event>, fs: seq<Filter>, before: seq<Pick>, ps: seq<nat>, here: seq<Pick>, c: Pick)
    requires fs != [] && (c in before <==> Picks(s, fs[..|fs| - 1], c))
    requires c.at in ps <==> Chosen(fs[|fs| - 1], s, c.at)
    requires |here| == |ps| && forall i | 0 <= i < |ps| :: here[i] == Pick(|fs| - 1, ps[i])
    ensures c in before + here <==> Picks(s, fs, c)
  {
    hide Chosen;
    if c in here {
      var i :| 0 <= i < |here| && here[i] == c;
      assert c.at == ps[i];
    }
    if c.filter == |fs| - 1 && c.at in ps {
      var i :| 0 <= i < |ps| && ps[i] == c.at;
      assert here[i] == c;
    }
  }

  /** No earlier event has the id of event `j`. */
  predicate IsFirst(evs: seq<Event>, j: nat) {
    j < |evs| && forall i | 0 <= i < j :: evs[i].id != evs[j].id
  }

  lemma FirstAppend(evs: seq<Event>, e: Event, j: nat)
    ensures IsFirst(evs + [e], j) <==> IsFirst(evs, j) || (j == |evs| && e.id !in Ids(evs))
  {
    SeenIds(evs, e.id);
    hide Ids;
    var all := evs + [e];
    assert forall i | 0 <= i < |evs| :: all[i] == evs[i];
    if j == |evs| {
      assert IsFirst(all, j) <==> forall i | 0 <= i < |evs| :: evs[i].id != e.id;
    }
  }

  /** Merging keeps the first event of each id, in order. */
  lemma {:induction false} MergedFirsts(evs: seq<Event>) returns (js: seq<nat>)
    ensures Ascending(js) && Within(js, |evs|) && Merged([], evs) == At(evs, js)
    ensures forall j: nat :: j in js <==> IsFirst(evs, j)
    decreases |evs|
  {
    hide Ids, At, Ascending, Within, IsFirst;
    if evs == [] {
      js := [];
      NoPositions(evs);
      assert forall j: nat :: !IsFirst(evs, j) by { NoneIsFirst(evs); }
    } else {
      var init, e := evs[..|evs| - 1], evs[|evs| - 1];
      var before := MergedFirsts(init);
      MergedExact([], init) by { NoneRepeat(); }
      SeenIds(init, e.id);
      assert evs == init + [e];
      NextPosition(init, e, before);
      forall j: nat ensures IsFirst(evs, j) <==> IsFirst(init, j) || (j == |init| && e.id !in Ids(init)) {
        FirstAppend(init, e, j);
      }
      assert Ids(Merged([], init)) == Ids(init);
      if e.id in Ids(Merged([], init)) {
        js := before;
        assert Merged([], evs) == Merged([], init);
      } else {
        js := before + [|init|];
        assert Merged([], evs) == Merged([], init) + [e];
      }
    }
  }

  lemma NoneIsFirst(evs: seq<Event>)
    requires evs == []
    ensures forall j: nat :: !IsFirst(evs, j)
  {
  }

  lemma SeenIds(evs: seq<Event>, id: string)
    ensures Ids([]) + Ids(evs) == Ids(evs)
    ensures id in Ids(evs) <==> exists i :: 0 <= i < |evs| && evs[i].id == id
  {
    if id in Ids(evs) {
      var e :| e in evs && e.id == id;
    }
    if i :| 0 <= i < |evs| && evs[i].id == id {
      assert evs[i] in evs;
    }
  }

  /** The answer to a request, by positions in the store alone: for each filter
      in turn, and in store order, the matches that fewer than `limit` later
      matches follow, each id once, where it is first met. */
  lemma HistoryByPosition(s: seq<Event>, fs: seq<Filter>) returns (cs: seq<Pick>)
    ensures InOrderOf(cs) && (forall i | 0 <= i < |cs| :: cs[i].at < |s|) && History(s, fs) == EventsAt(s, cs)
    ensures forall c: Pick :: c in cs <==>
              Picks(s, fs, c) && forall b: Pick | Picks(s, fs, b) && Before(b, c) :: s[b.at].id != s[c.at].id
  {
    hide History, Chosen, Merged;
    var all := HistoryCandidates(s, fs);
    var js := MergedFirsts(EventsAt(s, all));
    cs := seq(|js|, i requires 0 <= i < |js| => all[js[i]]);
    forall c: Pick ensures c in cs <==>
              Picks(s, fs, c) && forall b: Pick | Picks(s, fs, b) && Before(b, c) :: s[b.at].id != s[c.at].id
    {
      FirstPick(s, fs, all, js, cs, c);
    }
    assert EventsAt(s, cs) == At(EventsAt(s, all), js);
  }

  lemma FirstPick(s: seq<Event>, fs: seq<Filter>, all: seq<Pick>, js: seq<nat>, cs: seq<Pick>, c: Pick)
    requires InOrderOf(all) && (forall c: Pick :: c in all <==> Picks(s, fs, c)) && forall i | 0 <= i < |all| :: all[i].at < |s|
    requires Within(js, |all|) && |cs| == |js| && forall i | 0 <= i < |js| :: cs[i] == all[js[i]]
    requires forall j: nat :: j in js <==> j < |all| && forall i | 0 <= i < j :: s[all[i].at].id != s[all[j].at].id
    ensures c in cs <==> Picks(s, fs, c) && forall b: Pick | Picks(s, fs, b) && Before(b, c) :: s[b.at].id != s[c.at].id
  {
    hide Picks, InOrderOf, Before;
    if c in cs {
      var i :| 0 <= i < |cs| && cs[i] == c;
      assert all[js[i]] in all;
    }
    if c in all {
      var j: nat :| j < |all| && all[j] == c;
      OrderIsIndex(all, j);
      SamePlace(all, js, cs, j);
    }
  }

  /** In an ordered list, what comes before entry `j` is what stands before it. */
  lemma OrderIsIndex(all: seq<Pick>, j: nat)
    requires InOrderOf(all) && j < |all|
    ensures forall i | 0 <= i < |all| :: Before(all[i], all[j]) <==> i < j
    ensures forall i | 0 <= i < |all| && all[i] == all[j] :: i == j
  {
  }

  lemma SamePlace(all: seq<Pick>, js: seq<nat>, cs: seq<Pick>, j: nat)
    requires j < |all| && Within(js, |all|) && |cs| == |js| && forall i | 0 <= i < |js| :: cs[i] == all[js[i]]
    requires forall i | 0 <= i < |all| && all[i] == all[j] :: i == j
    ensures all[j] in cs <==> j in js
  {
    if all[j] in cs {
      var i :| 0 <= i < |cs| && cs[i] == all[j];
      assert js[i] == j;
    }
    if j in js {
      var i :| 0 <= i < |js| && js[i] == j;
      assert cs[i] == all[j];
    }
  }

  // ------------------------------------------------------------ consequences

  /** Some filter selects an event of this id. */
  ghost predicate Wanted(s: seq<Event>, fs: seq<Filter>, id: string) {
    exists c: Pick :: Picks(s, fs, c) && s[c.at].id == id
  }

  /** History is exact: no id twice, the ids are exactly those that some filter
      selects, and every event is a stored event that matches some filter. */
  lemma HistoryExact(s: seq<Event>, fs: seq<Filter>)
    ensures DistinctIds(History(s, fs))
    ensures forall id :: id in Ids(History(s, fs)) <==> Wanted(s, fs, id)
    ensures forall e | e in History(s, fs) :: e in s && MatchesAny(fs, e)
  {
    hide History, Matches, MatchesFrom, Ids, DistinctIds, Merged;
    var all := HistoryCandidates(s, fs);
    var evs := EventsAt(s, all);
    MergedExact([], evs) by { assert DistinctIds([]) by { NoneRepeat(); } }
    forall id ensures id in Ids(History(s, fs)) <==> Wanted(s, fs, id) {
      SeenIds(evs, id);
      if i :| 0 <= i < |evs| && evs[i].id == id {
        assert all[i] in all;
      }
      if c: Pick :| Picks(s, fs, c) && s[c.at].id == id {
        var i :| 0 <= i < |all| && all[i] == c;
        assert evs[i].id == id;
      }
    }
    var cs := HistoryByPosition(s, fs);
    forall e | e in History(s, fs) ensures e in s && MatchesAny(fs, e) {
      var i :| 0 <= i < |cs| && s[cs[i].at] == e;
      assert cs[i] in cs && Matches(fs[cs[i].filter], e);
    }
  }

  lemma NoneRepeat()
    ensures DistinctIds([])
  {
  }

  /** A stored event that matches a filter without a limit is never left out. */
  lemma UnlimitedIsComplete(s: seq<Event>, fs: seq<Filter>, k: nat, e: Event)
    requires k < |fs| && fs[k].limit.None? && e in s && Matches(fs[k], e)
    ensures e.id in Ids(History(s, fs))
  {
    hide Matches, History, MatchesFrom, Ids;
    HistoryExact(s, fs);
    var i: nat :| i < |s| && s[i] == e;
    assert Picks(s, fs, Pick(k, i));
  }
}
