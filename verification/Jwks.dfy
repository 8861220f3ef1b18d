/** The identity provider's signing keys: rotation, pruning and publication. */
module Jwks {

  datatype Retired = Retired(key: string, since: nat)

  datatype Keys = Keys(active: string, retired: seq<Retired>)

  function Rotated(k: Keys, fresh_: string, now: nat): Keys {
    Keys(fresh_, k.retired + [Retired(k.active, now)])
  }

  /** Time since `since`; a clock that went backwards counts as no time. */
  function Elapsed(since: nat, now: nat): nat {
    if since <= now then now - since else 0
  }

  function Kept(rs: seq<Retired>, retention: nat, now: nat): seq<Retired> {
    if rs == [] then []
    else
      var init := Kept(rs[..|rs| - 1], retention, now);
      var r := rs[|rs| - 1];
      if Elapsed(r.since, now) < retention then init + [r] else init
  }

  predicate Published(k: Keys, key: string) {
    key == k.active || exists i | 0 <= i < |k.retired| :: k.retired[i].key == key
  }

  // ------------------------------------------------------------- the object

  class KeyRing {
    var active: string
    var retired: seq<Retired>
    const retention: nat

    ghost function Contents(): Keys
      reads this
    {
      Keys(active, retired)
    }

    constructor (active: string, retention: nat)
      ensures Contents() == Keys(active, []) && this.retention == retention
    {
      this.active, retired, this.retention := active, [], retention;
    }

    /** `rotate` and `insert_signing_key`: the old key is retired, not dropped. */
    method Rotate(key: string, now: nat)
      modifies this
      ensures Contents() == Rotated(old(Contents()), key, now)
    {
      var old_ := active;
      active := key;
      retired := retired + [Retired(old_, now)];
    }

    method PruneExpired(now: nat)
      modifies this
      ensures Contents() == Keys(old(active), Kept(old(retired), retention, now))
    {
      var kept: seq<Retired> := [];
      for i := 0 to |retired|
        invariant Contents() == old(Contents()) && kept == Kept(retired[..i], retention, now)
      {
        assert retired[..i + 1][..i] == retired[..i];
        if Elapsed(retired[i].since, now) < retention {
          kept := kept + [retired[i]];
        }
      }
      assert retired[..|retired|] == retired;
      retired := kept;
    }

    /** `public_document` lists exactly the published keys, the active one first. */
    method PublicDocument() returns (keys: seq<string>)
      ensures keys != [] && keys[0] == active
      ensures forall key :: key in keys <==> Published(Contents(), key)
    {
      keys := [active];
      for i := 0 to |retired|
        invariant |keys| == i + 1 && keys[0] == active
        invariant forall k | 0 <= k < i :: keys[k + 1] == retired[k].key
      {
        keys := keys + [retired[i].key];
      }
      forall key ensures key in keys <==> Published(Contents(), key) {
        if key in keys {
          var j :| 0 <= j < |keys| && keys[j] == key;
          if j > 0 {
            assert retired[j - 1].key == key;
          }
        }
        if Published(Contents(), key) && key != active {
          var j :| 0 <= j < |retired| && retired[j].key == key;
          assert keys[j + 1] == key;
        }
      }
    }
  }

  // ------------------------------------------------------- every interleaving

  datatype Token = Token(key: string, expires: nat)

  datatype State = State(keys: Keys, now: nat, tokens: set<Token>)

  datatype Step = Issue(ttl: nat) | Rotate(key: string) | Prune | Tick(seconds: nat)

  function Apply(retention: nat, s: State, step: Step): State {
    match step
    case Issue(ttl) => s.(tokens := s.tokens + {Token(s.keys.active, s.now + ttl)})
    case Rotate(key) => s.(keys := Rotated(s.keys, key, s.now))
    case Prune => s.(keys := Keys(s.keys.active, Kept(s.keys.retired, retention, s.now)))
    case Tick(seconds) => s.(now := s.now + seconds)
  }

  function Run(retention: nat, s: State, steps: seq<Step>): State
    decreases |steps|
  {
    if steps == [] then s
    else Run(retention, Apply(retention, s, steps[0]), steps[1..])
  }

  function Start(active: string, now: nat): State {
    State(Keys(active, []), now, {})
  }

  /** A relying party can check every token that has not expired. */
  ghost predicate Verifiable(s: State) {
    forall t | t in s.tokens && s.now < t.expires :: Published(s.keys, t.key)
  }

  /** The signing key is active, or was retired late enough to outlive the token. */
  ghost predicate Backed(retention: nat, s: State, t: Token) {
    || s.keys.active == t.key
    || exists i :: 0 <= i < |s.keys.retired| && s.keys.retired[i].key == t.key
                   && t.expires <= s.keys.retired[i].since + retention
  }

  ghost predicate Inv(retention: nat, s: State) {
    && (forall t | t in s.tokens && s.now < t.expires :: Backed(retention, s, t))
    && (forall t | t in s.tokens :: t.expires <= s.now + retention)
  }

  lemma {:induction false} KeptExact(rs: seq<Retired>, retention: nat, now: nat, r: Retired)
    ensures r in Kept(rs, retention, now) <==> r in rs && Elapsed(r.since, now) < retention
  {
    if rs != [] {
      KeptExact(rs[..|rs| - 1], retention, now, r);
      assert rs == rs[..|rs| - 1] + [rs[|rs| - 1]];
    }
  }

  /** Pruning, in terms of the clock: a key stays exactly until it has been
      retired for the retention time. */
  lemma PrunedExactly(rs: seq<Retired>, retention: nat, now: nat, r: Retired)
    ensures r in Kept(rs, retention, now) <==> r in rs && retention > 0 && now < r.since + retention
  {
    hide Kept;
    KeptExact(rs, retention, now, r);
  }

  /** The keys that stay keep their order. */
  lemma {:induction false} KeptInOrder(a: seq<Retired>, b: seq<Retired>, retention: nat, now: nat)
    ensures Kept(a + b, retention, now) == Kept(a, retention, now) + Kept(b, retention, now)
    decreases |b|
  {
    if b == [] {
      assert a + b == a;
    } else {
      assert (a + b)[..|a + b| - 1] == a + b[..|b| - 1];
      KeptInOrder(a, b[..|b| - 1], retention, now);
    }
  }

  /** Rotation: the new key is active, every key published before still is, and
      no other is. */
  lemma RotatedExactly(k: Keys, fresh_: string, now: nat, key: string)
    ensures Rotated(k, fresh_, now).active == fresh_
    ensures Published(Rotated(k, fresh_, now), key) <==> key == fresh_ || Published(k, key)
  {
    var r := Rotated(k, fresh_, now);
    if Published(k, key) {
      if key == k.active {
        assert r.retired[|k.retired|].key == key;
      } else {
        var i :| 0 <= i < |k.retired| && k.retired[i].key == key;
        assert r.retired[i].key == key;
      }
    }
    if Published(r, key) && key != fresh_ {
      var i :| 0 <= i < |r.retired| && r.retired[i].key == key;
      assert i < |k.retired| ==> k.retired[i].key == key;
    }
  }

  lemma StepKeeps(retention: nat, s: State, step: Step)
    requires Inv(retention, s) && (step.Issue? ==> step.ttl <= retention)
    ensures Inv(retention, Apply(retention, s, step))
  {
    var r := Apply(retention, s, step);
    forall t | t in r.tokens && r.now < t.expires ensures Backed(retention, r, t) {
      if t in s.tokens {
        assert Backed(retention, s, t);
        if s.keys.active == t.key {
          if step.Rotate? {
            var last := |s.keys.retired|;
            assert r.keys.retired[last] == Retired(t.key, s.now);
          }
        } else {
          var i :| 0 <= i < |s.keys.retired| && s.keys.retired[i].key == t.key
                   && t.expires <= s.keys.retired[i].since + retention;
          var entry := s.keys.retired[i];
          if step.Rotate? {
            assert r.keys.retired[i] == entry;
          } else if step.Prune? {
            KeptExact(s.keys.retired, retention, s.now, entry);
            var j :| 0 <= j < |r.keys.retired| && r.keys.retired[j] == entry;
          }
        }
      }
    }
  }

  lemma {:induction false} InvHolds(retention: nat, s: State, steps: seq<Step>)
    requires Inv(retention, s)
    requires forall i | 0 <= i < |steps| && steps[i].Issue? :: steps[i].ttl <= retention
    ensures Inv(retention, Run(retention, s, steps))
    decreases |steps|
  {
    if steps != [] {
      StepKeeps(retention, s, steps[0]);
      assert forall i | 0 <= i < |steps| - 1 :: steps[1..][i] == steps[i + 1];
      InvHolds(retention, Apply(retention, s, steps[0]), steps[1..]);
    }
  }

  /** Rollover safety: if tokens live no longer than retired keys are kept,
      then at every moment of every interleaving of issuing, rotating, pruning
      and waiting, the key of every unexpired token is published. */
  lemma RolloverSafety(retention: nat, active: string, start: nat, steps: seq<Step>)
    requires forall i | 0 <= i < |steps| && steps[i].Issue? :: steps[i].ttl <= retention
    ensures Verifiable(Run(retention, Start(active, start), steps))
  {
    InvHolds(retention, Start(active, start), steps);
  }

  /** And the bound is exact: any longer lifetime can outlive its key. */
  lemma LongerTokensOutliveTheirKey(retention: nat, ttl: nat, active: string, next: string, start: nat)
    requires retention < ttl && active != next
    ensures !Verifiable(Run(retention, Start(active, start), [Issue(ttl), Rotate(next), Tick(retention), Prune]))
  {
    var token := Token(active, start + ttl);
    var issued := State(Keys(active, []), start, {token});
    var rotated := State(Keys(next, [Retired(active, start)]), start, {token});
    var ticked := rotated.(now := start + retention);
    var pruned := ticked.(keys := Keys(next, []));
    assert Apply(retention, Start(active, start), Issue(ttl)) == issued;
    assert Apply(retention, issued, Rotate(next)) == rotated;
    assert Apply(retention, rotated, Tick(retention)) == ticked;
    assert Apply(retention, ticked, Prune) == pruned by {
      var rs := [Retired(active, start)];
      assert rs[..0] == [] && Kept(rs, retention, start + retention) == [];
    }
    hide Apply, Kept;
    var steps := [Issue(ttl), Rotate(next), Tick(retention), Prune];
    assert steps[1..] == [Rotate(next), Tick(retention), Prune];
    assert steps[1..][1..] == [Tick(retention), Prune];
    assert steps[1..][1..][1..] == [Prune];
    assert [Prune][1..] == [];
    assert Run(retention, ticked, [Prune]) == pruned;
    assert Run(retention, rotated, [Tick(retention), Prune]) == pruned;
    assert Run(retention, issued, [Rotate(next), Tick(retention), Prune]) == pruned;
    assert token in pruned.tokens;
  }
}
