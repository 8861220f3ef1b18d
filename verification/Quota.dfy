/** The per-pod byte quota, whose check and whose update are two separate
    atomic operations on one shared counter. */
module Quota {
  import opened Text

  /** 64-bit wrap-around, as `fetch_add` and `fetch_sub` compute. */
  function Wrap(n: int): (r: nat)
    ensures 0 <= n < WORD ==> r == n
    ensures n < 0 <= n + WORD ==> r == n + WORD
    ensures r < WORD
  {
    n % WORD
  }

  /** The comparison of `reserve`, with its saturating addition. */
  predicate Fits(used: nat, size: nat, quota: Option<nat>) {
    quota.Some? ==> (if used + size < WORD then used + size else WORD - 1) <= quota.value
  }

  // ------------------------------------------------------- without overlap

  class QuotaTracker {
    const quota: Option<nat>
    var used: nat

    /** 64-bit values. */
    ghost predicate Valid()
      reads this
    {
      used < WORD && (quota.Some? ==> quota.value < WORD)
    }

    constructor (quota: Option<nat>, initial: nat)
      requires initial < WORD && (quota.Some? ==> quota.value < WORD)
      ensures Valid() && this.quota == quota && used == initial
    {
      this.quota, used := quota, initial;
    }

    /** A reserve that nothing interrupts is granted exactly when the sum
        stays within the quota, and then counted, so use within the quota stays
        within it. Without a quota, or with the largest 64-bit one, nothing is
        refused and the counter can wrap. */
    method Reserve(size: nat) returns (ok: bool)
      requires Valid() && size < WORD
      modifies this
      ensures Valid()
      ensures quota.Some? && quota.value < WORD - 1 ==>
                && ok == (old(used) + size <= quota.value)
                && used == (if ok then old(used) + size else old(used))
                && (old(used) <= quota.value ==> used <= quota.value)
      ensures quota.None? || quota.value == WORD - 1 ==>
                ok && used == (old(used) + size) % WORD
    {
      if !Fits(used, size, quota) {
        return false;
      }
      used := Wrap(used + size);
      ok := true;
    }

    /** Releasing bytes that are accounted for undoes their reservation;
        releasing more wraps around to a huge use. */
    method Release(size: nat)
      requires Valid() && size < WORD
      modifies this
      ensures Valid()
      ensures used == if size <= old(used) then old(used) - size else old(used) - size + WORD
    {
      used := Wrap(used - size);
    }
  }

  // ------------------------------------------------------ every interleaving

  /** The counter, the sizes that passed the check and are not added yet, and
      the bytes reserved and not released. */
  datatype State = State(used: nat, pending: seq<nat>, held: nat)

  datatype Step = Check(size: nat) | Add(i: nat) | Release(size: nat)

  predicate Enabled(s: State, step: Step) {
    match step
    case Check(_) => true
    case Add(i) => i < |s.pending|
    case Release(size) => size <= s.held
  }

  function Apply(quota: nat, s: State, step: Step): State
    requires Enabled(s, step)
  {
    match step
    case Check(size) => if Fits(s.used, size, Some(quota)) then s.(pending := s.pending + [size]) else s
    case Add(i) =>
      State(Wrap(s.used + s.pending[i]), s.pending[..i] + s.pending[i + 1..], s.held + s.pending[i])
    case Release(size) => s.(used := Wrap(s.used - size), held := s.held - size)
  }

  ghost predicate IsRun(quota: nat, steps: seq<Step>, states: seq<State>) {
    && |states| == |steps| + 1
    && states[0].used == states[0].held <= quota && states[0].pending == []
    && forall i | 0 <= i < |steps| ::
         Enabled(states[i], steps[i]) && states[i + 1] == Apply(quota, states[i], steps[i])
  }

  /** At most `k` reserves in flight, each of at most `m` bytes. */
  ghost predicate Bounded(states: seq<State>, k: nat, m: nat) {
    forall i | 0 <= i < |states| :: |states[i].pending| <= k && AtMost(states[i].pending, m)
  }

  predicate AtMost(sizes: seq<nat>, m: nat) {
    forall j | 0 <= j < |sizes| :: sizes[j] <= m
  }

  function Sum(sizes: seq<nat>): nat {
    if sizes == [] then 0 else sizes[0] + Sum(sizes[1..])
  }

  lemma {:induction false} SumAppend(a: seq<nat>, b: seq<nat>)
    ensures Sum(a + b) == Sum(a) + Sum(b)
  {
    if a == [] {
      assert a + b == b;
    } else {
      assert (a + b)[1..] == a[1..] + b;
      SumAppend(a[1..], b);
    }
  }

  lemma SumRemove(a: seq<nat>, i: nat)
    requires i < |a|
    ensures Sum(a) == a[i] + Sum(a[..i] + a[i + 1..])
  {
    SumAppend(a[..i], a[i..]);
    SumAppend(a[..i], a[i + 1..]);
    assert a == a[..i] + a[i..];
  }

  lemma {:induction false} SumAtMost(a: seq<nat>, m: nat)
    requires AtMost(a, m)
    ensures Sum(a) <= |a| * m
  {
    if a != [] {
      SumAtMost(a[1..], m);
      assert |a| * m == m + (|a| - 1) * m;
    }
  }

  /** Overshoot the quota by at most what the other reserves in flight hold. */
  lemma {:induction false} QuotaBound(quota: nat, k: nat, m: nat, steps: seq<Step>, states: seq<State>, n: nat)
    requires IsRun(quota, steps, states) && Bounded(states, k, m) && n < |states|
    requires 1 <= k && quota + (k - 1) * m < WORD - 1
    ensures states[n].used + Sum(states[n].pending) <= quota + (k - 1) * m
    ensures states[n].used == states[n].held
  {
    if n == 0 {
      assert 0 <= (k - 1) * m;
    } else {
      QuotaBound(quota, k, m, steps, states, n - 1);
      assert |states[n].pending| <= k;
      BoundStep(quota, k, m, states[n - 1], steps[n - 1]);
    }
  }

  lemma BoundStep(quota: nat, k: nat, m: nat, s: State, step: Step)
    requires Enabled(s, step) && s.used == s.held
    requires s.used + Sum(s.pending) <= quota + (k - 1) * m < WORD - 1 && 1 <= k
    requires AtMost(s.pending, m) && |Apply(quota, s, step).pending| <= k
    ensures var r := Apply(quota, s, step);
            r.used + Sum(r.pending) <= quota + (k - 1) * m && r.used == r.held
  {
    match step
    case Check(size) =>
      if Fits(s.used, size, Some(quota)) {
        SumAppend(s.pending, [size]);
        assert Sum([size]) == size + Sum([size][1..]) == size;
        SumAtMost(s.pending, m);
        ProductGrows(|s.pending|, k - 1, m);
      }
    case Add(i) => SumRemove(s.pending, i);
    case Release(_) =>
  }

  lemma ProductGrows(a: nat, b: nat, m: nat)
    requires a <= b
    ensures a * m <= b * m
  {
    assert b * m == a * m + (b - a) * m;
    assert 0 <= (b - a) * m;
  }

  // -------------------------------------------------------- and no less

  /** `k` checks of `m` bytes that all read the same counter, then `k` adds. */
  function RaceStates(quota: nat, k: nat, m: nat): seq<State>
    requires m <= quota
  {
    seq(2 * k + 1, i requires 0 <= i < 2 * k + 1 => RaceState(quota, k, m, i))
  }

  function RaceState(quota: nat, k: nat, m: nat, i: nat): State
    requires m <= quota && i <= 2 * k
  {
    var added := if i <= k then 0 else i - k;
    var used := quota - m + added * m;
    State(used, seq(if i <= k then i else 2 * k - i, _ => m), used)
  }

  function RaceSteps(k: nat, m: nat): seq<Step> {
    seq(2 * k, i => if i < k then Check(m) else Add(0))
  }

  lemma RaceStep(quota: nat, k: nat, m: nat, i: nat)
    requires m <= quota && i < 2 * k && quota + (k - 1) * m < WORD - 1
    ensures var s, step := RaceState(quota, k, m, i), RaceSteps(k, m)[i];
            Enabled(s, step) && Apply(quota, s, step) == RaceState(quota, k, m, i + 1)
  {
    var s, r := RaceState(quota, k, m, i), RaceState(quota, k, m, i + 1);
    if i < k {
      ProductGrows(0, k - 1, m);
      assert r.pending == s.pending + [m];
    } else {
      var added := i - k;
      assert (added + 1) * m == added * m + m;
      ProductGrows(added, k - 1, m);
      assert r.pending == s.pending[..0] + s.pending[1..];
    }
  }

  /** The bound is reached, for every quota, every number of overlapping
      reserves and every size up to the quota. */
  lemma {:induction false} BoundIsTight(quota: nat, k: nat, m: nat)
    requires 1 <= k && m <= quota && quota + (k - 1) * m < WORD - 1
    ensures var states := RaceStates(quota, k, m);
            && IsRun(quota, RaceSteps(k, m), states) && Bounded(states, k, m)
            && states[2 * k].used == quota + (k - 1) * m
  {
    var states := RaceStates(quota, k, m);
    assert 0 * m == 0;
    forall i | 0 <= i < 2 * k
      ensures Enabled(states[i], RaceSteps(k, m)[i])
              && states[i + 1] == Apply(quota, states[i], RaceSteps(k, m)[i])
    {
      RaceStep(quota, k, m, i);
    }
    assert k * m == (k - 1) * m + m;
  }

  /** What was reserved can be released, all of it, and leaves the counter as it was. */
  lemma ReserveThenRelease(quota: nat, used: nat, size: nat)
    requires used + size <= quota < WORD - 1
    ensures var s := State(used, [], used);
            var checked := State(used, [size], used);
            var added := State(used + size, [], used + size);
            IsRun(quota, [Check(size), Add(0), Release(size)], [s, checked, added, s])
  {
    assert [] + [size] == [size] && [size][..0] + [size][1..] == [];
  }
}
