/** The ActivityPub inbox: follower and following tables, and the log of
    received activities that makes deliveries idempotent. */
module Inbox {
  import opened Text

  /** The members of an activity document that the handler looks at; `None`
      is a member that is missing or not a string. */
  datatype Activity = Activity(
    id: Option<string>, typ: Option<string>, actor: Option<string>, actorInbox: Option<string>,
    objectType: Option<string>, objectTarget: Option<string>, body: string)

  /** One call: the local actor addressed, the verified sender, the activity and the time. */
  datatype Delivery = Delivery(local: string, sender: string, activity: Activity, now: nat)

  datatype Follower = Follower(inbox: Option<string>, acceptedAt: nat)

  datatype LogRow = LogRow(local: string, activity: Activity, receivedAt: nat)

  /** The tables, keyed by their primary keys. */
  datatype Tables = Tables(
    followers: map<(string, string), Follower>,
    following: map<(string, string), bool>,
    inbox: map<string, LogRow>)

  datatype Outcome =
    | Accepted
    | Duplicate
    | Ignored
    | FollowAccepted(follower: string, inbox: Option<string>)
    | FollowRemoved(follower: string)
    | FollowAcknowledged(target: string)
    | MissingType

  function IdOf(a: Activity): string {
    if a.id.Some? then a.id.value else ""
  }

  /** The activity is typed, has an id, and its id is not in the log yet. */
  predicate IsNew(t: Tables, d: Delivery) {
    d.activity.typ.Some? && IdOf(d.activity) != "" && IdOf(d.activity) !in t.inbox
  }

  function Actor(d: Delivery): string {
    if d.activity.actor.Some? then d.activity.actor.value else d.sender
  }

  function Target(d: Delivery): string {
    if d.activity.objectTarget.Some? then d.activity.objectTarget.value else d.local
  }

  predicate AboutFollow(d: Delivery) {
    d.activity.objectType == Some("Follow")
  }

  /** What a new activity does to the follower and following tables. */
  function Effect(t: Tables, d: Delivery): Tables
    requires d.activity.typ.Some?
  {
    match d.activity.typ.value
    case "Follow" => t.(followers := t.followers[(d.local, Actor(d)) := Follower(d.activity.actorInbox, d.now)])
    case "Undo" => if AboutFollow(d) then t.(followers := t.followers - {(d.local, Actor(d))}) else t
    case "Accept" =>
      if AboutFollow(d) && (d.local, Target(d)) in t.following
      then t.(following := t.following[(d.local, Target(d)) := true])
      else t
    case _ => t
  }

  function Handled(t: Tables, d: Delivery): Tables {
    if IsNew(t, d)
    then Effect(t.(inbox := t.inbox[IdOf(d.activity) := LogRow(d.local, d.activity, d.now)]), d)
    else t
  }

  function OutcomeOf(t: Tables, d: Delivery): Outcome {
    if d.activity.typ.None? then MissingType
    else if !IsNew(t, d) then Duplicate
    else
      match d.activity.typ.value
      case "Follow" => FollowAccepted(Actor(d), d.activity.actorInbox)
      case "Undo" => if AboutFollow(d) then FollowRemoved(Actor(d)) else Ignored
      case "Accept" => if AboutFollow(d) then FollowAcknowledged(Target(d)) else Ignored
      case "Create" => Accepted
      case "Like" => Accepted
      case "Announce" => Accepted
      case "Delete" => Accepted
      case _ => Ignored
  }

  /** The SQLite store behind the handler. */
  class Store {
    var followers: map<(string, string), Follower>
    var following: map<(string, string), bool>
    var inbox: map<string, LogRow>

    ghost function Contents(): Tables
      reads this
    {
      Tables(followers, following, inbox)
    }

    constructor ()
      ensures Contents() == Tables(map[], map[], map[])
    {
      followers, following, inbox := map[], map[], map[];
    }

    /** INSERT OR IGNORE on the activity id; an activity without an id is not recorded. */
    method RecordInbox(local: string, a: Activity, now: nat) returns (isNew: bool)
      modifies this
      ensures isNew == (IdOf(a) != "" && IdOf(a) !in old(inbox))
      ensures Contents() == if isNew then old(Contents()).(inbox := old(inbox)[IdOf(a) := LogRow(local, a, now)])
                            else old(Contents())
    {
      var id := if a.id.Some? then a.id.value else "";
      if id == "" || id in inbox {
        return false;
      }
      inbox := inbox[id := LogRow(local, a, now)];
      isNew := true;
    }

    method AddFollower(local: string, follower: string, inboxUrl: Option<string>, now: nat)
      modifies this
      ensures Contents() == old(Contents()).(followers := old(followers)[(local, follower) := Follower(inboxUrl, now)])
    {
      followers := followers[(local, follower) := Follower(inboxUrl, now)];
    }

    method RemoveFollower(local: string, follower: string)
      modifies this
      ensures Contents() == old(Contents()).(followers := old(followers) - {(local, follower)})
    {
      followers := followers - {(local, follower)};
    }

    method AddFollowing(local: string, target: string)
      modifies this
      ensures Contents() == Requested(old(Contents()), local, target)
    {
      following := following[(local, target) := false];
    }

    /** UPDATE: touches an existing row only. */
    method AcceptFollowing(local: string, target: string)
      modifies this
      ensures Contents() == if (local, target) in old(following)
                            then old(Contents()).(following := old(following)[(local, target) := true])
                            else old(Contents())
    {
      if (local, target) in following {
        following := following[(local, target) := true];
      }
    }

    /** `handle_inbox`: record first, act only on what was new. */
    method HandleInbox(d: Delivery) returns (outcome: Outcome)
      modifies this
      ensures Contents() == Handled(old(Contents()), d) && outcome == OutcomeOf(old(Contents()), d)
    {
      if d.activity.typ.None? {
        return MissingType;
      }
      var isNew := RecordInbox(d.local, d.activity, d.now);
      if !isNew {
        return Duplicate;
      }
      match d.activity.typ.value {
        case "Follow" =>
          AddFollower(d.local, Actor(d), d.activity.actorInbox, d.now);
          return FollowAccepted(Actor(d), d.activity.actorInbox);
        case "Undo" =>
          if AboutFollow(d) {
            RemoveFollower(d.local, Actor(d));
            return FollowRemoved(Actor(d));
          }
          return Ignored;
        case "Accept" =>
          if AboutFollow(d) {
            AcceptFollowing(d.local, Target(d));
            return FollowAcknowledged(Target(d));
          }
          return Ignored;
        case "Create" => return Accepted;
        case "Like" => return Accepted;
        case "Announce" => return Accepted;
        case "Delete" => return Accepted;
        case _ => return Ignored;
      }
    }
  }

  // ------------------------------------------------------------ whole runs

  function Requested(t: Tables, local: string, target: string): Tables {
    t.(following := t.following[(local, target) := false])
  }

  /** Deliveries, interleaved with the pod's own follow requests. */
  datatype Op = Deliver(d: Delivery) | RequestFollow(local: string, target: string)

  function Do(t: Tables, op: Op): Tables {
    match op
    case Deliver(d) => Handled(t, d)
    case RequestFollow(local, target) => Requested(t, local, target)
  }

  function Run(ops: seq<Op>): Tables {
    if ops == [] then Tables(map[], map[], map[]) else Do(Run(ops[..|ops| - 1]), ops[|ops| - 1])
  }

  /** The id an operation claims: that of a typed activity which has one. */
  function Claims(op: Op): Option<string> {
    if op.Deliver? && op.d.activity.typ.Some? && IdOf(op.d.activity) != "" then Some(IdOf(op.d.activity)) else None
  }

  function Claimed(ops: seq<Op>): set<string> {
    set i | 0 <= i < |ops| && Claims(ops[i]).Some? :: Claims(ops[i]).value
  }

  /** Only the first delivery of each id, and every follow request. */
  function Firsts(ops: seq<Op>): seq<Op> {
    if ops == [] then []
    else
      var init := Firsts(ops[..|ops| - 1]);
      var op := ops[|ops| - 1];
      if op.RequestFollow? || (Claims(op).Some? && Claims(op).value !in Claimed(ops[..|ops| - 1]))
      then init + [op] else init
  }

  lemma ClaimedAppend(ops: seq<Op>, op: Op)
    ensures Claimed(ops + [op]) == Claimed(ops) + (if Claims(op).Some? then {Claims(op).value} else {})
  {
    hide Claims;
    var all := ops + [op];
    forall id | id in Claimed(ops) ensures id in Claimed(all) {
      var i :| 0 <= i < |ops| && Claims(ops[i]) == Some(id);
      assert all[i] == ops[i];
    }
    if Claims(op).Some? {
      assert all[|ops|] == op;
    }
  }

  lemma LogStep(t: Tables, op: Op)
    ensures Do(t, op).inbox.Keys == t.inbox.Keys + (if Claims(op).Some? then {Claims(op).value} else {})
  {
  }

  /** The log holds exactly the ids claimed so far. */
  lemma {:induction false} LogIsClaims(ops: seq<Op>)
    ensures Run(ops).inbox.Keys == Claimed(ops)
  {
    if ops != [] {
      var init, op := ops[..|ops| - 1], ops[|ops| - 1];
      hide Do, Claims, Claimed;
      LogIsClaims(init);
      LogStep(Run(init), op);
      ClaimedAppend(init, op);
      assert init + [op] == ops;
    }
  }

  /** Replay immunity: followers, followings and the log, times included, are
      those of the run in which every repeated delivery is left out. */
  lemma {:induction false} ReplayImmunity(ops: seq<Op>)
    ensures Run(ops) == Run(Firsts(ops))
  {
    if ops != [] {
      var init, op := ops[..|ops| - 1], ops[|ops| - 1];
      ReplayImmunity(init);
      LogIsClaims(init);
      hide Effect;
      assert (Firsts(init) + [op])[..|Firsts(init)|] == Firsts(init);
    }
  }

  /** In particular a delivery of an id seen before, whatever it now contains
      and whatever happened since, changes nothing. */
  lemma {:induction false} ReplayChangesNothing(ops: seq<Op>, k: nat, d: Delivery)
    requires k < |ops| && ops[k].Deliver? && ops[k].d.activity.typ.Some?
    requires IdOf(ops[k].d.activity) == IdOf(d.activity)
    ensures Run(ops + [Deliver(d)]) == Run(ops)
  {
    LogIsClaims(ops);
    assert (ops + [Deliver(d)])[..|ops|] == ops;
    if IdOf(d.activity) != "" {
      assert Claims(ops[k]) == Some(IdOf(d.activity));
    }
  }

  /** The log is keyed by activity id alone, so one activity addressed to two
      local actors acts for the first only. */
  lemma SecondAddresseeIsIgnored(t: Tables, first: Delivery, second: Delivery)
    requires IsNew(t, first) && IdOf(second.activity) == IdOf(first.activity) && second.activity.typ.Some?
    ensures Handled(Handled(t, first), second) == Handled(t, first)
    ensures OutcomeOf(Handled(t, first), second) == Duplicate
  {
  }

  // ------------------------------------------------- what the tables mean

  /** Operation `n` takes effect: a follow request, or the first delivery of its id. */
  predicate Effective(ops: seq<Op>, n: nat)
    requires n < |ops|
  {
    ops[n].RequestFollow? || (Claims(ops[n]).Some? && Claims(ops[n]).value !in Claimed(ops[..n]))
  }

  /** What an effective operation says about one follower: nothing, gone, or present. */
  function Verdict(op: Op, key: (string, string)): Option<Option<Follower>> {
    if op.Deliver? && op.d.activity.typ == Some("Follow") && (op.d.local, Actor(op.d)) == key
    then Some(Some(Follower(op.d.activity.actorInbox, op.d.now)))
    else if op.Deliver? && op.d.activity.typ == Some("Undo") && AboutFollow(op.d) && (op.d.local, Actor(op.d)) == key
    then Some(None)
    else None
  }

  /** The last effective word among the first `n` operations. */
  function LastWord(ops: seq<Op>, n: nat, key: (string, string)): Option<Follower>
    requires n <= |ops|
  {
    if n == 0 then None
    else if Effective(ops, n - 1) && Verdict(ops[n - 1], key).Some? then Verdict(ops[n - 1], key).value
    else LastWord(ops, n - 1, key)
  }

  function Lookup<T>(m: map<(string, string), T>, key: (string, string)): Option<T> {
    if key in m then Some(m[key]) else None
  }

  lemma FollowerStep(t: Tables, op: Op, key: (string, string))
    ensures Lookup(Do(t, op).followers, key) ==
            if op.Deliver? && IsNew(t, op.d) && Verdict(op, key).Some? then Verdict(op, key).value
            else Lookup(t.followers, key)
  {
  }

  /** Over every run, the follower table holds exactly the last effective word
      on each follower: the inbox and time of a Follow, or nothing after an Undo. */
  lemma {:induction false} FollowersExact(ops: seq<Op>, n: nat, key: (string, string))
    requires n <= |ops|
    ensures Lookup(Run(ops[..n]).followers, key) == LastWord(ops, n, key)
  {
    if n > 0 {
      var init, op := ops[..n - 1], ops[n - 1];
      FollowersExact(ops, n - 1, key);
      assert ops[..n][..n - 1] == init;
      LogIsClaims(init);
      FollowerStep(Run(init), op, key);
      hide Effect, Do, Verdict, Claimed;
    }
  }

  predicate Requests(op: Op, key: (string, string)) {
    op == RequestFollow(key.0, key.1)
  }

  predicate Accepts(op: Op, key: (string, string)) {
    op.Deliver? && op.d.activity.typ == Some("Accept") && AboutFollow(op.d) && (op.d.local, Target(op.d)) == key
  }

  /** Requested at `i`, accepted at `j`, and not requested again. */
  ghost predicate AcceptedAt(ops: seq<Op>, n: nat, key: (string, string), i: int, j: int)
    requires n <= |ops|
  {
    && 0 <= i < j < n && Requests(ops[i], key) && Effective(ops, j) && Accepts(ops[j], key)
    && forall k | j < k < n :: !Requests(ops[k], key)
  }

  lemma FollowingStep(t: Tables, op: Op, key: (string, string))
    ensures Lookup(Do(t, op).following, key) ==
            if Requests(op, key) then Some(false)
            else if op.Deliver? && IsNew(t, op.d) && Accepts(op, key) && key in t.following then Some(true)
            else Lookup(t.following, key)
  {
  }

  /** Over every run, a following is known exactly if it was requested, and
      accepted exactly if an effective Accept followed and no newer request. */
  lemma {:induction false} FollowingExact(ops: seq<Op>, n: nat, key: (string, string))
    requires n <= |ops|
    ensures key in Run(ops[..n]).following <==> exists i :: 0 <= i < n && Requests(ops[i], key)
    ensures Lookup(Run(ops[..n]).following, key) == Some(true) <==> exists i, j :: AcceptedAt(ops, n, key, i, j)
  {
    if n > 0 {
      var init, op := ops[..n - 1], ops[n - 1];
      FollowingExact(ops, n - 1, key);
      assert ops[..n][..n - 1] == init;
      LogIsClaims(init);
      FollowingStep(Run(init), op, key);
      var fresh_ := op.Deliver? && IsNew(Run(init), op.d);
      assert op.Deliver? ==> (fresh_ <==> Effective(ops, n - 1));
      hide Effect, Do, Claimed, IsNew, Effective, Accepts, Requests;
      AcceptedStep(ops, n - 1, n, key);
    }
  }

  lemma AcceptedStep(ops: seq<Op>, m: nat, n: nat, key: (string, string))
    requires m + 1 == n <= |ops|
    ensures (exists i, j :: AcceptedAt(ops, n, key, i, j)) <==>
            && !Requests(ops[m], key)
            && ((exists i, j :: AcceptedAt(ops, m, key, i, j))
                || (Effective(ops, m) && Accepts(ops[m], key)
                    && exists i :: 0 <= i < m && Requests(ops[i], key)))
  {
    hide Effective, Accepts;
    if !Requests(ops[m], key) {
      if exists i, j :: AcceptedAt(ops, m, key, i, j) {
        var i, j :| AcceptedAt(ops, m, key, i, j);
        assert AcceptedAt(ops, n, key, i, j);
      }
      if Effective(ops, m) && Accepts(ops[m], key) && exists i :: 0 <= i < m && Requests(ops[i], key) {
        var i :| 0 <= i < m && Requests(ops[i], key);
        assert AcceptedAt(ops, n, key, i, m);
      }
    }
    if exists i, j :: AcceptedAt(ops, n, key, i, j) {
      var i, j :| AcceptedAt(ops, n, key, i, j);
      if j < m {
        assert AcceptedAt(ops, m, key, i, j);
      } else {
        assert Requests(ops[i], key);
        RequestIsNoAccept(ops[m], key);
      }
    }
  }

  lemma RequestIsNoAccept(op: Op, key: (string, string))
    ensures Accepts(op, key) ==> !Requests(op, key)
  {
  }
}
