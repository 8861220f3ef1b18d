/** What the answer of `handle_inbox` tells about what it did. */
module InboxLaws {
  import opened Text
  import opened Inbox

  /** Typed, with an id that is given, not empty and not logged. */
  predicate Fresh(t: Tables, d: Delivery) {
    d.activity.typ != None && d.activity.id != None && d.activity.id.value != "" && d.activity.id.value !in t.inbox
  }

  /** The member of the document if it is there, else what is known otherwise. */
  function Given(member_: Option<string>, fallback: string): string {
    match member_
    case None => fallback
    case Some(v) => v
  }

  /** The follower concerned: the document's actor, else the verified sender. */
  function Who(d: Delivery): (string, string) {
    (d.local, Given(d.activity.actor, d.sender))
  }

  /** The following concerned: the inner object's target, else the local actor. */
  function Whom(d: Delivery): (string, string) {
    (d.local, Given(d.activity.objectTarget, d.local))
  }

  predicate OnFollow(d: Delivery, typ: string) {
    d.activity.typ == Some(typ) && d.activity.objectType == Some("Follow")
  }

  /** Without effect: no type, or nothing new. */
  lemma NothingHappened(t: Tables, d: Delivery)
    ensures OutcomeOf(t, d) == MissingType <==> d.activity.typ == None
    ensures OutcomeOf(t, d) == Duplicate <==> d.activity.typ != None && !Fresh(t, d)
    ensures !Fresh(t, d) ==> Handled(t, d) == t
    ensures Fresh(t, d) ==>
              Handled(t, d).inbox == t.inbox[d.activity.id.value := LogRow(d.local, d.activity, d.now)]
  {
  }

  /** A follower is accepted, as told, and stored with inbox and time. */
  lemma FollowerAccepted(t: Tables, d: Delivery, who: string, inbox: Option<string>)
    ensures OutcomeOf(t, d) == FollowAccepted(who, inbox) <==>
            Fresh(t, d) && d.activity.typ == Some("Follow") && Who(d) == (d.local, who) && d.activity.actorInbox == inbox
    ensures OutcomeOf(t, d) == FollowAccepted(who, inbox) ==>
            && Handled(t, d).followers == t.followers[(d.local, who) := Follower(inbox, d.now)]
            && Handled(t, d).following == t.following
  {
  }

  /** A follower is removed, as told. */
  lemma FollowerRemoved(t: Tables, d: Delivery, who: string)
    ensures OutcomeOf(t, d) == FollowRemoved(who) <==> Fresh(t, d) && OnFollow(d, "Undo") && Who(d) == (d.local, who)
    ensures OutcomeOf(t, d) == FollowRemoved(who) ==>
            Handled(t, d).followers == t.followers - {(d.local, who)} && Handled(t, d).following == t.following
  {
  }

  /** A request is acknowledged, as told; the row is set only if there was one. */
  lemma RequestAcknowledged(t: Tables, d: Delivery, whom: string)
    ensures OutcomeOf(t, d) == FollowAcknowledged(whom) <==> Fresh(t, d) && OnFollow(d, "Accept") && Whom(d) == (d.local, whom)
    ensures OutcomeOf(t, d) == FollowAcknowledged(whom) ==>
            && Handled(t, d).followers == t.followers && Handled(t, d).following.Keys == t.following.Keys
            && forall key | key in t.following ::
                 Handled(t, d).following[key] == (t.following[key] || key == (d.local, whom))
  {
  }

  /** Logged only: content activities, and whatever else is new. */
  lemma LoggedOnly(t: Tables, d: Delivery)
    ensures OutcomeOf(t, d) == Accepted <==> Fresh(t, d) && d.activity.typ.value in {"Create", "Like", "Announce", "Delete"}
    ensures OutcomeOf(t, d) == Ignored <==>
            && Fresh(t, d) && d.activity.typ.value !in {"Create", "Like", "Announce", "Delete", "Follow"}
            && !OnFollow(d, "Undo") && !OnFollow(d, "Accept")
    ensures OutcomeOf(t, d) in {Accepted, Ignored} ==>
            Handled(t, d).followers == t.followers && Handled(t, d).following == t.following
  {
  }

  /** So the answers and the changes correspond: the follower table changes only
      under the two answers that name a follower, the following table only under
      the one that names a target. */
  lemma ChangesAreTold(t: Tables, d: Delivery)
    ensures Handled(t, d).followers != t.followers ==> OutcomeOf(t, d).FollowAccepted? || OutcomeOf(t, d).FollowRemoved?
    ensures Handled(t, d).following != t.following ==> OutcomeOf(t, d).FollowAcknowledged?
  {
  }
}
