/**
 The life of an invitation: when each operation succeeds, and from when until when its token opens it. A
 token opens an invitation to its addressee from its creation or resending until it expires, is replaced,
 cancelled or accepted, and never afterwards.
 */
module InvitationLife {
  import opened Wrappers
  import opened Invitations
  import I = Identity
  import T = SeasonTransitions

  /** No invitation exists yet. */
  predicate Begins(start: Sys) {
    start.tables.invites == map[] && start.looks == map[] && start.accepted == []
  }

  /** The user is the addressee, with an active account. */
  predicate Addressed(people: People, user: UserId, email: string) {
    user in people.contacts && people.contacts[user] == email && user in people.active
  }

  /** The token opens this invitation to its addressee until a time, and no other invitation. */
  ghost predicate OpensUntil(t: Tables, id: InviteId, hash: string, email: string, end: int) {
    forall i, user, at :: Opens(t, i, hash, user, at) <==> i == id && at < end && Addressed(t.people, user, email)
  }

  ghost predicate OpensNothing(t: Tables, hash: string) {
    forall i, user, at :: !Opens(t, i, hash, user, at)
  }

  // ----- tokens that have been given out -----

  /** The token can open no invitation any more: none that is pending carries it. */
  ghost predicate Retired(s: Sys, hash: string) {
    && hash in s.used
    && forall i | i in s.tables.invites && s.tables.invites[i].tokenHash == hash :: !Pending(s.tables.invites[i])
  }

  lemma StepKeepsRetired(s: Sys, act: Action, hash: string)
    requires Inv(s) && Retired(s, hash)
    ensures Retired(Step(s, act), hash)
  {
  }

  lemma {:induction false} RunKeepsRetired(s: Sys, actions: seq<Action>, hash: string)
    requires Inv(s) && Retired(s, hash)
    ensures Retired(Run(s, actions), hash) && OpensNothing(Run(s, actions).tables, hash)
    decreases actions
  {
    if actions != [] {
      StepKeepsInv(s, actions[0]);
      StepKeepsRetired(s, actions[0], hash);
      RunKeepsRetired(Step(s, actions[0]), actions[1..], hash);
    }
  }

  /** The action may change this invitation. */
  predicate Touches(act: Action, id: InviteId) {
    match act
    case Resend(_, i, _, _, _) => i == id
    case Cancel(_, i, _) => i == id
    case Accept(_, i, _) => i == id
    case _ => false
  }

  /** A pending invitation as sent: what matters for who can open it. */
  predicate Awaits(s: Sys, id: InviteId, hash: string, email: string, end: int) {
    && id in s.tables.invites
    && var v := s.tables.invites[id];
       Pending(v) && v.tokenHash == hash && v.email == email && v.expiresAt == end
  }

  lemma StepKeepsAwaiting(s: Sys, act: Action, id: InviteId, hash: string, email: string, end: int)
    requires Inv(s) && Awaits(s, id, hash, email, end) && !Touches(act, id)
    ensures Awaits(Step(s, act), id, hash, email, end)
  {
  }

  lemma {:induction false} RunKeepsAwaiting(
    s: Sys, actions: seq<Action>, id: InviteId, hash: string, email: string, end: int)
    requires Inv(s) && Awaits(s, id, hash, email, end) && forall a | a in actions :: !Touches(a, id)
    ensures OpensUntil(Run(s, actions).tables, id, hash, email, end)
    decreases actions
  {
    if actions == [] {
      assert HashesUnique(s.tables.invites);
    } else {
      assert actions[0] in actions && forall a | a in actions[1..] :: a in actions;
      StepKeepsInv(s, actions[0]);
      StepKeepsAwaiting(s, actions[0], id, hash, email, end);
      RunKeepsAwaiting(Step(s, actions[0]), actions[1..], id, hash, email, end);
    }
  }

  // ----- creating and resending -----

  /** A member of the season has this address. */
  ghost predicate HasMember(t: Tables, season: SeasonId, email: string) {
    exists user :: (user, season) in t.members && user in t.people.contacts && t.people.contacts[user] == email
  }

  ghost predicate AwaitedFor(t: Tables, season: SeasonId, email: string) {
    exists i :: i in t.invites && t.invites[i].season == season && t.invites[i].email == email
                && t.invites[i].acceptedAt.None? && t.invites[i].cancelledAt.None?
  }

  predicate IsOpen(t: Tables, season: SeasonId) {
    season in t.seasons && t.seasons[season] == T.Open
  }

  /** Nothing but one invitation and the tokens given out differ. */
  predicate OnlyInvites(s: Sys, after: Sys, id: InviteId, hash: string) {
    && id in after.tables.invites
    && after == s.(tables := s.tables.(invites := s.tables.invites[id := after.tables.invites[id]]),
                   used := s.used + {hash})
  }

  /**
   An invitation with a fresh token is created exactly when its season is open, the address is well formed and neither
   of a member nor awaited already. It then opens for the addressee until it expires, whatever happens to others.
   */
  lemma CreateOutcome(start: Sys, actions: seq<Action>, act: Action, more: seq<Action>)
    requires Begins(start) && act.Create?
    ensures var s := Run(start, actions);
            var after := Step(s, act);
            && (after != s <==>
                && act.hash !in s.used && IsOpen(s.tables, act.season) && act.id !in s.tables.invites
                && act.email == I.Lower(I.Trim(act.email)) && |act.email| <= 254
                && !HasMember(s.tables, act.season, act.email) && !AwaitedFor(s.tables, act.season, act.email))
            && (after != s ==>
                  && OnlyInvites(s, after, act.id, act.hash)
                  && after.tables.invites[act.id] ==
                     Invite(act.season, act.email, act.role, act.hash, act.delivery, act.expiresAt,
                            None, None, None, None)
                  && ((forall a | a in more :: !Touches(a, act.id)) ==>
                        OpensUntil(Run(after, more).tables, act.id, act.hash, act.email, act.expiresAt)))
  {
    var s := Run(start, actions);
    RunKeepsInv(start, actions);
    var after := Step(s, act);
    assert PendingFor(s.tables.invites, act.season, act.email) <==> AwaitedFor(s.tables, act.season, act.email);
    MemberIffEnrolled(s.tables, act.season, act.email);
    assert act.hash !in s.used ==> !HashTaken(s.tables.invites, act.hash, None);
    if Created(s.tables, act.id, act.season, act.email, act.role, act.hash, act.delivery, act.expiresAt).Some?
       && act.hash !in s.used {
      assert act.id in after.tables.invites;
      StepKeepsInv(s, act);
      if forall a | a in more :: !Touches(a, act.id) {
        RunKeepsAwaiting(after, more, act.id, act.hash, act.email, act.expiresAt);
      }
    }
  }

  lemma MemberIffEnrolled(t: Tables, season: SeasonId, email: string)
    ensures AlreadyEnrolled(t, season, email) <==> HasMember(t, season, email)
  {
    if AlreadyEnrolled(t, season, email) {
      var m :| m in t.members && m.1 == season && m.0 in t.people.contacts && t.people.contacts[m.0] == email;
      assert (m.0, season) in t.members;
    }
    if user :| (user, season) in t.members && user in t.people.contacts && t.people.contacts[user] == email {
      assert (user, season).1 == season;
    }
  }

  /** An invitation of an open season that is neither accepted nor cancelled. */
  predicate CanChange(t: Tables, season: SeasonId, id: InviteId) {
    && IsOpen(t, season) && id in t.invites && t.invites[id].season == season
    && t.invites[id].acceptedAt.None? && t.invites[id].cancelledAt.None?
  }

  /**
   Resending with a fresh token succeeds for a pending invitation of an open season. The old token opens nothing ever
   after; the new one opens the invitation for one week, while nobody resends, cancels or accepts it.
   */
  lemma ResendOutcome(start: Sys, actions: seq<Action>, act: Action, more: seq<Action>)
    requires Begins(start) && act.Resend?
    ensures var s := Run(start, actions);
            var after := Step(s, act);
            && (after != s <==> act.hash !in s.used && CanChange(s.tables, act.season, act.id))
            && (after != s ==>
                  && OnlyInvites(s, after, act.id, act.hash)
                  && var was, v := s.tables.invites[act.id], after.tables.invites[act.id];
                     && v == was.(tokenHash := act.hash, deliveryId := act.delivery,
                                  expiresAt := act.at + 7 * 24 * 3600, sentAt := None)
                     && OpensNothing(Run(after, more).tables, was.tokenHash)
                     && ((forall a | a in more :: !Touches(a, act.id)) ==>
                           OpensUntil(Run(after, more).tables, act.id, act.hash, was.email, act.at + 7 * 24 * 3600)))
  {
    var s := Run(start, actions);
    RunKeepsInv(start, actions);
    var after := Step(s, act);
    assert act.hash !in s.used ==> !HashTaken(s.tables.invites, act.hash, Some(act.id));
    if act.hash !in s.used && CanChange(s.tables, act.season, act.id) {
      var was := s.tables.invites[act.id];
      assert after.tables.invites[act.id].tokenHash != was.tokenHash;
      StepKeepsInv(s, act);
      RunKeepsRetired(after, more, was.tokenHash);
      if forall a | a in more :: !Touches(a, act.id) {
        RunKeepsAwaiting(after, more, act.id, act.hash, was.email, act.at + 7 * 24 * 3600);
      }
    }
  }

  // ----- cancelling, sending and accepting -----

  /** A cancelled invitation is never opened again. */
  lemma CancelOutcome(start: Sys, actions: seq<Action>, act: Action, more: seq<Action>)
    requires Begins(start) && act.Cancel?
    ensures var s := Run(start, actions);
            var after := Step(s, act);
            && (after != s <==> CanChange(s.tables, act.season, act.id))
            && (after != s ==>
                  && var was := s.tables.invites[act.id];
                     && after == s.(tables := s.tables.(
                       invites := s.tables.invites[act.id := was.(cancelledAt := Some(act.at))]))
                     && OpensNothing(Run(after, more).tables, was.tokenHash))
  {
    var s := Run(start, actions);
    RunKeepsInv(start, actions);
    if CanChange(s.tables, act.season, act.id) {
      var after, was := Step(s, act), s.tables.invites[act.id];
      assert after.tables.invites[act.id].cancelledAt == Some(act.at);
      assert s.used + {} == s.used;
      StepKeepsInv(s, act);
      RunKeepsRetired(after, more, was.tokenHash);
    }
  }

  /** A report that a delivery was sent counts exactly for the invitation's current delivery. */
  lemma SentOutcome(s: Sys, id: InviteId, delivery: string, at: int, other: InviteId)
    requires other in s.tables.invites
    ensures var after := Step(s, Sent(id, delivery, at)).tables;
            && after == s.tables.(invites := after.invites) && other in after.invites
            && after.invites[other] ==
               if other == id && s.tables.invites[other].deliveryId == delivery
               then s.tables.invites[other].(sentAt := Some(at)) else s.tables.invites[other]
  {
  }

  /**
   An acceptance takes effect exactly when its reader has looked, the season it saw is open, the token still opens the
   invitation to the user, who is not a member yet.
   */
  lemma AcceptOutcome(start: Sys, actions: seq<Action>, reader: Reader, id: InviteId, at: int)
    requires Begins(start)
    ensures var s := Run(start, actions);
            var after := Step(s, Accept(reader, id, at));
            && (after != s <==>
                && reader in s.looks && Opens(s.tables, id, s.looks[reader].hash, s.looks[reader].user, at)
                && IsOpen(s.tables, s.looks[reader].season)
                && (s.looks[reader].user, s.looks[reader].season) !in s.tables.members)
            && (after != s ==>
                  after.tables.members == s.tables.members + {(s.looks[reader].user, s.looks[reader].season)}
                  && id in s.tables.invites && s.tables.invites[id].season == s.looks[reader].season
                  && s.tables.invites[id].role == s.looks[reader].role)
  {
    RunKeepsInv(start, actions);
    var s := Run(start, actions);
    if reader in s.looks {
      assert LookGood(s.looks[reader], s.tables.invites, s.used);
      assert Step(s, Accept(reader, id, at)) != s ==> reader !in Step(s, Accept(reader, id, at)).looks;
    }
  }

  /**
   Whoever can open an invitation at two times, looks it up at the first and accepts it at the second becomes a member
   of its season, if that is open and they are not one already; nobody else does, and the token is spent.
   */
  lemma OpenedIsAccepted(start: Sys, actions: seq<Action>, reader: Reader, id: InviteId, hash: string, user: UserId,
                         now: int, at: int, more: seq<Action>)
    requires Begins(start)
    requires var s := Run(start, actions);
             && Opens(s.tables, id, hash, user, now) && Opens(s.tables, id, hash, user, at)
             && IsOpen(s.tables, s.tables.invites[id].season)
             && (user, s.tables.invites[id].season) !in s.tables.members
    ensures var s := Run(start, actions);
            var v := s.tables.invites[id];
            var after := Step(Step(s, LookUp(reader, id, hash, user, now)), Accept(reader, id, at));
            && after.tables.members == s.tables.members + {(user, v.season)}
            && after.tables.invites
               == s.tables.invites[id := v.(acceptedAt := Some(at), acceptedBy := Some(user))]
            && after.accepted == s.accepted + [Acceptance(id, Look(hash, user, v.season, v.role), at)]
            && OpensNothing(Run(after, more).tables, hash)
  {
    var s := Run(start, actions);
    RunKeepsInv(start, actions);
    var looked := Step(s, LookUp(reader, id, hash, user, now));
    StepKeepsInv(s, LookUp(reader, id, hash, user, now));
    StepKeepsInv(looked, Accept(reader, id, at));
    RunKeepsRetired(Step(looked, Accept(reader, id, at)), more, hash);
  }
}
