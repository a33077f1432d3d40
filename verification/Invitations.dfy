/**
 Season invitations. Accepting one first looks it up without a lock and then checks it again under the
 season's lock, so other steps can come between; the system below lets them.
 */
module Invitations {
  import opened Wrappers
  import I = Identity
  import T = SeasonTransitions
  import S = SeasonStore

  type InviteId = string
  type UserId = S.UserId
  type Role = S.Role
  type SeasonId = T.SeasonId

  const WEEK := 7 * 24 * 3600

  datatype Invite = Invite(
    season: SeasonId, email: string, role: Role, tokenHash: string, deliveryId: string, expiresAt: int,
    sentAt: Option<int>, acceptedAt: Option<int>, acceptedBy: Option<UserId>, cancelledAt: Option<int>)

  type Invites = map<InviteId, Invite>

  /** contacts hold e-mails in lower case; active are the users whose account is active and not deleted. */
  datatype People = People(contacts: map<UserId, string>, active: set<UserId>)

  datatype Tables = Tables(seasons: map<SeasonId, T.Status>, people: People, members: set<(UserId, SeasonId)>,
                           invites: Invites)

  predicate Open(t: Tables, season: SeasonId) {
    season in t.seasons && t.seasons[season] == T.Open
  }

  predicate Pending(v: Invite) {
    v.acceptedAt.None? && v.cancelledAt.None?
  }

  predicate AlreadyEnrolled(t: Tables, season: SeasonId, email: string) {
    exists m | m in t.members :: m.1 == season && m.0 in t.people.contacts && t.people.contacts[m.0] == email
  }

  predicate HashTaken(invites: Invites, hash: string, except: Option<InviteId>) {
    exists id | id in invites :: invites[id].tokenHash == hash && Some(id) != except
  }

  predicate PendingFor(invites: Invites, season: SeasonId, email: string) {
    exists id | id in invites :: invites[id].season == season && invites[id].email == email && Pending(invites[id])
  }

  predicate GoodEmail(email: string) {
    email == I.Lower(I.Trim(email)) && |email| <= 254
  }

  // ----- the operations -----

  function Created(t: Tables, id: InviteId, season: SeasonId, email: string, role: Role, hash: string, delivery: string,
                   expiresAt: int): Option<Tables> {
    if !Open(t, season) || AlreadyEnrolled(t, season, email) then None
    else if id in t.invites || HashTaken(t.invites, hash, None) || PendingFor(t.invites, season, email)
      || !GoodEmail(email)
    then None
    else
      var v := Invite(season, email, role, hash, delivery, expiresAt, None, None, None, None);
      Some(t.(invites := t.invites[id := v]))
  }

  predicate Changeable(t: Tables, season: SeasonId, id: InviteId) {
    Open(t, season) && id in t.invites && t.invites[id].season == season && Pending(t.invites[id])
  }

  function Cancelled(t: Tables, season: SeasonId, id: InviteId, at: int): Option<Tables> {
    if !Changeable(t, season, id) then None
    else Some(t.(invites := t.invites[id := t.invites[id].(cancelledAt := Some(at))]))
  }

  /** A resent invitation has a new token and delivery, and is not yet sent. */
  function Resent(t: Tables, season: SeasonId, id: InviteId, hash: string, delivery: string, at: int): Option<Tables> {
    if !Changeable(t, season, id) || HashTaken(t.invites, hash, Some(id)) then None
    else
      var v := t.invites[id].(tokenHash := hash, deliveryId := delivery, expiresAt := at + WEEK, sentAt := None);
      Some(t.(invites := t.invites[id := v]))
  }

  function MarkedSent(t: Tables, id: InviteId, delivery: string, at: int): Tables {
    if id in t.invites && t.invites[id].deliveryId == delivery
    then t.(invites := t.invites[id := t.invites[id].(sentAt := Some(at))]) else t
  }

  /** The invitation is for the user, whose account is active, and its token still opens it. */
  predicate Opens(t: Tables, id: InviteId, hash: string, user: UserId, at: int) {
    && id in t.invites && t.invites[id].tokenHash == hash && Pending(t.invites[id]) && at < t.invites[id].expiresAt
    && user in t.people.contacts && t.people.contacts[user] == t.invites[id].email && user in t.people.active
  }

  /** What the first look remembers. */
  datatype Look = Look(hash: string, user: UserId, season: SeasonId, role: Role)

  predicate Seen(t: Tables, id: InviteId, hash: string, user: UserId, now: int) {
    Opens(t, id, hash, user, now) && t.invites[id].season in t.seasons
  }

  /** The accepting transaction: the season remembered from the look, everything else checked again. */
  predicate CanAccept(t: Tables, look: Look, id: InviteId, at: int) {
    Open(t, look.season) && Opens(t, id, look.hash, look.user, at) && (look.user, look.season) !in t.members
  }

  function AcceptedInto(t: Tables, look: Look, id: InviteId, at: int): Tables
    requires id in t.invites
  {
    t.(members := t.members + {(look.user, look.season)},
       invites := t.invites[id := t.invites[id].(acceptedAt := Some(at), acceptedBy := Some(look.user))])
  }

  /** Token hashes are unique, as the schema demands. */
  ghost predicate HashesUnique(invites: Invites) {
    forall i, j | i in invites && j in invites && invites[i].tokenHash == invites[j].tokenHash :: i == j
  }

  class InvitationStore {
    var seasons: map<SeasonId, T.Status>
    var people: People
    var members: set<(UserId, SeasonId)>
    var invites: Invites

    ghost function Contents(): Tables
      reads this
    {
      Tables(seasons, people, members, invites)
    }

    method LockOpenSeason(season: SeasonId) returns (ok: bool)
      ensures ok == Open(Contents(), season)
    {
      if season !in seasons {
        return false;
      }
      return seasons[season] == T.Open;
    }

    method CreateInvitation(id: InviteId, season: SeasonId, email: string, role: Role, hash: string, delivery: string,
                            expiresAt: int) returns (ok: bool)
      modifies `invites
      ensures var after := Created(old(Contents()), id, season, email, role, hash, delivery, expiresAt);
              ok == after.Some? && Contents() == if ok then after.value else old(Contents())
    {
      var open := LockOpenSeason(season);
      if !open {
        return false;
      }
      var enrolled := exists m | m in members ::
        m.1 == season && m.0 in people.contacts && people.contacts[m.0] == email;
      if enrolled {
        return false;
      }
      if id in invites || HashTaken(invites, hash, None) || PendingFor(invites, season, email) || !GoodEmail(email) {
        return false;
      }
      invites := invites[id := Invite(season, email, role, hash, delivery, expiresAt, None, None, None, None)];
      return true;
    }

    method ChangeInvitation(season: SeasonId, id: InviteId, hash: string, delivery: string, cancel: bool, at: int)
      returns (ok: bool)
      modifies `invites
      ensures var after := if cancel then Cancelled(old(Contents()), season, id, at)
                           else Resent(old(Contents()), season, id, hash, delivery, at);
              ok == after.Some? && Contents() == if ok then after.value else old(Contents())
    {
      var open := LockOpenSeason(season);
      if !open {
        return false;
      }
      if id !in invites || invites[id].season != season || invites[id].acceptedAt.Some?
        || invites[id].cancelledAt.Some? {
        return false;
      }
      if cancel {
        invites := invites[id := invites[id].(cancelledAt := Some(at))];
      } else {
        if HashTaken(invites, hash, Some(id)) {
          return false;
        }
        invites := invites[id :=
          invites[id].(tokenHash := hash, deliveryId := delivery, expiresAt := at + 7 * 24 * 3600, sentAt := None)];
      }
      return true;
    }

    method MarkInvitationSent(id: InviteId, delivery: string, at: int)
      modifies `invites
      ensures Contents() == MarkedSent(old(Contents()), id, delivery, at)
    {
      if id in invites && invites[id].deliveryId == delivery {
        invites := invites[id := invites[id].(sentAt := Some(at))];
      }
    }

    method InvitationForUser(hash: string, user: UserId, now: int) returns (look: Option<Look>)
      ensures look.None? ==> forall id :: !Seen(Contents(), id, hash, user, now)
      ensures look.Some? ==>
                exists id :: Seen(Contents(), id, hash, user, now)
                             && look.value == Look(hash, user, invites[id].season, invites[id].role)
    {
      if id :| id in invites && invites[id].tokenHash == hash && Pending(invites[id]) && now < invites[id].expiresAt
               && user in people.contacts && people.contacts[user] == invites[id].email && user in people.active
               && invites[id].season in seasons {
        assert Seen(Contents(), id, hash, user, now);
        return Some(Look(hash, user, invites[id].season, invites[id].role));
      }
      return None;
    }

    /** The transaction that follows the look; it returns the invitation it accepted. */
    method AcceptSeen(look: Look, at: int) returns (id: Option<InviteId>)
      requires HashesUnique(invites)
      modifies `members, `invites
      ensures id.None? ==> Contents() == old(Contents()) && forall i :: !CanAccept(old(Contents()), look, i, at)
      ensures id.Some? ==> CanAccept(old(Contents()), look, id.value, at)
                           && Contents() == AcceptedInto(old(Contents()), look, id.value, at)
    {
      var open := LockOpenSeason(look.season);
      if !open {
        return None;
      }
      if i :| i in invites && invites[i].tokenHash == look.hash && Pending(invites[i]) && at < invites[i].expiresAt
              && look.user in people.contacts && people.contacts[look.user] == invites[i].email
              && look.user in people.active {
        if (look.user, look.season) in members {
          return None;
        }
        members := members + {(look.user, look.season)};
        invites := invites[i := invites[i].(acceptedAt := Some(at), acceptedBy := Some(look.user))];
        return Some(i);
      }
      return None;
    }
  }

  // ----- every interleaving -----

  type Reader = int

  datatype Acceptance = Acceptance(invite: InviteId, look: Look, at: int)

  /** used are the token hashes ever given out: tokens are random and never repeat. */
  datatype Sys = Sys(tables: Tables, looks: map<Reader, Look>, used: set<string>, accepted: seq<Acceptance>,
                     sent: set<(InviteId, string, int)>)

  /** A season is opened or closed, or deleted when its status is none. */
  datatype Action =
    | Create(id: InviteId, season: SeasonId, email: string, role: Role, hash: string, delivery: string, expiresAt: int)
    | Resend(season: SeasonId, id: InviteId, hash: string, delivery: string, at: int)
    | Cancel(season: SeasonId, id: InviteId, at: int)
    | Sent(id: InviteId, delivery: string, at: int)
    | LookUp(reader: Reader, id: InviteId, hash: string, user: UserId, now: int)
    | Accept(reader: Reader, id: InviteId, at: int)
    | SetSeason(season: SeasonId, status: Option<T.Status>)
    | SetPeople(people: People)

  function With(s: Sys, t: Option<Tables>, hash: Option<string>): Sys {
    if t.None? then s else s.(tables := t.value, used := s.used + if hash.Some? then {hash.value} else {})
  }

  function Step(s: Sys, a: Action): Sys {
    match a
    case Create(id, season, email, role, hash, delivery, expiresAt) =>
      if hash in s.used then s
      else With(s, Created(s.tables, id, season, email, role, hash, delivery, expiresAt), Some(hash))
    case Resend(season, id, hash, delivery, at) =>
      if hash in s.used then s else With(s, Resent(s.tables, season, id, hash, delivery, at), Some(hash))
    case Cancel(season, id, at) => With(s, Cancelled(s.tables, season, id, at), None)
    case Sent(id, delivery, at) =>
      s.(tables := MarkedSent(s.tables, id, delivery, at), sent := s.sent + {(id, delivery, at)})
    case LookUp(reader, id, hash, user, now) =>
      if !Seen(s.tables, id, hash, user, now) then s
      else
        var v := s.tables.invites[id];
        s.(looks := s.looks[reader := Look(hash, user, v.season, v.role)])
    case Accept(reader, id, at) =>
      if reader in s.looks && CanAccept(s.tables, s.looks[reader], id, at)
      then s.(tables := AcceptedInto(s.tables, s.looks[reader], id, at), looks := s.looks - {reader},
              accepted := s.accepted + [Acceptance(id, s.looks[reader], at)])
      else s
    case SetSeason(season, status) =>
      var seasons := s.tables.seasons;
      s.(tables := s.tables.(seasons := if status.Some? then seasons[season := status.value] else seasons - {season}))
    case SetPeople(people) => s.(tables := s.tables.(people := people))
  }

  function Run(s: Sys, actions: seq<Action>): Sys
    decreases actions
  {
    if actions == [] then s else Run(Step(s, actions[0]), actions[1..])
  }

  function Invited(accepted: seq<Acceptance>): seq<InviteId> {
    seq(|accepted|, i requires 0 <= i < |accepted| => accepted[i].invite)
  }

  ghost predicate HashesUsed(invites: Invites, used: set<string>) {
    forall i | i in invites :: invites[i].tokenHash in used
  }

  /** A remembered look still names the season and role of whatever invitation carries its token. */
  predicate LookFits(look: Look, invites: Invites) {
    forall i | i in invites && invites[i].tokenHash == look.hash ::
      invites[i].season == look.season && invites[i].role == look.role
  }

  predicate LookGood(look: Look, invites: Invites, used: set<string>) {
    look.hash in used && LookFits(look, invites)
  }

  ghost predicate LooksGood(looks: map<Reader, Look>, invites: Invites, used: set<string>) {
    forall r | r in looks :: LookGood(looks[r], invites, used)
  }

  /** An acceptance stands: its invitation is accepted, not cancelled, with the token and in time. */
  predicate Stands(a: Acceptance, invites: Invites) {
    && a.invite in invites
    && var v := invites[a.invite];
       && v.acceptedAt == Some(a.at) && v.acceptedBy == Some(a.look.user) && v.cancelledAt.None?
       && v.tokenHash == a.look.hash && a.at < v.expiresAt && v.season == a.look.season && v.role == a.look.role
  }

  ghost predicate AcceptancesStand(accepted: seq<Acceptance>, invites: Invites) {
    && Distinct(Invited(accepted))
    && (forall a | a in accepted :: Stands(a, invites))
    && forall i | i in invites && invites[i].acceptedAt.Some? :: i in Invited(accepted)
  }

  /** A sent time is one that was reported for the current delivery. */
  ghost predicate SentTimesCurrent(invites: Invites, sent: set<(InviteId, string, int)>) {
    forall i | i in invites && invites[i].sentAt.Some? :: (i, invites[i].deliveryId, invites[i].sentAt.value) in sent
  }

  ghost predicate NeverBoth(invites: Invites) {
    forall i | i in invites :: invites[i].acceptedAt.None? || invites[i].cancelledAt.None?
  }

  ghost predicate Inv(s: Sys) {
    && HashesUnique(s.tables.invites) && HashesUsed(s.tables.invites, s.used)
    && LooksGood(s.looks, s.tables.invites, s.used)
    && AcceptancesStand(s.accepted, s.tables.invites) && SentTimesCurrent(s.tables.invites, s.sent)
    && NeverBoth(s.tables.invites)
  }

  lemma CreateKeepsInv(s: Sys, id: InviteId, v: Invite)
    requires Inv(s) && id !in s.tables.invites && v.tokenHash !in s.used
    requires v.sentAt.None? && v.acceptedAt.None? && v.cancelledAt.None?
    ensures Inv(s.(tables := s.tables.(invites := s.tables.invites[id := v]), used := s.used + {v.tokenHash}))
  {
    assert forall a | a in s.accepted :: Stands(a, s.tables.invites);
  }

  /** Replacing a pending invitation by one for the same season and role, with its token or a new one. */
  lemma ChangeKeepsInv(s: Sys, id: InviteId, v: Invite)
    requires Inv(s) && id in s.tables.invites && Pending(s.tables.invites[id])
    requires v.season == s.tables.invites[id].season && v.role == s.tables.invites[id].role && v.acceptedAt.None?
    requires v.tokenHash == s.tables.invites[id].tokenHash || v.tokenHash !in s.used
    requires v.sentAt.None?
             || (v.sentAt == s.tables.invites[id].sentAt && v.deliveryId == s.tables.invites[id].deliveryId)
    ensures Inv(s.(tables := s.tables.(invites := s.tables.invites[id := v]), used := s.used + {v.tokenHash}))
  {
    assert forall a | a in s.accepted :: Stands(a, s.tables.invites);
  }

  lemma SentKeepsInv(s: Sys, id: InviteId, delivery: string, at: int)
    requires Inv(s)
    ensures Inv(Step(s, Sent(id, delivery, at)))
  {
    assert forall a | a in s.accepted :: Stands(a, s.tables.invites);
  }

  lemma AcceptKeepsInv(s: Sys, reader: Reader, id: InviteId, at: int)
    requires Inv(s) && reader in s.looks && CanAccept(s.tables, s.looks[reader], id, at)
    ensures Inv(Step(s, Accept(reader, id, at)))
  {
    var look := s.looks[reader];
    var a := Acceptance(id, look, at);
    var after := Step(s, Accept(reader, id, at));
    assert LookGood(look, s.tables.invites, s.used);
    assert Invited(s.accepted + [a]) == Invited(s.accepted) + [id];
    forall i | 0 <= i < |s.accepted|
      ensures s.accepted[i].invite != id && Stands(s.accepted[i], after.tables.invites)
    {
      assert s.accepted[i] in s.accepted && Stands(s.accepted[i], s.tables.invites);
    }
    DistinctSnoc(Invited(s.accepted), id);
    assert Stands(a, after.tables.invites);
  }

  lemma StepKeepsInv(s: Sys, act: Action)
    requires Inv(s)
    ensures Inv(Step(s, act))
  {
    match act
    case Create(id, season, email, role, hash, delivery, expiresAt) =>
      if hash !in s.used && Created(s.tables, id, season, email, role, hash, delivery, expiresAt).Some? {
        CreateKeepsInv(s, id, Invite(season, email, role, hash, delivery, expiresAt, None, None, None, None));
      }
    case Resend(season, id, hash, delivery, at) =>
      if hash !in s.used && Resent(s.tables, season, id, hash, delivery, at).Some? {
        ChangeKeepsInv(s, id, Resent(s.tables, season, id, hash, delivery, at).value.invites[id]);
      }
    case Cancel(season, id, at) =>
      if Cancelled(s.tables, season, id, at).Some? {
        var v := s.tables.invites[id].(cancelledAt := Some(at));
        assert s.used + {v.tokenHash} == s.used;
        ChangeKeepsInv(s, id, v);
      }
    case Sent(id, delivery, at) => SentKeepsInv(s, id, delivery, at);
    case LookUp(_, _, _, _, _) =>
    case Accept(reader, id, at) =>
      if reader in s.looks && CanAccept(s.tables, s.looks[reader], id, at) {
        AcceptKeepsInv(s, reader, id, at);
      }
    case SetSeason(_, _) =>
    case SetPeople(_) =>
  }

  lemma {:induction false} RunKeepsInv(s: Sys, actions: seq<Action>)
    requires Inv(s)
    ensures Inv(Run(s, actions))
    decreases actions
  {
    if actions != [] {
      StepKeepsInv(s, actions[0]);
      RunKeepsInv(Step(s, actions[0]), actions[1..]);
    }
  }

  /**
   Over every interleaving an invitation is accepted at most once and never both accepted and cancelled; the
   accepted one carried the token, unexpired, and the member got its season and role; and a sent time was
   reported for the current delivery.
   */
  lemma InvitationsAreSafe(start: Sys, actions: seq<Action>)
    requires start.tables.invites == map[] && start.looks == map[] && start.accepted == []
    ensures var s := Run(start, actions);
            && (forall i, j | 0 <= i < j < |s.accepted| :: s.accepted[i].invite != s.accepted[j].invite)
            && (forall a | a in s.accepted :: Stands(a, s.tables.invites))
            && (forall i | i in s.tables.invites ::
               s.tables.invites[i].acceptedAt.None? || s.tables.invites[i].cancelledAt.None?)
            && (forall i | i in s.tables.invites && s.tables.invites[i].sentAt.Some? ::
                  (i, s.tables.invites[i].deliveryId, s.tables.invites[i].sentAt.value) in s.sent)
  {
    RunKeepsInv(start, actions);
    var s := Run(start, actions);
    forall i, j | 0 <= i < j < |s.accepted|
      ensures s.accepted[i].invite != s.accepted[j].invite
    {
      assert Invited(s.accepted)[i] != Invited(s.accepted)[j];
    }
  }

  /** A step enrolls someone only through the current token of an open season's invitation to that person. */
  lemma OnlyCurrentTokenEnrolls(start: Sys, actions: seq<Action>, act: Action, m: (UserId, SeasonId))
    requires start.tables.invites == map[] && start.looks == map[] && start.accepted == []
    requires var s := Run(start, actions); m in Step(s, act).tables.members && m !in s.tables.members
    ensures var s := Run(start, actions);
            && act.Accept? && Open(s.tables, m.1) && act.id in s.tables.invites
            && var v := s.tables.invites[act.id];
               && v.season == m.1 && Pending(v) && act.at < v.expiresAt
               && m.0 in s.tables.people.contacts && s.tables.people.contacts[m.0] == v.email
               && m.0 in s.tables.people.active
               && act.reader in s.looks && s.looks[act.reader].hash == v.tokenHash
  {
    RunKeepsInv(start, actions);
    var s := Run(start, actions);
    if act.Accept? && act.reader in s.looks {
      assert LookGood(s.looks[act.reader], s.tables.invites, s.used);
    }
  }
}
