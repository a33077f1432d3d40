/**
 The sender: account lifecycle commands of the authentication service. Every command is one
 transaction that changes the account, raises its security version and queues an outbox event.
 AccountLifecycleService updates its tables statement by statement; RunCommand says what a
 committed command leaves behind, and CommandRaisesVersion what every command has in common.
 */
module AuthLifecycle {
  import opened Wrappers
  import opened Identity

  datatype AuthUser = AuthUser(
    email: string, emailVerified: bool, state: AccountState, deadline: Option<int>, version: int)

  datatype Session = Session(user: UserId, mfaVerifiedAt: Option<int>)

  datatype RecoveryToken = RecoveryToken(
    user: UserId, expiresAt: int, usedAt: Option<int>, revokedAt: Option<int>)

  datatype Payload = IdentityPayload(event: Event) | EmailPayload(to: string)

  datatype OutboxRow = OutboxRow(
    payload: Payload, availableAt: int, lockedUntil: Option<int>, attempts: nat,
    createdAt: int, deliveredAt: Option<int>)

  datatype AuthDb = AuthDb(
    users: map<UserId, AuthUser>, sessions: map<string, Session>,
    outbox: map<EntryId, OutboxRow>, tokens: map<string, RecoveryToken>)

  datatype Command =
    | RevokeSessions(why: string)
    | RecordMfaState(configured: bool)
    | SetSuspended(suspended: bool, reason: string, actor: string)
    | RequestDeletion(recoveryDeadline: int, tokenHash: string)
    | CancelDeletion
    | CancelWithToken(usedHash: string)
    | Pseudonymize

  /** The ids a command gives to its rows. */
  datatype Ids = Ids(event: EntryId, mail: EntryId)

  // ----- policy -----

  datatype LifecycleCommand = Suspend | AskDeletion | Cancel | Erase

  function NextAccountState(current: AccountState, command: LifecycleCommand): Option<AccountState> {
    match (current, command)
    case (Active, Suspend) => Some(Suspended)
    case (Active, AskDeletion) => Some(DeletionPending)
    case (Suspended, AskDeletion) => Some(DeletionPending)
    case (DeletionPending, Cancel) => Some(Active)
    case (DeletionPending, Erase) => Some(Deleted)
    case _ => None
  }

  predicate TokenChar(c: char) {
    'A' <= c <= 'Z' || 'a' <= c <= 'z' || '0' <= c <= '9' || c == '_' || c == '-'
  }

  /** The shape a recovery token must have before it is looked up. */
  predicate WellFormedToken(token: string) {
    32 <= |token| <= 128 && forall i | 0 <= i < |token| :: TokenChar(token[i])
  }

  predicate IsDeletionRecoverable(state: AccountState, deadline: Option<int>, now: int) {
    state == DeletionPending && deadline.Some? && deadline.value > now
  }

  // ----- what a committed command leaves behind -----

  function WithoutUserSessions(sessions: map<string, Session>, user: UserId): map<string, Session> {
    map k | k in sessions && sessions[k].user != user :: sessions[k]
  }

  predicate OpenToken(t: RecoveryToken, user: UserId) {
    t.user == user && t.usedAt.None? && t.revokedAt.None?
  }

  function RevokeOpenTokens(tokens: map<string, RecoveryToken>, user: UserId, now: int)
    : map<string, RecoveryToken>
  {
    map h | h in tokens ::
      if OpenToken(tokens[h], user) then tokens[h].(revokedAt := Some(now)) else tokens[h]
  }

  /** The outbox rows that erasing an account removes with it. */
  predicate ErasedRow(row: OutboxRow, user: UserId, email: string) {
    match row.payload
    case IdentityPayload(e) => e.user == user
    case EmailPayload(to) => Lower(to) == Lower(email)
  }

  function NewRow(payload: Payload, now: int): OutboxRow {
    OutboxRow(payload, now, None, 0, now, None)
  }

  function ChangeOf(c: Command): Change {
    match c
    case RevokeSessions(why) => SessionsRevoked(why)
    case RecordMfaState(configured) => if configured then MfaConfigured else MfaDisabled
    case SetSuspended(suspended, reason, actor) =>
      AccountStateChanged(if suspended then Suspended else Active, reason, actor)
    case RequestDeletion(deadline, _) => DeletionRequested(deadline)
    case CancelDeletion => DeletionCancelled
    case CancelWithToken(_) => DeletionCancelled
    case Pseudonymize => AuthPseudonymized
  }

  /** Whether the account row admits the command. */
  predicate Admits(db: AuthDb, user: UserId, c: Command, now: int) {
    && user in db.users
    && var u := db.users[user];
       match c
       case RevokeSessions(_) => true
       case RecordMfaState(_) => true
       case SetSuspended(_, _, _) => u.state != Deleted && u.state != DeletionPending
       case RequestDeletion(deadline, hash) =>
         NextAccountState(u.state, AskDeletion).Some? && deadline > now && hash !in db.tokens
       case CancelDeletion => IsDeletionRecoverable(u.state, u.deadline, now)
       case CancelWithToken(hash) =>
         && hash in db.tokens && OpenToken(db.tokens[hash], user)
         && db.tokens[hash].expiresAt > now
         && IsDeletionRecoverable(u.state, u.deadline, now)
       case Pseudonymize =>
         u.state == DeletionPending && u.deadline.Some? && u.deadline.value <= now
  }

  /** The account row after a command that the row admits. */
  function AccountAfter(user: UserId, u: AuthUser, c: Command): AuthUser {
    var raised := u.(version := u.version + 1);
    match c
    case RevokeSessions(_) => raised
    case RecordMfaState(_) => raised
    case SetSuspended(suspended, _, _) => raised.(state := if suspended then Suspended else Active)
    case RequestDeletion(deadline, _) => raised.(state := DeletionPending, deadline := Some(deadline))
    case CancelDeletion => raised.(state := Active, deadline := None)
    case CancelWithToken(_) => raised.(state := Active, deadline := None)
    case Pseudonymize =>
      raised.(email := "deleted+" + user + "@invalid.rsp.local", emailVerified := false,
              state := Deleted, deadline := None)
  }

  predicate KeepsSessions(c: Command) {
    c.CancelDeletion? || c.CancelWithToken?
  }

  function TokensAfter(db: AuthDb, user: UserId, c: Command, now: int): map<string, RecoveryToken> {
    match c
    case RequestDeletion(deadline, hash) =>
      RevokeOpenTokens(db.tokens, user, now)[hash := RecoveryToken(user, deadline, None, None)]
    case CancelDeletion => RevokeOpenTokens(db.tokens, user, now)
    case CancelWithToken(hash) =>
      if hash in db.tokens then db.tokens[hash := db.tokens[hash].(usedAt := Some(now))] else db.tokens
    case Pseudonymize => map h | h in db.tokens && db.tokens[h].user != user :: db.tokens[h]
    case _ => db.tokens
  }

  /** The rows kept from before, and the message to the member if the command sends one. */
  function OutboxKept(db: AuthDb, user: UserId, c: Command, now: int, ids: Ids): map<EntryId, OutboxRow>
    requires user in db.users
  {
    match c
    case RequestDeletion(_, _) => db.outbox[ids.mail := NewRow(EmailPayload(db.users[user].email), now)]
    case Pseudonymize =>
      map k | k in db.outbox && !ErasedRow(db.outbox[k], user, db.users[user].email) :: db.outbox[k]
    case _ => db.outbox
  }

  function EventFor(user: UserId, version: int, c: Command, now: int, ids: Ids): Event {
    Event(ids.event, user, version, ChangeOf(c), now)
  }

  /** The primary key of the outbox admits the rows that the command inserts. */
  predicate IdsFree(db: AuthDb, user: UserId, c: Command, now: int, ids: Ids)
    requires user in db.users
  {
    && (c.RequestDeletion? ==> ids.mail !in db.outbox)
    && ids.event !in OutboxKept(db, user, c, now, ids)
  }

  /** A command is refused without a trace, or it commits as a whole. */
  function RunCommand(db: AuthDb, user: UserId, c: Command, now: int, ids: Ids): Outcome<AuthDb> {
    if !Admits(db, user, c, now) || !IdsFree(db, user, c, now, ids) then RolledBack
    else
      var after := AccountAfter(user, db.users[user], c);
      var event := EventFor(user, after.version, c, now, ids);
      Committed(AuthDb(
        db.users[user := after],
        if KeepsSessions(c) then db.sessions else WithoutUserSessions(db.sessions, user),
        OutboxKept(db, user, c, now, ids)[ids.event := NewRow(IdentityPayload(event), now)],
        TokensAfter(db, user, c, now)))
  }

  /**
   What every command has in common: it raises one account's version by exactly one, queues one
   undelivered event carrying the new version, touches no other account and no other user's session,
   and removes no other account's pending event.
   */
  ghost predicate RaisesVersion(db: AuthDb, after: AuthDb, user: UserId, e: Event) {
    && user in db.users
    && after.users.Keys == db.users.Keys
    && after.users[user].version == db.users[user].version + 1 == e.version
    && e.user == user
    && (forall other | other in db.users && other != user :: after.users[other] == db.users[other])
    && e.id !in db.outbox
    && e.id in after.outbox
    && after.outbox[e.id].payload == IdentityPayload(e)
    && after.outbox[e.id].deliveredAt.None?
    && (forall k | k in after.outbox && k != e.id && after.outbox[k].payload.IdentityPayload? ::
          k in db.outbox && after.outbox[k] == db.outbox[k])
    && (forall k | k in db.outbox && db.outbox[k].payload.IdentityPayload?
          && db.outbox[k].payload.event.user != user ::
          k in after.outbox && after.outbox[k] == db.outbox[k])
    && (forall k | k in after.sessions :: k in db.sessions && after.sessions[k] == db.sessions[k])
    && (forall k | k in db.sessions && db.sessions[k].user != user :: k in after.sessions)
  }

  /** Who is signed in after a command: a cancellation leaves every session, any other ends all of the user's own. */
  ghost predicate SignsOut(c: Command, user: UserId, before: map<string, Session>, after: map<string, Session>) {
    if c.CancelDeletion? || c.CancelWithToken? then after == before
    else
      && (forall k | k in after :: after[k].user != user)
      && (forall k | k in before && before[k].user != user :: k in after && after[k] == before[k])
  }

  lemma CommandRaisesVersion(db: AuthDb, user: UserId, c: Command, now: int, ids: Ids)
    requires RunCommand(db, user, c, now, ids).Committed? && ids.event !in db.outbox
    ensures RaisesVersion(db, RunCommand(db, user, c, now, ids).value, user,
                          EventFor(user, db.users[user].version + 1, c, now, ids))
    ensures SignsOut(c, user, db.sessions, RunCommand(db, user, c, now, ids).value.sessions)
  {
    var after := RunCommand(db, user, c, now, ids).value;
    assert after.users.Keys == db.users.Keys;
  }

  /** The account states a command can reach, as the transition table of the policy states them. */
  lemma CommandFollowsPolicy(db: AuthDb, user: UserId, c: Command, now: int, ids: Ids)
    requires RunCommand(db, user, c, now, ids).Committed?
    ensures
      var old_, new_ := db.users[user].state, RunCommand(db, user, c, now, ids).value.users[user].state;
      && (old_ == Deleted ==> new_ == Deleted && (c.RevokeSessions? || c.RecordMfaState?))
      && (new_ == Deleted && old_ != Deleted ==>
            c.Pseudonymize? && NextAccountState(old_, Erase) == Some(new_))
      && (new_ == DeletionPending && old_ != DeletionPending ==>
            c.RequestDeletion? && NextAccountState(old_, AskDeletion) == Some(new_))
      && (old_ == DeletionPending && new_ == Active ==>
            (c.CancelDeletion? || c.CancelWithToken?) && NextAccountState(old_, Cancel) == Some(new_))
      && (old_ == DeletionPending ==> new_ != Suspended)
  {
  }

  /** A recovery token that was used or revoked stays so, until the account is erased. */
  lemma SpentTokenStaysSpent(db: AuthDb, user: UserId, c: Command, now: int, ids: Ids, hash: string)
    requires RunCommand(db, user, c, now, ids).Committed?
    requires hash in db.tokens && (db.tokens[hash].usedAt.Some? || db.tokens[hash].revokedAt.Some?)
    ensures c != CancelWithToken(hash)
    ensures var after := RunCommand(db, user, c, now, ids).value;
            hash !in after.tokens || after.tokens[hash] == db.tokens[hash]
  {
  }

  // ----- the service -----

  datatype Entry = Entry(id: EntryId, payload: Payload)

  function Pow2(n: nat): nat { if n == 0 then 1 else 2 * Pow2(n - 1) }

  function Min(a: int, b: int): int { if a <= b then a else b }

  /** Seconds until a failed delivery is tried again. */
  function Backoff(attempts: nat): int {
    Min(3600, 5 * Pow2(Min(attempts, 9)))
  }

  lemma {:induction false} Pow2Monotone(m: nat, n: nat)
    requires m <= n
    ensures 1 <= Pow2(m) <= Pow2(n)
  {
    if m < n {
      Pow2Monotone(m, n - 1);
    } else if n > 0 {
      Pow2Monotone(n - 1, n - 1);
    }
  }

  /** Waiting never shrinks from one failure to the next and stays within five seconds and an hour. */
  lemma BackoffBounded(attempts: nat)
    ensures 5 <= Backoff(attempts) <= Backoff(attempts + 1) <= 3600
  {
    Pow2Monotone(Min(attempts, 9), Min(attempts + 1, 9));
  }

  /** The wait doubles with each of the first nine failures and then stays, short of the hour that caps it. */
  lemma BackoffDoubles(attempts: nat)
    ensures Backoff(0) == 5
    ensures attempts < 9 ==> Backoff(attempts + 1) == 2 * Backoff(attempts)
    ensures attempts >= 9 ==> Backoff(attempts) == 2560
  {
    if attempts < 9 {
      Pow2Monotone(attempts + 1, 9);
    }
    assert Pow2(9) == 2 * Pow2(8) == 4 * Pow2(7) == 8 * Pow2(6) == 16 * Pow2(5) == 32 * Pow2(4) == 512;
  }

  predicate Claimable(row: OutboxRow, now: int) {
    row.deliveredAt.None? && row.availableAt <= now && (row.lockedUntil.None? || row.lockedUntil.value <= now)
  }

  function Lease(row: OutboxRow, now: int): OutboxRow {
    row.(lockedUntil := Some(now + 60))
  }

  function LeaseAll(outbox: map<EntryId, OutboxRow>, ids: set<EntryId>, now: int): map<EntryId, OutboxRow> {
    map k | k in outbox :: if k in ids then Lease(outbox[k], now) else outbox[k]
  }

  function Elements(ids: seq<EntryId>): set<EntryId> {
    set id | id in ids
  }

  /** The table after a delivery was confirmed. */
  function Delivered(outbox: map<EntryId, OutboxRow>, id: EntryId, now: int): map<EntryId, OutboxRow> {
    if id in outbox && outbox[id].deliveredAt.None?
    then outbox[id := outbox[id].(deliveredAt := Some(now), lockedUntil := None)]
    else outbox
  }

  /** The table after a delivery failed. */
  function Failed(outbox: map<EntryId, OutboxRow>, id: EntryId, now: int): map<EntryId, OutboxRow> {
    if id in outbox && outbox[id].deliveredAt.None?
    then outbox[id := outbox[id].(attempts := outbox[id].attempts + 1,
                                  availableAt := now + Backoff(outbox[id].attempts),
                                  lockedUntil := None)]
    else outbox
  }

  /**
   A queued entry can be claimed at once, a claimed one again after a minute, one whose delivery failed after its
   wait, and a delivered one never.
   */
  lemma WhenClaimable(outbox: map<EntryId, OutboxRow>, id: EntryId, payload: Payload, now: int, later: int)
    requires id in outbox
    ensures Claimable(NewRow(payload, now), later) <==> now <= later
    ensures Claimable(outbox[id], now) && now <= later ==>
              (Claimable(Lease(outbox[id], now), later) <==> now + 60 <= later)
    ensures outbox[id].deliveredAt.None? ==>
              (Claimable(Failed(outbox, id, now)[id], later) <==> now + Backoff(outbox[id].attempts) <= later)
              && Failed(outbox, id, now)[id].attempts == outbox[id].attempts + 1
    ensures !Claimable(Delivered(outbox, id, now)[id], later)
    ensures forall k | k in outbox && k != id ::
              k in Failed(outbox, id, now) && Failed(outbox, id, now)[k] == outbox[k] &&
              k in Delivered(outbox, id, now) && Delivered(outbox, id, now)[k] == outbox[k]
  {
  }

  /**
   How the attempt to deliver an entry goes: whether it is accepted, whether that is then recorded, and, if
   either fails, whether the failure is recorded.
   */
  datatype Attempt = Attempt(accepted: bool, recorded: bool, failureRecorded: bool)

  predicate Succeeds(a: Attempt) {
    a.accepted && a.recorded
  }

  /** The table after an attempt. */
  function Attempted(outbox: map<EntryId, OutboxRow>, id: EntryId, a: Attempt, now: int): map<EntryId, OutboxRow> {
    if Succeeds(a) then Delivered(outbox, id, now) else if a.failureRecorded then Failed(outbox, id, now) else outbox
  }

  /**
   An entry counts as delivered exactly when it was accepted and that was recorded; otherwise it is queued again
   later if the failure was recorded, and left as it is if not. No other entry changes.
   */
  lemma AttemptOutcome(outbox: map<EntryId, OutboxRow>, id: EntryId, a: Attempt, now: int)
    requires id in outbox && outbox[id].deliveredAt.None?
    ensures var after := Attempted(outbox, id, a, now);
            && after.Keys == outbox.Keys && (forall k | k in outbox && k != id :: after[k] == outbox[k])
            && (after[id].deliveredAt.Some? <==> a.accepted && a.recorded)
            && (!(a.accepted && a.recorded) ==>
                  after[id].attempts == outbox[id].attempts + (if a.failureRecorded then 1 else 0)
                  && (!a.failureRecorded ==> after[id] == outbox[id]))
  {
  }

  /** The table after each entry was attempted in turn. */
  function Flushed(outbox: map<EntryId, OutboxRow>, ids: seq<EntryId>, replies: EntryId -> Attempt, now: int)
    : map<EntryId, OutboxRow>
  {
    if ids == [] then outbox
    else Attempted(Flushed(outbox, ids[..|ids| - 1], replies, now), ids[|ids| - 1], replies(ids[|ids| - 1]), now)
  }

  function Accepted(ids: seq<EntryId>, replies: EntryId -> Attempt): nat {
    if ids == [] then 0
    else Accepted(ids[..|ids| - 1], replies) + if Succeeds(replies(ids[|ids| - 1])) then 1 else 0
  }

  /** The first i entries are settled as their attempts went; the rest are still undelivered. */
  ghost predicate FlushProgress(
    leased: map<EntryId, OutboxRow>, outbox: map<EntryId, OutboxRow>, ids: seq<EntryId>, i: nat,
    replies: EntryId -> Attempt, now: int)
  {
    && i <= |ids|
    && outbox == Flushed(leased, ids[..i], replies, now)
    && (forall j | 0 <= j < |ids| :: ids[j] in outbox)
    && (forall j | 0 <= j < i :: outbox[ids[j]].deliveredAt.Some? <==> Succeeds(replies(ids[j])))
    && (forall j | i <= j < |ids| :: outbox[ids[j]].deliveredAt.None?)
  }

  lemma FlushStep(
    leased: map<EntryId, OutboxRow>, outbox: map<EntryId, OutboxRow>, ids: seq<EntryId>, i: nat,
    replies: EntryId -> Attempt, now: int)
    requires Distinct(ids) && i < |ids| && FlushProgress(leased, outbox, ids, i, replies, now)
    ensures FlushProgress(
      leased, Attempted(outbox, ids[i], replies(ids[i]), now), ids, i + 1, replies, now)
    ensures Accepted(ids[..i + 1], replies) == Accepted(ids[..i], replies) + if Succeeds(replies(ids[i])) then 1 else 0
  {
    assert ids[..i + 1][..|ids[..i + 1]| - 1] == ids[..i];
  }

  /** The database after erasing the accounts in turn, all in one transaction. */
  function EraseAll(db: AuthDb, due: seq<UserId>, now: int, idFor: UserId -> Ids): AuthDb {
    if due == [] then db
    else
      var before := EraseAll(db, due[..|due| - 1], now, idFor);
      var user := due[|due| - 1];
      var next := RunCommand(before, user, Pseudonymize, now, idFor(user));
      if next.Committed? then next.value else before
  }

  /** The sweep has erased the first i accounts and left every other account and its fresh id alone. */
  ghost predicate Swept(start: AuthDb, db: AuthDb, due: seq<UserId>, i: nat, now: int, idFor: UserId -> Ids) {
    && i <= |due|
    && db == EraseAll(start, due[..i], now, idFor)
    && db.users.Keys == start.users.Keys
    && (forall j | 0 <= j < i :: due[j] in db.users && db.users[due[j]].state == Deleted)
    && (forall user | user in db.users && user !in due[..i] ::
          db.users[user] == start.users[user] && idFor(user).event !in db.outbox)
  }

  lemma SweptAccountIsDue(
    start: AuthDb, db: AuthDb, due: seq<UserId>, i: nat, now: int, idFor: UserId -> Ids)
    requires Swept(start, db, due, i, now, idFor) && Distinct(due) && i < |due|
    requires forall user | user in due :: user in start.users && DueForErasure(start.users[user], now)
    ensures due[i] in db.users && DueForErasure(db.users[due[i]], now)
    ensures RunCommand(db, due[i], Pseudonymize, now, idFor(due[i])).Committed?
  {
    assert due[i] in due;
  }

  lemma SweptStep(start: AuthDb, db: AuthDb, due: seq<UserId>, i: nat, now: int, idFor: UserId -> Ids)
    requires Swept(start, db, due, i, now, idFor) && Distinct(due) && i < |due|
    requires RunCommand(db, due[i], Pseudonymize, now, idFor(due[i])).Committed?
    requires forall a, b | a in start.users && b in start.users && a != b :: idFor(a).event != idFor(b).event
    ensures Swept(start, RunCommand(db, due[i], Pseudonymize, now, idFor(due[i])).value, due, i + 1, now, idFor)
  {
    var after := RunCommand(db, due[i], Pseudonymize, now, idFor(due[i])).value;
    assert due[..i + 1][..|due[..i + 1]| - 1] == due[..i];
    assert due[..i + 1] == due[..i] + [due[i]];
    assert after.users.Keys == db.users.Keys;
    forall user | user in after.users && user !in due[..i + 1]
      ensures after.users[user] == start.users[user] && idFor(user).event !in after.outbox
    {
      assert user !in due[..i] && user != due[i];
    }
    forall j | 0 <= j < i + 1
      ensures due[j] in after.users && after.users[due[j]].state == Deleted
    {
    }
  }

  predicate DueForErasure(u: AuthUser, now: int) {
    u.state == DeletionPending && u.deadline.Some? && u.deadline.value <= now
  }

  class AccountLifecycleService {
    var users: map<UserId, AuthUser>
    var sessions: map<string, Session>
    var outbox: map<EntryId, OutboxRow>
    var tokens: map<string, RecoveryToken>

    function Db(): AuthDb
      reads this
    {
      AuthDb(users, sessions, outbox, tokens)
    }

    constructor (db: AuthDb)
      ensures Db() == db
    {
      users, sessions, outbox, tokens := db.users, db.sessions, db.outbox, db.tokens;
    }

    /** Inserts one outbox row; the primary key refuses an id that is taken. */
    method EnqueueOutbox(id: EntryId, payload: Payload, now: int) returns (ok: bool)
      modifies this`outbox
      ensures ok == (id !in old(outbox))
      ensures outbox == if ok then old(outbox)[id := NewRow(payload, now)] else old(outbox)
    {
      ok := id !in outbox;
      if ok {
        outbox := outbox[id := NewRow(payload, now)];
      }
    }

    /** Restores the tables of a transaction that failed. */
    method Rollback(db: AuthDb)
      modifies this
      ensures Db() == db
    {
      users, sessions, outbox, tokens := db.users, db.sessions, db.outbox, db.tokens;
    }

    method RevokeSessionsOf(user: UserId, why: string, now: int, ids: Ids) returns (r: Outcome<nat>)
      modifies this
      ensures RunCommand(old(Db()), user, RevokeSessions(why), now, ids) ==
              if r.Committed? then Committed(Db()) else RolledBack
      ensures r.RolledBack? ==> Db() == old(Db())
      ensures r.Committed? ==> r.value == |set k | k in old(sessions) && old(sessions)[k].user == user|
      ensures r.Committed? ==> SignsOut(RevokeSessions(why), user, old(sessions), sessions)
    {
      var saved := Db();
      var kept := WithoutUserSessions(sessions, user);
      var revoked := |sessions| - |kept|;
      CountDeleted(sessions, kept, user);
      sessions := kept;
      if user !in users {
        Rollback(saved);
        return RolledBack;
      }
      users := users[user := users[user].(version := users[user].version + 1)];
      var event := Event(ids.event, user, users[user].version, SessionsRevoked(why), now);
      var queued := EnqueueOutbox(ids.event, IdentityPayload(event), now);
      if !queued {
        Rollback(saved);
        return RolledBack;
      }
      return Committed(revoked);
    }

    method RecordMfa(user: UserId, configured: bool, now: int, ids: Ids) returns (r: Outcome<()>)
      modifies this
      ensures RunCommand(old(Db()), user, RecordMfaState(configured), now, ids) ==
              if r.Committed? then Committed(Db()) else RolledBack
      ensures r.RolledBack? ==> Db() == old(Db())
    {
      var saved := Db();
      sessions := WithoutUserSessions(sessions, user);
      if user !in users {
        Rollback(saved);
        return RolledBack;
      }
      users := users[user := users[user].(version := users[user].version + 1)];
      var change := if configured then MfaConfigured else MfaDisabled;
      var event := Event(ids.event, user, users[user].version, change, now);
      var queued := EnqueueOutbox(ids.event, IdentityPayload(event), now);
      if !queued {
        Rollback(saved);
        return RolledBack;
      }
      return Committed(());
    }

    method SetSuspension(user: UserId, suspended: bool, reason: string, actor: string, now: int, ids: Ids)
      returns (r: Outcome<()>)
      modifies this
      ensures RunCommand(old(Db()), user, SetSuspended(suspended, reason, actor), now, ids) ==
              if r.Committed? then Committed(Db()) else RolledBack
      ensures r.RolledBack? ==> Db() == old(Db())
    {
      var saved := Db();
      if user !in users || users[user].state == Deleted || users[user].state == DeletionPending {
        return RolledBack;
      }
      var state := if suspended then Suspended else Active;
      users := users[user := users[user].(state := state, version := users[user].version + 1)];
      sessions := WithoutUserSessions(sessions, user);
      var event := Event(ids.event, user, users[user].version, AccountStateChanged(state, reason, actor), now);
      var queued := EnqueueOutbox(ids.event, IdentityPayload(event), now);
      if !queued {
        Rollback(saved);
        return RolledBack;
      }
      return Committed(());
    }

    method RequestDeletionOf(user: UserId, deadline: int, hash: string, now: int, ids: Ids)
      returns (r: Outcome<()>)
      modifies this
      ensures RunCommand(old(Db()), user, RequestDeletion(deadline, hash), now, ids) ==
              if r.Committed? then Committed(Db()) else RolledBack
      ensures r.RolledBack? ==> Db() == old(Db())
    {
      var saved := Db();
      if user !in users || NextAccountState(users[user].state, AskDeletion).None? {
        return RolledBack;
      }
      tokens := RevokeOpenTokens(tokens, user, now);
      if hash in tokens || deadline <= now {
        Rollback(saved);
        return RolledBack;
      }
      tokens := tokens[hash := RecoveryToken(user, deadline, None, None)];
      users := users[user := users[user].(state := DeletionPending, deadline := Some(deadline),
                                          version := users[user].version + 1)];
      sessions := WithoutUserSessions(sessions, user);
      var event := Event(ids.event, user, users[user].version, DeletionRequested(deadline), now);
      var mailed := EnqueueOutbox(ids.mail, EmailPayload(users[user].email), now);
      var queued := EnqueueOutbox(ids.event, IdentityPayload(event), now);
      if !mailed || !queued {
        Rollback(saved);
        return RolledBack;
      }
      return Committed(());
    }

    method CancelDeletionOf(user: UserId, now: int, ids: Ids) returns (r: Outcome<()>)
      modifies this
      ensures RunCommand(old(Db()), user, CancelDeletion, now, ids) ==
              if r.Committed? then Committed(Db()) else RolledBack
      ensures r.RolledBack? ==> Db() == old(Db())
    {
      var saved := Db();
      if user !in users || !IsDeletionRecoverable(users[user].state, users[user].deadline, now) {
        return RolledBack;
      }
      users := users[user := users[user].(state := Active, deadline := None, version := users[user].version + 1)];
      tokens := RevokeOpenTokens(tokens, user, now);
      var event := Event(ids.event, user, users[user].version, DeletionCancelled, now);
      var queued := EnqueueOutbox(ids.event, IdentityPayload(event), now);
      if !queued {
        Rollback(saved);
        return RolledBack;
      }
      return Committed(());
    }

    /** The token names the account; a malformed, spent, expired or unknown token is refused. */
    method CancelDeletionWithToken(token: string, hashOf: string -> string, now: int, ids: Ids)
      returns (r: Outcome<UserId>)
      modifies this
      ensures r.Committed? ==>
                && WellFormedToken(token)
                && RunCommand(old(Db()), r.value, CancelWithToken(hashOf(token)), now, ids) == Committed(Db())
      ensures r.RolledBack? ==>
                && Db() == old(Db())
                && (WellFormedToken(token) ==>
                      forall user :: RunCommand(Db(), user, CancelWithToken(hashOf(token)), now, ids).RolledBack?)
    {
      if !WellFormedToken(token) {
        return RolledBack;
      }
      var hash := hashOf(token);
      var saved := Db();
      if hash !in tokens || tokens[hash].usedAt.Some? || tokens[hash].revokedAt.Some? {
        return RolledBack;
      }
      var user := tokens[hash].user;
      if user !in users || tokens[hash].expiresAt <= now
         || !IsDeletionRecoverable(users[user].state, users[user].deadline, now) {
        return RolledBack;
      }
      tokens := tokens[hash := tokens[hash].(usedAt := Some(now))];
      users := users[user := users[user].(state := Active, deadline := None, version := users[user].version + 1)];
      var event := Event(ids.event, user, users[user].version, DeletionCancelled, now);
      var queued := EnqueueOutbox(ids.event, IdentityPayload(event), now);
      if !queued {
        Rollback(saved);
        return RolledBack;
      }
      return Committed(user);
    }

    /** Erases one account inside a transaction that its caller owns. */
    method EraseAccount(user: UserId, now: int, ids: Ids) returns (ok: bool)
      requires user in users && DueForErasure(users[user], now)
      modifies this
      ensures RunCommand(old(Db()), user, Pseudonymize, now, ids) == if ok then Committed(Db()) else RolledBack
      ensures !ok ==> Db() == old(Db())
    {
      var saved := Db();
      var email := users[user].email;
      sessions := WithoutUserSessions(sessions, user);
      tokens := map h | h in tokens && tokens[h].user != user :: tokens[h];
      outbox := map k | k in outbox && !ErasedRow(outbox[k], user, email) :: outbox[k];
      users := users[user := users[user].(email := "deleted+" + user + "@invalid.rsp.local",
                                          emailVerified := false, state := Deleted, deadline := None,
                                          version := users[user].version + 1)];
      var event := Event(ids.event, user, users[user].version, AuthPseudonymized, now);
      ok := EnqueueOutbox(ids.event, IdentityPayload(event), now);
      if !ok {
        Rollback(saved);
      }
    }

    method PseudonymizeAccount(user: UserId, now: int, ids: Ids) returns (r: Outcome<()>)
      modifies this
      ensures RunCommand(old(Db()), user, Pseudonymize, now, ids) ==
              if r.Committed? then Committed(Db()) else RolledBack
      ensures r.RolledBack? ==> Db() == old(Db())
    {
      if user !in users || users[user].state != DeletionPending {
        return RolledBack;
      }
      if users[user].deadline.None? || users[user].deadline.value > now {
        return RolledBack;
      }
      var ok := EraseAccount(user, now, ids);
      if ok {
        return Committed(());
      }
      return RolledBack;
    }

    /** Picks accounts that are due and not locked by another sweep, at most limit of them. */
    method SelectDue(now: int, limit: nat, locked: set<UserId>) returns (due: seq<UserId>)
      ensures |due| <= limit
      ensures Distinct(due)
      ensures forall user | user in due :: user in users && DueForErasure(users[user], now) && user !in locked
      ensures |due| < limit ==>
                forall user | user in users && DueForErasure(users[user], now) && user !in locked :: user in due
    {
      due := [];
      var left := set user | user in users && user !in locked && DueForErasure(users[user], now);
      while left != {} && |due| < limit
        invariant |due| <= limit
        invariant forall i, j | 0 <= i < j < |due| :: due[i] != due[j]
        invariant forall user | user in due ::
                    user in users && DueForErasure(users[user], now) && user !in locked && user !in left
        invariant forall user | user in left ::
                    user in users && DueForErasure(users[user], now) && user !in locked
        invariant forall user | user in users && DueForErasure(users[user], now) && user !in locked ::
                    user in due || user in left
        decreases left
      {
        var user :| user in left;
        due := due + [user];
        left := left - {user};
      }
    }

    /** Erases every due account that it can lock, in one transaction. */
    method PseudonymizeDue(now: int, limit: nat, locked: set<UserId>, idFor: UserId -> Ids)
      returns (r: Outcome<seq<UserId>>)
      requires forall user | user in users :: idFor(user).event !in outbox
      requires forall a, b | a in users && b in users && a != b :: idFor(a).event != idFor(b).event
      modifies this
      ensures r.RolledBack? <==> limit < 1 || limit > 100
      ensures r.RolledBack? ==> Db() == old(Db())
      ensures r.Committed? ==>
                && |r.value| <= limit
                && Db() == EraseAll(old(Db()), r.value, now, idFor)
                && (forall user | user in r.value :: user in users && users[user].state == Deleted)
                && (|r.value| < limit ==>
                      forall user | user in users && user !in locked :: !DueForErasure(users[user], now))
    {
      if limit < 1 || limit > 100 {
        return RolledBack;
      }
      var due := SelectDue(now, limit, locked);
      var i := 0;
      ghost var start := Db();
      while i < |due|
        invariant 0 <= i <= |due|
        invariant Swept(start, Db(), due, i, now, idFor)
      {
        ghost var before := Db();
        SweptAccountIsDue(start, before, due, i, now, idFor);
        var ok := EraseAccount(due[i], now, idFor(due[i]));
        SweptStep(start, before, due, i, now, idFor);
        i := i + 1;
      }
      assert due[..|due|] == due;
      return Committed(due);
    }

    /** Leases up to limit undelivered rows whose earlier lease has run out. */
    method ClaimDue(now: int, limit: nat, skipped: set<EntryId>) returns (claimed: seq<EntryId>)
      modifies this`outbox
      ensures |claimed| <= limit
      ensures Distinct(claimed)
      ensures forall id | id in claimed :: id in old(outbox) && Claimable(old(outbox)[id], now)
      ensures outbox == LeaseAll(old(outbox), Elements(claimed), now)
      ensures |claimed| < limit ==>
                forall id | id in outbox && id !in skipped :: !Claimable(outbox[id], now)
    {
      claimed := [];
      var left := set id | id in outbox && id !in skipped && Claimable(outbox[id], now);
      while left != {} && |claimed| < limit
        invariant |claimed| <= limit
        invariant forall i, j | 0 <= i < j < |claimed| :: claimed[i] != claimed[j]
        invariant forall id | id in claimed :: id in old(outbox) && Claimable(old(outbox)[id], now) && id !in left
        invariant forall id | id in left :: id in old(outbox) && Claimable(old(outbox)[id], now)
        invariant forall id | id in old(outbox) && id !in skipped && Claimable(old(outbox)[id], now) ::
                    id in claimed || id in left
        invariant outbox == LeaseAll(old(outbox), Elements(claimed), now)
        decreases left
      {
        var id :| id in left;
        claimed := claimed + [id];
        left := left - {id};
        outbox := outbox[id := Lease(outbox[id], now)];
      }
    }

    /** Publishes one entry and records how that went; a failure that cannot be recorded leaves the lease to expire. */
    method Deliver(id: EntryId, attempt: Attempt, now: int) returns (ok: bool)
      modifies this`outbox
      ensures ok == Succeeds(attempt)
      ensures outbox == Attempted(old(outbox), id, attempt, now)
    {
      if attempt.accepted && attempt.recorded {
        if id in outbox && outbox[id].deliveredAt.None? {
          outbox := outbox[id := outbox[id].(deliveredAt := Some(now), lockedUntil := None)];
        }
        return true;
      }
      if attempt.failureRecorded && id in outbox && outbox[id].deliveredAt.None? {
        outbox := outbox[id := outbox[id].(attempts := outbox[id].attempts + 1,
                                           availableAt := now + Backoff(outbox[id].attempts),
                                           lockedUntil := None)];
      }
      return false;
    }

    /** Claims a batch and delivers it entry by entry; the result counts the accepted ones. */
    method FlushOutbox(now: int, limit: nat, skipped: set<EntryId>, replies: EntryId -> Attempt)
      returns (r: Outcome<nat>, claimed: seq<EntryId>)
      modifies this`outbox
      ensures r.RolledBack? <==> limit < 1 || limit > 100
      ensures r.RolledBack? ==> Db() == old(Db()) && claimed == []
      ensures r.Committed? ==>
                && |claimed| <= limit
                && outbox == Flushed(LeaseAll(old(outbox), Elements(claimed), now), claimed, replies, now)
                && r.value == Accepted(claimed, replies)
                && (forall id | id in claimed ::
                   id in outbox && (outbox[id].deliveredAt.Some? <==> Succeeds(replies(id))))
    {
      claimed := [];
      if limit < 1 || limit > 100 {
        return RolledBack, claimed;
      }
      claimed := ClaimDue(now, limit, skipped);
      ghost var leased := outbox;
      var delivered := 0;
      var i := 0;
      while i < |claimed|
        invariant 0 <= i <= |claimed|
        invariant FlushProgress(leased, outbox, claimed, i, replies, now)
        invariant delivered == Accepted(claimed[..i], replies)
      {
        FlushStep(leased, outbox, claimed, i, replies, now);
        var ok := Deliver(claimed[i], replies(claimed[i]), now);
        if ok {
          delivered := delivered + 1;
        }
        i := i + 1;
      }
      assert claimed[..|claimed|] == claimed;
      return Committed(delivered), claimed;
    }
  }

  /** What a deletion leaves is fewer by as many as the user had. */
  lemma CountDeleted(whole: map<string, Session>, part: map<string, Session>, user: UserId)
    requires part.Keys == set k | k in whole && whole[k].user != user
    ensures |whole| - |part| == |set k | k in whole && whole[k].user == user|
  {
    var own := set k | k in whole && whole[k].user == user;
    assert whole.Keys - part.Keys == own;
    assert |part| == |part.Keys| && |whole| == |whole.Keys|;
    assert |whole.Keys - part.Keys| == |whole.Keys| - |part.Keys|;
  }
}
