/**
 What each command and each delivery comes to: exactly when it goes through and what it leaves, and over
 every run which recovery token still works and that no two accounts share an address.
 */
module IdentityOutcomes {
  import opened Wrappers
  import opened Identity
  import opened AuthLifecycle
  import opened IdentityReceiver
  import opened IdentityProtocol
  import opened IdentityHistory
  import opened IdentityTheorems
  import opened IdentityAcceptance

  // ----- commands -----

  /** The ids that a command brings are new. */
  predicate NewIds(db: AuthDb, ids: Ids) {
    ids.event !in db.outbox && ids.mail !in db.outbox && ids.event != ids.mail
  }

  predicate Recoverable(u: AuthUser, now: int) {
    u.state == DeletionPending && u.deadline.Some? && now < u.deadline.value
  }

  predicate Usable(tokens: map<string, RecoveryToken>, hash: string, user: UserId, now: int) {
    && hash in tokens && tokens[hash].user == user && tokens[hash].usedAt.None? && tokens[hash].revokedAt.None?
    && now < tokens[hash].expiresAt
  }

  /** A command with new ids commits exactly when the account is in a state that allows it and the time is right. */
  lemma CommandCommitsIff(db: AuthDb, user: UserId, c: Command, now: int, ids: Ids)
    requires NewIds(db, ids)
    ensures RunCommand(db, user, c, now, ids).Committed? <==>
            && user in db.users
            && var u := db.users[user];
               match c
               case RevokeSessions(_) => true
               case RecordMfaState(_) => true
               case SetSuspended(_, _, _) => u.state == Active || u.state == Suspended
               case RequestDeletion(deadline, hash) =>
                 (u.state == Active || u.state == Suspended) && now < deadline && hash !in db.tokens
               case CancelDeletion => Recoverable(u, now)
               case CancelWithToken(hash) => Usable(db.tokens, hash, user, now) && Recoverable(u, now)
               case Pseudonymize => u.state == DeletionPending && u.deadline.Some? && u.deadline.value <= now
  {
  }

  /** The account row that a committed command leaves. */
  predicate AccountLeft(user: UserId, before: AuthUser, after: AuthUser, c: Command) {
    && after.version == before.version + 1
    && match c
       case SetSuspended(suspended, _, _) =>
         after == before.(version := after.version, state := if suspended then Suspended else Active)
       case RequestDeletion(deadline, _) =>
         after == before.(version := after.version, state := DeletionPending, deadline := Some(deadline))
       case Pseudonymize =>
         after == AuthUser("deleted+" + user + "@invalid.rsp.local", false, Deleted, None, after.version)
       case RevokeSessions(_) => after == before.(version := after.version)
       case RecordMfaState(_) => after == before.(version := after.version)
       case _ => after == before.(version := after.version, state := Active, deadline := None)
  }

  /** An erasure takes the account's own events and the messages to its address with it. */
  predicate GoesWith(row: OutboxRow, user: UserId, email: string) {
    || (row.payload.IdentityPayload? && row.payload.event.user == user)
    || (row.payload.EmailPayload? && Lower(row.payload.to) == Lower(email))
  }

  /** Besides the command's own event, only a request for deletion adds a row, and only an erasure removes any. */
  ghost predicate OutboxLeft(db: AuthDb, after: AuthDb, user: UserId, c: Command, now: int, ids: Ids)
    requires user in db.users
  {
    && (forall k | k in after.outbox && k !in db.outbox ::
          k == ids.event || (c.RequestDeletion? && k == ids.mail))
    && (c.RequestDeletion? ==>
          ids.mail in after.outbox
          && after.outbox[ids.mail] == OutboxRow(EmailPayload(db.users[user].email), now, None, 0, now, None))
    && (forall k | k in db.outbox ::
          if c.Pseudonymize? && GoesWith(db.outbox[k], user, db.users[user].email) then k !in after.outbox
          else k in after.outbox && after.outbox[k] == db.outbox[k])
  }

  /** A committed command leaves the account, the outbox and the event that announces it as its kind demands. */
  lemma CommandOutcome(db: AuthDb, user: UserId, c: Command, now: int, ids: Ids)
    requires NewIds(db, ids) && RunCommand(db, user, c, now, ids).Committed?
    ensures var after := RunCommand(db, user, c, now, ids).value;
            && user in db.users && after.users.Keys == db.users.Keys
            && AccountLeft(user, db.users[user], after.users[user], c)
            && OutboxLeft(db, after, user, c, now, ids)
            && ids.event in after.outbox && after.outbox[ids.event].payload.IdentityPayload?
            && var change := after.outbox[ids.event].payload.event.change;
               match c
               case RevokeSessions(why) => change == SessionsRevoked(why)
               case RecordMfaState(configured) => change == if configured then MfaConfigured else MfaDisabled
               case SetSuspended(_, reason, actor) =>
                 change == AccountStateChanged(after.users[user].state, reason, actor)
               case RequestDeletion(deadline, _) => change == DeletionRequested(deadline)
               case Pseudonymize => change == AuthPseudonymized
               case _ => change == DeletionCancelled
  {
  }

  // ----- recovery tokens -----

  predicate IsUnspent(t: RecoveryToken, user: UserId) {
    t.user == user && t.usedAt.None? && t.revokedAt.None?
  }

  /** An unspent token belongs to a pending deletion, with its deadline; no account has two. */
  ghost predicate TokensFollow(users: map<UserId, AuthUser>, tokens: map<string, RecoveryToken>) {
    && (forall h | h in tokens :: tokens[h].user in users)
    && (forall h, u | h in tokens && IsUnspent(tokens[h], u) ::
          u in users && users[u].state == DeletionPending && users[u].deadline == Some(tokens[h].expiresAt))
    && (forall h, g, u | h in tokens && g in tokens && IsUnspent(tokens[h], u) && IsUnspent(tokens[g], u) :: h == g)
  }

  lemma NothingToRevoke(users: map<UserId, AuthUser>, tokens: map<string, RecoveryToken>, user: UserId, now: int)
    requires TokensFollow(users, tokens) && user in users && users[user].state != DeletionPending
    ensures RevokeOpenTokens(tokens, user, now) == tokens
  {
    assert forall h | h in tokens :: OpenToken(tokens[h], user) <==> IsUnspent(tokens[h], user);
  }

  lemma NewTokenFollows(users: map<UserId, AuthUser>, tokens: map<string, RecoveryToken>, user: UserId, u: AuthUser,
                        hash: string, t: RecoveryToken)
    requires TokensFollow(users, tokens) && user in users && users[user].state != DeletionPending && hash !in tokens
    requires u.state == DeletionPending && t.user == user && u.deadline == Some(t.expiresAt)
    ensures TokensFollow(users[user := u], tokens[hash := t])
  {
  }

  lemma RequestKeepsTokens(db: AuthDb, user: UserId, deadline: int, hash: string, now: int, ids: Ids)
    requires TokensFollow(db.users, db.tokens)
    requires RunCommand(db, user, RequestDeletion(deadline, hash), now, ids).Committed?
    ensures var after := RunCommand(db, user, RequestDeletion(deadline, hash), now, ids).value;
            TokensFollow(after.users, after.tokens)
  {
    var after := RunCommand(db, user, RequestDeletion(deadline, hash), now, ids).value;
    NothingToRevoke(db.users, db.tokens, user, now);
    NewTokenFollows(db.users, db.tokens, user, after.users[user], hash, after.tokens[hash]);
  }

  lemma CommandKeepsTokens(db: AuthDb, user: UserId, c: Command, now: int, ids: Ids)
    requires TokensFollow(db.users, db.tokens) && RunCommand(db, user, c, now, ids).Committed?
    ensures var after := RunCommand(db, user, c, now, ids).value; TokensFollow(after.users, after.tokens)
  {
    match c
    case RequestDeletion(deadline, hash) => RequestKeepsTokens(db, user, deadline, hash, now, ids);
    case _ =>
  }

  lemma StepKeepsTokens(s: Sys, l: Label)
    requires TokensFollow(s.auth.users, s.auth.tokens)
    ensures TokensFollow(Step(s, l).auth.users, Step(s, l).auth.tokens)
  {
    if l.Lifecycle? && Step(s, l) != s {
      CommandKeepsTokens(s.auth, l.user, l.command, l.now, l.ids);
    }
  }

  lemma {:induction false} RunKeepsTokens(s: Sys, labels: seq<Label>)
    requires TokensFollow(s.auth.users, s.auth.tokens)
    ensures TokensFollow(Run(s, labels).auth.users, Run(s, labels).auth.tokens)
    decreases labels
  {
    if labels != [] {
      StepKeepsTokens(s, labels[0]);
      RunKeepsTokens(Step(s, labels[0]), labels[1..]);
    }
  }

  /**
   After any run, a recovery token cancels its account's deletion exactly when it is neither used nor revoked and has
   not expired: the checks on the account itself decide nothing more. From its expiry on the account can be erased
   instead, and not before.
   */
  lemma TokenRecoversIff(labels: seq<Label>, user: UserId, hash: string, now: int, ids: Ids)
    requires var db := Run(Empty(), labels).auth; NewIds(db, ids)
    ensures var db := Run(Empty(), labels).auth;
            && (RunCommand(db, user, CancelWithToken(hash), now, ids).Committed? <==>
                Usable(db.tokens, hash, user, now))
            && (hash in db.tokens && IsUnspent(db.tokens[hash], user) ==>
                  (RunCommand(db, user, Pseudonymize, now, ids).Committed? <==> db.tokens[hash].expiresAt <= now))
  {
    RunKeepsTokens(Empty(), labels);
  }

  /** A request for deletion makes its token the one way back, and revokes whatever was open before. */
  lemma RequestOpensToken(labels: seq<Label>, user: UserId, deadline: int, hash: string, now: int, ids: Ids)
    requires var db := Run(Empty(), labels).auth;
             RunCommand(db, user, RequestDeletion(deadline, hash), now, ids).Committed?
    ensures var after := RunCommand(Run(Empty(), labels).auth, user, RequestDeletion(deadline, hash), now, ids).value;
            && hash in after.tokens && after.tokens[hash] == RecoveryToken(user, deadline, None, None)
            && (forall g | g in after.tokens && IsUnspent(after.tokens[g], user) :: g == hash)
            && (forall later :: Usable(after.tokens, hash, user, later) <==> later < deadline)
  {
    RunKeepsTokens(Empty(), labels);
    CommandKeepsTokens(Run(Empty(), labels).auth, user, RequestDeletion(deadline, hash), now, ids);
  }

  /** A cancelled deletion leaves no token that could be used, and an erased account no token at all. */
  lemma CancelledHasNoToken(labels: seq<Label>, user: UserId, c: Command, now: int, ids: Ids)
    requires c.CancelDeletion? || c.CancelWithToken? || c.Pseudonymize?
    requires RunCommand(Run(Empty(), labels).auth, user, c, now, ids).Committed?
    ensures var after := RunCommand(Run(Empty(), labels).auth, user, c, now, ids).value;
            && (forall g, later :: !Usable(after.tokens, g, user, later))
            && (c.Pseudonymize? ==> forall g | g in after.tokens :: after.tokens[g].user != user)
  {
    RunKeepsTokens(Empty(), labels);
    CommandKeepsTokens(Run(Empty(), labels).auth, user, c, now, ids);
  }

  // ----- deliveries -----

  /** An event once taken in is acknowledged ever after without effect; another under its id is a conflict. */
  lemma TakenInIsAcknowledged(db: ApiDb, s: seq<Delivery>, e: Event, local: Local)
    requires e.id in ReceiveAll(db, s).receipts && e.id != "" && e.version >= 1
    ensures var after := ReceiveAll(db, s);
            && Receive(after, e, local) == after
            && VerdictOf(after, e) == (if after.receipts[e.id] == e then Replayed else Conflict)
            && (Acknowledged(VerdictOf(after, e)) <==> after.receipts[e.id] == e)
    ensures e.id in db.receipts ==> ReceiveAll(db, s).receipts[e.id] == db.receipts[e.id]
  {
    ReceiptsGrow(db, s);
  }

  /** Whether an address belongs to another account, whatever its letter case. */
  ghost predicate AddressOfAnother(db: ApiDb, user: UserId, email: string) {
    exists other :: other in db.accounts && other != user && db.accounts[other].email.Some?
                    && Lower(db.accounts[other].email.value) == Lower(email)
  }

  /**
   A new event of a linked account is dropped when older than the stored version. Otherwise it is applied, unless it
   asks for an address that is blank or another's, for a state other than active or suspended, or for the unknown.
   */
  lemma NewEventVerdict(db: ApiDb, e: Event, local: Local)
    requires e.id != "" && e.version >= 1 && e.id !in db.receipts && e.user in db.accounts
    ensures var v, after := VerdictOf(db, e), Receive(db, e, local);
            && (v.Stale? <==> e.version < db.accounts[e.user].version)
            && (v.Applied? <==>
                && db.accounts[e.user].version <= e.version
                && match e.change
                   case EmailChanged(email) => Trim(email) != "" && !AddressOfAnother(db, e.user, Trim(email))
                   case AccountStateChanged(state, _, _) => state != Deleted && state != DeletionPending
                   case Unsupported(_) => false
                   case _ => true)
            && (v.Stale? || v.Applied? || v.Refused?)
            && (v.Stale? ==> after == db.(receipts := db.receipts[e.id := e]))
            && (v.Refused? ==> after == db)
  {
    if e.change.EmailChanged? {
      assert EmailTaken(db.accounts, e.user, Trim(e.change.newEmail))
        <==> AddressOfAnother(db, e.user, Trim(e.change.newEmail));
    }
  }

  /** An event of an unknown user is taken in only if it creates the account, with an address that no other has. */
  lemma UnknownUserVerdict(db: ApiDb, e: Event, local: Local)
    requires e.id != "" && e.version >= 1 && e.id !in db.receipts && e.user !in db.accounts
    ensures var v, after := VerdictOf(db, e), Receive(db, e, local);
            && (v.NotLinked? <==> !e.change.AuthUserCreated?)
            && (v.Created? <==> e.change.AuthUserCreated? && !AddressOfAnother(db, e.user, e.change.email))
            && (v.NotLinked? || v.Created? || v.Refused?)
            && (v.Created? ==>
                  after == ApiDb(db.receipts[e.id := e],
                                 db.accounts[e.user := Account(local.newId, Active, e.version, false,
                                                               e.change.emailVerified, None, Some(e.change.email))],
                                 db.audits))
            && (!v.Created? ==> after == db)
  {
    if e.change.AuthUserCreated? {
      assert EmailTaken(db.accounts, e.user, e.change.email) <==> AddressOfAnother(db, e.user, e.change.email);
    }
  }

  /** What an applied event leaves of the account's address, and who is audited for it under which name. */
  lemma AppliedOutcome(db: ApiDb, e: Event, local: Local)
    requires VerdictOf(db, e).Applied?
    ensures var before, after := db.accounts[e.user], Receive(db, e, local);
            && after.accounts.Keys == db.accounts.Keys
            && (forall u | u in db.accounts && u != e.user :: after.accounts[u] == db.accounts[u])
            && after.accounts[e.user].userId == before.userId && after.accounts[e.user].version == e.version
            && after.accounts[e.user].email ==
               (match e.change
                case EmailChanged(email) => Some(Trim(email))
                case AuthPseudonymized => None
                case _ => before.email)
            && after.receipts == db.receipts[e.id := e]
            && |db.audits| <= |after.audits| && after.audits[..|db.audits|] == db.audits
            && forall a | a in after.audits[|db.audits|..] ::
                 a.cause == e && a.actor == (if e.change.AccountStateChanged? && e.change.actor != ""
                                             then e.change.actor else before.userId)
  {
  }

  /** The entries of an applied event: one for the account, or for an MFA event one for each assignment it changes. */
  lemma AuditOutcome(db: ApiDb, e: Event, local: Local)
    requires VerdictOf(db, e).Applied?
    ensures var own, entries := db.accounts[e.user].userId, Receive(db, e, local).audits[|db.audits|..];
            match e.change
            case MfaConfigured => NamesEach(entries, local, "global_role.activated", "coordinator_role.activated")
            case MfaDisabled => NamesEach(entries, local, "global_role.pending_mfa", "coordinator_role.pending_mfa")
            case AuthUserCreated(_, _) => entries == []
            case EmailVerified => entries == []
            case _ =>
              |entries| == 1 && entries[0].subject == own
              && entries[0].action == (match e.change
                                       case SessionsRevoked(_) => "account.sessions_revoked"
                                       case EmailChanged(_) => "account.email_changed"
                                       case AccountStateChanged(_, _, _) => "account.state_changed"
                                       case DeletionRequested(_) => "account.deletion_requested"
                                       case DeletionCancelled => "account.deletion_cancelled"
                                       case _ => "account.pseudonymized")
  {
    AppendedEntries(db, e, local);
    MfaEntries(db.accounts[e.user].userId, e, local);
  }

  lemma AppendedEntries(db: ApiDb, e: Event, local: Local)
    requires VerdictOf(db, e).Applied?
    ensures Receive(db, e, local).audits[|db.audits|..] == AuditsOf(db.accounts[e.user].userId, e, local)
  {
  }

  lemma MfaEntries(userId: string, e: Event, local: Local)
    ensures e.change.MfaConfigured? ==>
              NamesEach(AuditsOf(userId, e, local), local, "global_role.activated", "coordinator_role.activated")
    ensures e.change.MfaDisabled? ==>
              NamesEach(AuditsOf(userId, e, local), local, "global_role.pending_mfa", "coordinator_role.pending_mfa")
  {
  }

  /** First the global roles, then the coordinator roles, each named once and in order. */
  ghost predicate NamesEach(entries: seq<Audit>, local: Local, globalAction: string, coordinatorAction: string) {
    && |entries| == |local.globalRoles| + |local.coordinatorRoles|
    && (forall i | 0 <= i < |local.globalRoles| ::
          entries[i].subject == local.globalRoles[i] && entries[i].action == globalAction)
    && (forall i | 0 <= i < |local.coordinatorRoles| ::
          && entries[|local.globalRoles| + i].subject == local.coordinatorRoles[i]
          && entries[|local.globalRoles| + i].action == coordinatorAction)
  }

  ghost predicate AddressesDiffer(accounts: map<UserId, Account>) {
    forall a, b | a in accounts && b in accounts && a != b && accounts[a].email.Some? && accounts[b].email.Some? ::
      Lower(accounts[a].email.value) != Lower(accounts[b].email.value)
  }

  lemma ReceiveKeepsAddresses(db: ApiDb, e: Event, local: Local)
    requires AddressesDiffer(db.accounts)
    ensures AddressesDiffer(Receive(db, e, local).accounts)
  {
    var v := VerdictOf(db, e);
    if v.Created? {
      UnknownUserVerdict(db, e, local);
    } else if v.Applied? {
      NewEventVerdict(db, e, local);
      AppliedOutcome(db, e, local);
    }
  }

  /** Accounts whose addresses differ keep different ones, whatever is delivered. */
  lemma {:induction false} DeliveriesKeepAddressesApart(db: ApiDb, s: seq<Delivery>)
    requires AddressesDiffer(db.accounts)
    ensures AddressesDiffer(ReceiveAll(db, s).accounts)
    decreases s
  {
    if s != [] {
      ReceiveKeepsAddresses(db, s[0].event, s[0].local);
      DeliveriesKeepAddressesApart(Receive(db, s[0].event, s[0].local), s[1..]);
    }
  }
}
