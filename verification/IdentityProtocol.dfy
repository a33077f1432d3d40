/**
 The two services together. A run is any sequence of steps: account commands, deliveries that
 are lost, repeated, reordered or cut off by a crash, and access tokens issued along the way.
 Sessions, queued rows and tasks are the state of the program; log, held, effective, settled and
 issued only record what has happened, so that the theorems can speak about it.
 */
module IdentityProtocol {
  import opened Wrappers
  import opened Identity
  import opened AuthLifecycle
  import opened IdentityReceiver

  // ----- access tokens -----

  datatype Claims = Claims(
    subject: UserId, session: string, emailVerified: bool, state: AccountState, version: int, mfaVerified: bool)

  predicate IsMfaRecent(verifiedAt: Option<int>, now: int, maxAge: int) {
    verifiedAt.Some? && verifiedAt.value <= now && now - verifiedAt.value <= maxAge
  }

  /** The claims of a new token, or none when the account may not have one. */
  function BuildAccessClaims(
    user: UserId, u: AuthUser, sessionId: string, session: Session, now: int, maxAge: int): Option<Claims>
  {
    if !u.emailVerified || u.state != Active then None
    else Some(Claims(user, sessionId, true, Active, u.version, IsMfaRecent(session.mfaVerifiedAt, now, maxAge)))
  }

  predicate ValidClaims(c: Claims) {
    c.emailVerified && c.state == Active && c.version >= 1
  }

  /** The account that a token subject resolves to. */
  function ResolveAuthSubject(db: ApiDb, subject: UserId): Option<Account> {
    if subject in db.accounts && db.accounts[subject].linkActive && db.accounts[subject].deletedAt.None?
    then Some(db.accounts[subject])
    else None
  }

  predicate ClaimsMatchActor(c: Claims, a: Account) {
    c.state == a.state && c.version > 0 && c.version == a.version
  }

  predicate Authenticates(db: ApiDb, c: Claims) {
    && ValidClaims(c)
    && var a := ResolveAuthSubject(db, c.subject);
       a.Some? && ClaimsMatchActor(c, a.value)
  }

  // ----- the system -----

  /** The account state and the last recorded MFA value that auth held at one version. */
  datatype Snap = Snap(state: AccountState, mfa: bool)

  /** Holding: not yet published. Acked and Nacked: the reply has come in, or failed to. */
  datatype Phase = Holding | Acked | Nacked

  /** A process that has an outbox entry in hand; required when a caller waits for it. */
  datatype Task = Task(event: Event, required: bool, phase: Phase)

  datatype Sys = Sys(
    auth: AuthDb, api: ApiDb, tasks: map<nat, Task>,
    log: set<Event>, held: map<UserId, seq<Snap>>, effective: set<Event>, settled: set<Event>,
    issued: set<Claims>)

  datatype Label =
    | SignUp(user: UserId, email: string)
    | ImportLinked(user: UserId, u: AuthUser, account: Account)
    | ConfirmEmail(user: UserId)
    | SignIn(session: string, user: UserId, mfaAt: Option<int>)
    | Announce(user: UserId, change: Change, version: int, id: EntryId, now: int, task: nat, required: bool)
    | Lifecycle(user: UserId, command: Command, ids: Ids, now: int, task: nat, required: bool)
    | Claim(id: EntryId, now: int, task: nat)
    | Publish(task: nat, arrives: bool, replies: bool, local: Local)
    | RecordSuccess(task: nat, now: int)
    | RecordFailure(task: nat, now: int)
    | Crash(task: nat)
    | Issue(session: string, now: int, maxAge: int)

  predicate FreshId(s: Sys, id: EntryId) {
    id != "" && id !in s.auth.outbox && forall e | e in s.log :: e.id != id
  }

  function Last(h: seq<Snap>): Snap
    requires h != []
  {
    h[|h| - 1]
  }

  function SnapAfter(before: Snap, c: Command, state: AccountState): Snap {
    Snap(state, if c.RecordMfaState? then c.configured else before.mfa)
  }

  /** Announcements carry no account state: the version they carry was read some time before. */
  predicate Announcement(change: Change) {
    change.AuthUserCreated? || change.EmailVerified? || change.EmailChanged?
  }

  function StepSignUp(s: Sys, user: UserId, email: string): Sys {
    if user in s.auth.users || user in s.api.accounts then s
    else s.(auth := s.auth.(users := s.auth.users[user := AuthUser(email, false, Active, None, 1)]),
            held := s.held[user := [Snap(Active, false)]])
  }

  /** An account that both services start with, in agreement. */
  function StepImport(s: Sys, user: UserId, u: AuthUser, a: Account): Sys {
    if user in s.auth.users || user in s.api.accounts
       || u.version < 1 || a.version != u.version || a.state != u.state
    then s
    else s.(auth := s.auth.(users := s.auth.users[user := u]),
            api := s.api.(accounts := s.api.accounts[user := a]),
            held := s.held[user := seq(u.version, _ => Snap(a.state, a.mfa))])
  }

  function StepConfirm(s: Sys, user: UserId): Sys {
    if user !in s.auth.users then s
    else s.(auth := s.auth.(users := s.auth.users[user := s.auth.users[user].(emailVerified := true)]))
  }

  function StepSignIn(s: Sys, session: string, user: UserId, mfaAt: Option<int>): Sys {
    if user !in s.auth.users || s.auth.users[user].state != Active || session in s.auth.sessions then s
    else s.(auth := s.auth.(sessions := s.auth.sessions[session := Session(user, mfaAt)]))
  }

  function StepAnnounce(s: Sys, e: Event, now: int, task: nat, required: bool): Sys {
    if e.user !in s.auth.users || !(1 <= e.version <= s.auth.users[e.user].version)
       || !Announcement(e.change) || !FreshId(s, e.id) || task in s.tasks
    then s
    else s.(auth := s.auth.(outbox := s.auth.outbox[e.id := NewRow(IdentityPayload(e), now)]),
            tasks := s.tasks[task := Task(e, required, Holding)],
            log := s.log + {e})
  }

  function StepLifecycle(s: Sys, user: UserId, c: Command, ids: Ids, now: int, task: nat, required: bool): Sys {
    var r := RunCommand(s.auth, user, c, now, ids);
    if r.RolledBack? || !FreshId(s, ids.event) || task in s.tasks || user !in s.held || s.held[user] == []
    then s
    else
      var e := EventFor(user, s.auth.users[user].version + 1, c, now, ids);
      Commit(s, r.value, e, SnapAfter(Last(s.held[user]), c, r.value.users[user].state), task, required)
  }

  /** A transaction of the authentication service commits, and its caller starts to deliver. */
  function Commit(s: Sys, auth: AuthDb, e: Event, snap: Snap, task: nat, required: bool): Sys
    requires e.user in s.held
  {
    s.(auth := auth,
       tasks := s.tasks[task := Task(e, required, Holding)],
       log := s.log + {e},
       held := s.held[e.user := s.held[e.user] + [snap]])
  }

  function StepClaim(s: Sys, id: EntryId, now: int, task: nat): Sys {
    if id !in s.auth.outbox || !Claimable(s.auth.outbox[id], now) || task in s.tasks
       || !s.auth.outbox[id].payload.IdentityPayload?
    then s
    else s.(auth := s.auth.(outbox := s.auth.outbox[id := Lease(s.auth.outbox[id], now)]),
            tasks := s.tasks[task := Task(s.auth.outbox[id].payload.event, false, Holding)])
  }

  /** A request may never arrive, and its reply may be lost after it took effect. */
  function StepPublish(s: Sys, task: nat, arrives: bool, replies: bool, local: Local): Sys {
    if task !in s.tasks || s.tasks[task].phase != Holding then s
    else
      var e := s.tasks[task].event;
      var v := VerdictOf(s.api, e);
      if !arrives then s.(tasks := s.tasks[task := s.tasks[task].(phase := Nacked)])
      else
        s.(api := Receive(s.api, e, local),
           effective := if v.Applied? || v.Created? then s.effective + {e} else s.effective,
           tasks := s.tasks[task := s.tasks[task].(phase := if replies && Acknowledged(v) then Acked else Nacked)])
  }

  function StepSuccess(s: Sys, task: nat, now: int): Sys {
    if task !in s.tasks || s.tasks[task].phase != Acked then s
    else
      var t := s.tasks[task];
      s.(auth := s.auth.(outbox := Delivered(s.auth.outbox, t.event.id, now)),
         settled := if t.required then s.settled + {t.event} else s.settled,
         tasks := s.tasks - {task})
  }

  function StepFailure(s: Sys, task: nat, now: int): Sys {
    if task !in s.tasks || s.tasks[task].phase == Holding then s
    else
      s.(auth := s.auth.(outbox := Failed(s.auth.outbox, s.tasks[task].event.id, now)),
         tasks := s.tasks - {task})
  }

  function StepIssue(s: Sys, session: string, now: int, maxAge: int): Sys {
    if session !in s.auth.sessions || s.auth.sessions[session].user !in s.auth.users then s
    else
      var user := s.auth.sessions[session].user;
      var c := BuildAccessClaims(user, s.auth.users[user], session, s.auth.sessions[session], now, maxAge);
      if c.None? then s else s.(issued := s.issued + {c.value})
  }

  function Step(s: Sys, l: Label): Sys {
    match l
    case SignUp(user, email) => StepSignUp(s, user, email)
    case ImportLinked(user, u, a) => StepImport(s, user, u, a)
    case ConfirmEmail(user) => StepConfirm(s, user)
    case SignIn(session, user, mfaAt) => StepSignIn(s, session, user, mfaAt)
    case Announce(user, change, version, id, now, task, required) =>
      StepAnnounce(s, Event(id, user, version, change, now), now, task, required)
    case Lifecycle(user, c, ids, now, task, required) => StepLifecycle(s, user, c, ids, now, task, required)
    case Claim(id, now, task) => StepClaim(s, id, now, task)
    case Publish(task, arrives, replies, local) => StepPublish(s, task, arrives, replies, local)
    case RecordSuccess(task, now) => StepSuccess(s, task, now)
    case RecordFailure(task, now) => StepFailure(s, task, now)
    case Crash(task) => s.(tasks := s.tasks - {task})
    case Issue(session, now, maxAge) => StepIssue(s, session, now, maxAge)
  }

  function Run(s: Sys, labels: seq<Label>): Sys
    decreases labels
  {
    if labels == [] then s else Run(Step(s, labels[0]), labels[1..])
  }

  function Empty(): Sys {
    Sys(AuthDb(map[], map[], map[], map[]), ApiDb(map[], map[], []), map[], {}, map[], {}, {}, {})
  }

  // ----- what every step keeps -----

  ghost predicate HeldInv(users: map<UserId, AuthUser>, held: map<UserId, seq<Snap>>) {
    && held.Keys == users.Keys
    && forall u | u in users ::
         users[u].version >= 1 && |held[u]| == users[u].version && Last(held[u]).state == users[u].state
  }

  ghost predicate LogInv(users: map<UserId, AuthUser>, log: set<Event>) {
    && (forall e | e in log :: e.id != "" && e.user in users && 1 <= e.version <= users[e.user].version)
    && (forall e, f | e in log && f in log && e.id == f.id :: e == f)
  }

  ghost predicate RowsLogged(outbox: map<EntryId, OutboxRow>, log: set<Event>) {
    forall k | k in outbox && outbox[k].payload.IdentityPayload? ::
      outbox[k].payload.event in log && outbox[k].payload.event.id == k
  }

  ghost predicate TasksLogged(tasks: map<nat, Task>, log: set<Event>) {
    forall t | t in tasks :: tasks[t].event in log
  }

  predicate Has(receipts: map<EntryId, Event>, e: Event) {
    e.id in receipts && receipts[e.id] == e
  }

  ghost predicate ReceiptsInv(api: ApiDb, log: set<Event>) {
    forall id | id in api.receipts ::
      && api.receipts[id].id == id && api.receipts[id] in log
      && api.receipts[id].user in api.accounts
      && api.receipts[id].version <= api.accounts[api.receipts[id].user].version
  }

  /** The API's version never passes the authentication service's. */
  ghost predicate VersionsInv(users: map<UserId, AuthUser>, accounts: map<UserId, Account>) {
    forall u | u in accounts :: u in users && 1 <= accounts[u].version <= users[u].version
  }

  ghost predicate TasksConfirmed(tasks: map<nat, Task>, receipts: map<EntryId, Event>) {
    forall t | t in tasks && tasks[t].phase == Acked :: Has(receipts, tasks[t].event)
  }

  ghost predicate RowsConfirmed(outbox: map<EntryId, OutboxRow>, receipts: map<EntryId, Event>) {
    forall k | k in outbox && outbox[k].payload.IdentityPayload? && outbox[k].deliveredAt.Some? ::
      Has(receipts, outbox[k].payload.event)
  }

  ghost predicate SettledInv(settled: set<Event>, receipts: map<EntryId, Event>) {
    forall e | e in settled :: Has(receipts, e)
  }

  ghost predicate IssuedInv(users: map<UserId, AuthUser>, issued: set<Claims>) {
    forall c | c in issued :: c.subject in users && c.version <= users[c.subject].version
  }

  predicate PendingRow(outbox: map<EntryId, OutboxRow>, k: EntryId, u: UserId, version: int) {
    && k in outbox && outbox[k].payload.IdentityPayload? && outbox[k].deliveredAt.None?
    && outbox[k].payload.event.user == u && outbox[k].payload.event.version == version
  }

  /** Whatever the API has not caught up with is still waiting in the outbox. */
  ghost predicate CaughtUp(auth: AuthDb, accounts: map<UserId, Account>, u: UserId)
    requires u in auth.users
  {
    || (exists k :: PendingRow(auth.outbox, k, u, auth.users[u].version))
    || auth.users[u].version == 1
    || (u in accounts && accounts[u].version == auth.users[u].version)
  }

  ghost predicate DrainInv(auth: AuthDb, accounts: map<UserId, Account>) {
    forall u | u in auth.users :: CaughtUp(auth, accounts, u)
  }

  ghost predicate Inv(s: Sys) {
    && HeldInv(s.auth.users, s.held)
    && LogInv(s.auth.users, s.log)
    && RowsLogged(s.auth.outbox, s.log)
    && TasksLogged(s.tasks, s.log)
    && ReceiptsInv(s.api, s.log)
    && VersionsInv(s.auth.users, s.api.accounts)
    && TasksConfirmed(s.tasks, s.api.receipts)
    && RowsConfirmed(s.auth.outbox, s.api.receipts)
    && SettledInv(s.settled, s.api.receipts)
    && IssuedInv(s.auth.users, s.issued)
    && DrainInv(s.auth, s.api.accounts)
  }

  lemma EmptyInv()
    ensures Inv(Empty())
  {
  }

  // ----- a committed command -----

  lemma LifecycleStepRaises(s: Sys, user: UserId, c: Command, ids: Ids, now: int, task: nat, required: bool)
    returns (auth: AuthDb, e: Event, snap: Snap)
    requires user in s.auth.users && user in s.held && s.held[user] != []
    requires StepLifecycle(s, user, c, ids, now, task, required) != s
    ensures RaisesVersion(s.auth, auth, user, e) && FreshId(s, e.id) && task !in s.tasks
    ensures e == EventFor(user, s.auth.users[user].version + 1, c, now, ids)
    ensures RunCommand(s.auth, user, c, now, ids) == Committed(auth)
    ensures snap == SnapAfter(Last(s.held[user]), c, auth.users[user].state)
    ensures StepLifecycle(s, user, c, ids, now, task, required) == Commit(s, auth, e, snap, task, required)
  {
    CommandRaisesVersion(s.auth, user, c, now, ids);
    auth := RunCommand(s.auth, user, c, now, ids).value;
    e := EventFor(user, s.auth.users[user].version + 1, c, now, ids);
    snap := SnapAfter(Last(s.held[user]), c, auth.users[user].state);
  }

  lemma CommitKeepsHeld(s: Sys, auth: AuthDb, e: Event, snap: Snap)
    requires HeldInv(s.auth.users, s.held) && RaisesVersion(s.auth, auth, e.user, e)
    requires snap.state == auth.users[e.user].state
    ensures HeldInv(auth.users, s.held[e.user := s.held[e.user] + [snap]])
  {
  }

  lemma CommitKeepsLog(s: Sys, auth: AuthDb, e: Event)
    requires LogInv(s.auth.users, s.log) && RaisesVersion(s.auth, auth, e.user, e) && FreshId(s, e.id)
    requires forall u | u in s.auth.users :: s.auth.users[u].version >= 1
    ensures LogInv(auth.users, s.log + {e})
  {
    forall f | f in s.log + {e}
      ensures f.id != "" && f.user in auth.users && 1 <= f.version <= auth.users[f.user].version
    {
    }
  }

  lemma CommitKeepsRows(s: Sys, auth: AuthDb, e: Event)
    requires RowsLogged(s.auth.outbox, s.log) && RaisesVersion(s.auth, auth, e.user, e)
    ensures RowsLogged(auth.outbox, s.log + {e})
  {
  }

  lemma CommitKeepsConfirmations(s: Sys, auth: AuthDb, e: Event)
    requires Inv(s) && RaisesVersion(s.auth, auth, e.user, e)
    ensures ReceiptsInv(s.api, s.log + {e})
    ensures VersionsInv(auth.users, s.api.accounts)
    ensures RowsConfirmed(auth.outbox, s.api.receipts)
    ensures IssuedInv(auth.users, s.issued)
  {
    assert forall u | u in s.auth.users :: s.auth.users[u].version <= auth.users[u].version;
  }

  lemma CommitKeepsDrain(db: AuthDb, auth: AuthDb, accounts: map<UserId, Account>, e: Event)
    requires DrainInv(db, accounts) && RaisesVersion(db, auth, e.user, e)
    ensures DrainInv(auth, accounts)
  {
    forall u | u in auth.users
      ensures CaughtUp(auth, accounts, u)
    {
      assert u in db.users && CaughtUp(db, accounts, u);
      if u == e.user {
        assert PendingRow(auth.outbox, e.id, u, auth.users[u].version);
      } else if k :| PendingRow(db.outbox, k, u, db.users[u].version) {
        assert PendingRow(auth.outbox, k, u, auth.users[u].version);
      }
    }
  }

  lemma CommitKeepsTasks(s: Sys, e: Event, task: nat, required: bool)
    requires TasksLogged(s.tasks, s.log) && TasksConfirmed(s.tasks, s.api.receipts)
    ensures TasksLogged(s.tasks[task := Task(e, required, Holding)], s.log + {e})
    ensures TasksConfirmed(s.tasks[task := Task(e, required, Holding)], s.api.receipts)
  {
  }

  lemma CommitKeepsInv(s: Sys, auth: AuthDb, e: Event, snap: Snap, task: nat, required: bool)
    requires Inv(s) && RaisesVersion(s.auth, auth, e.user, e) && FreshId(s, e.id)
    requires snap.state == auth.users[e.user].state
    ensures Inv(Commit(s, auth, e, snap, task, required))
  {
    CommitKeepsHeld(s, auth, e, snap);
    CommitKeepsLog(s, auth, e);
    CommitKeepsRows(s, auth, e);
    CommitKeepsTasks(s, e, task, required);
    CommitKeepsConfirmations(s, auth, e);
    CommitKeepsDrain(s.auth, auth, s.api.accounts, e);
  }

  lemma LifecycleKeepsInv(s: Sys, user: UserId, c: Command, ids: Ids, now: int, task: nat, required: bool)
    requires Inv(s)
    ensures Inv(StepLifecycle(s, user, c, ids, now, task, required))
  {
    if StepLifecycle(s, user, c, ids, now, task, required) != s {
      assert user in s.auth.users;
      var auth, e, snap := LifecycleStepRaises(s, user, c, ids, now, task, required);
      CommitKeepsInv(s, auth, e, snap, task, required);
    }
  }

  // ----- a delivery -----

  lemma ReceiveKeepsReceipts(api: ApiDb, log: set<Event>, e: Event, local: Local)
    requires ReceiptsInv(api, log) && e in log
    ensures ReceiptsInv(Receive(api, e, local), log)
    ensures forall f | Has(api.receipts, f) :: Has(Receive(api, e, local).receipts, f)
    ensures Acknowledged(VerdictOf(api, e)) ==> Has(Receive(api, e, local).receipts, e)
  {
    AcknowledgedVersionReached(api, e, local);
  }

  lemma ReceiveKeepsVersions(users: map<UserId, AuthUser>, api: ApiDb, log: set<Event>, e: Event, local: Local)
    requires VersionsInv(users, api.accounts) && LogInv(users, log) && e in log
    ensures VersionsInv(users, Receive(api, e, local).accounts)
  {
  }

  lemma ReceiveKeepsDrain(auth: AuthDb, api: ApiDb, log: set<Event>, e: Event, local: Local)
    requires DrainInv(auth, api.accounts) && VersionsInv(auth.users, api.accounts)
    requires ReceiptsInv(api, log) && LogInv(auth.users, log) && e in log
    ensures DrainInv(auth, Receive(api, e, local).accounts)
  {
    AcknowledgedVersionReached(api, e, local);
    ReceiveKeepsVersions(auth.users, api, log, e, local);
    forall u | u in auth.users
      ensures CaughtUp(auth, Receive(api, e, local).accounts, u)
    {
      assert CaughtUp(auth, api.accounts, u);
    }
  }

  lemma ConfirmationsGrow(
    s: Sys, receipts: map<EntryId, Event>, tasks: map<nat, Task>, task: nat)
    requires TasksConfirmed(s.tasks, s.api.receipts) && TasksLogged(s.tasks, s.log)
    requires RowsConfirmed(s.auth.outbox, s.api.receipts) && SettledInv(s.settled, s.api.receipts)
    requires forall f | Has(s.api.receipts, f) :: Has(receipts, f)
    requires task in s.tasks && task in tasks && tasks == s.tasks[task := tasks[task]]
    requires tasks[task].event == s.tasks[task].event
    requires tasks[task].phase == Acked ==> Has(receipts, s.tasks[task].event)
    ensures TasksConfirmed(tasks, receipts) && TasksLogged(tasks, s.log)
    ensures RowsConfirmed(s.auth.outbox, receipts) && SettledInv(s.settled, receipts)
  {
  }

  lemma PublishKeepsInv(s: Sys, task: nat, arrives: bool, replies: bool, local: Local)
    requires Inv(s)
    ensures Inv(StepPublish(s, task, arrives, replies, local))
  {
    if task in s.tasks && s.tasks[task].phase == Holding {
      var s' := StepPublish(s, task, arrives, replies, local);
      if arrives {
        var e := s.tasks[task].event;
        ReceiveKeepsReceipts(s.api, s.log, e, local);
        ReceiveKeepsVersions(s.auth.users, s.api, s.log, e, local);
        ReceiveKeepsDrain(s.auth, s.api, s.log, e, local);
      }
      ConfirmationsGrow(s, s'.api.receipts, s'.tasks, task);
    }
  }

  // ----- every other step -----

  lemma AnnounceKeepsLogs(s: Sys, e: Event, now: int)
    requires Inv(s) && FreshId(s, e.id)
    requires e.user in s.auth.users && 1 <= e.version <= s.auth.users[e.user].version
    ensures LogInv(s.auth.users, s.log + {e})
    ensures RowsLogged(s.auth.outbox[e.id := NewRow(IdentityPayload(e), now)], s.log + {e})
    ensures ReceiptsInv(s.api, s.log + {e})
    ensures RowsConfirmed(s.auth.outbox[e.id := NewRow(IdentityPayload(e), now)], s.api.receipts)
  {
  }

  lemma AnnounceKeepsInv(s: Sys, e: Event, now: int, task: nat, required: bool)
    requires Inv(s)
    ensures Inv(StepAnnounce(s, e, now, task, required))
  {
    var s' := StepAnnounce(s, e, now, task, required);
    if s' != s {
      AnnounceKeepsLogs(s, e, now);
      CommitKeepsTasks(s, e, task, required);
      SameOutboxKeepsDrain(s.auth, s'.auth, s.api);
    }
  }

  /** Rewriting outbox rows keeps what is pending, unless it confirms what the API has received. */
  lemma SameOutboxKeepsDrain(db: AuthDb, auth: AuthDb, api: ApiDb)
    requires DrainInv(db, api.accounts) && VersionsInv(db.users, api.accounts)
    requires auth.users.Keys == db.users.Keys
    requires forall u | u in db.users :: auth.users[u].version == db.users[u].version
    requires forall k | k in db.outbox && db.outbox[k].deliveredAt.None? ::
               && k in auth.outbox && auth.outbox[k].payload == db.outbox[k].payload
               && (auth.outbox[k].deliveredAt.None? || !db.outbox[k].payload.IdentityPayload? ||
                   (var e := db.outbox[k].payload.event;
                    e.user in api.accounts && e.version <= api.accounts[e.user].version))
    ensures DrainInv(auth, api.accounts)
  {
    forall u | u in auth.users
      ensures CaughtUp(auth, api.accounts, u)
    {
      assert CaughtUp(db, api.accounts, u);
      if k :| PendingRow(db.outbox, k, u, db.users[u].version) {
        if auth.outbox[k].deliveredAt.None? {
          assert PendingRow(auth.outbox, k, u, auth.users[u].version);
        }
      }
    }
  }

  lemma NewUserKeepsDrain(db: AuthDb, auth: AuthDb, accounts: map<UserId, Account>, accounts': map<UserId, Account>,
                          u: UserId)
    requires DrainInv(db, accounts) && u !in db.users && u !in accounts
    requires u in auth.users && auth == db.(users := db.users[u := auth.users[u]])
    requires || (accounts' == accounts && auth.users[u].version == 1)
             || (u in accounts' && accounts' == accounts[u := accounts'[u]]
                 && accounts'[u].version == auth.users[u].version)
    ensures DrainInv(auth, accounts')
  {
    forall v | v in auth.users
      ensures CaughtUp(auth, accounts', v)
    {
      if v != u {
        assert CaughtUp(db, accounts, v);
      }
    }
  }

  lemma NewUserKeepsLogs(s: Sys, user: UserId, u: AuthUser, h: seq<Snap>)
    requires Inv(s) && user !in s.auth.users
    requires u.version >= 1 && |h| == u.version && Last(h).state == u.state
    ensures HeldInv(s.auth.users[user := u], s.held[user := h])
    ensures LogInv(s.auth.users[user := u], s.log)
    ensures IssuedInv(s.auth.users[user := u], s.issued)
    ensures VersionsInv(s.auth.users[user := u], s.api.accounts)
  {
  }

  lemma SignUpKeepsInv(s: Sys, user: UserId, email: string)
    requires Inv(s)
    ensures Inv(StepSignUp(s, user, email))
  {
    var s' := StepSignUp(s, user, email);
    if s' != s {
      NewUserKeepsLogs(s, user, AuthUser(email, false, Active, None, 1), [Snap(Active, false)]);
      NewUserKeepsDrain(s.auth, s'.auth, s.api.accounts, s'.api.accounts, user);
    }
  }

  lemma ImportKeepsInv(s: Sys, user: UserId, u: AuthUser, a: Account)
    requires Inv(s)
    ensures Inv(StepImport(s, user, u, a))
  {
    var s' := StepImport(s, user, u, a);
    if s' != s {
      assert Last(s'.held[user]) == Snap(a.state, a.mfa);
      NewUserKeepsLogs(s, user, u, s'.held[user]);
      NewUserKeepsDrain(s.auth, s'.auth, s.api.accounts, s'.api.accounts, user);
      assert ReceiptsInv(s'.api, s'.log);
    }
  }

  /** Steps that rewrite outbox rows in place, perhaps taking up or finishing a task. */
  lemma RowStepKeepsInv(s: Sys, s': Sys)
    requires Inv(s)
    requires s' == s.(auth := s.auth.(outbox := s'.auth.outbox), tasks := s'.tasks, settled := s'.settled)
    requires TasksLogged(s'.tasks, s.log) && TasksConfirmed(s'.tasks, s.api.receipts)
    requires SettledInv(s'.settled, s.api.receipts)
    requires s'.auth.outbox.Keys == s.auth.outbox.Keys
    requires forall k | k in s.auth.outbox ::
               && s'.auth.outbox[k].payload == s.auth.outbox[k].payload
               && (s'.auth.outbox[k].deliveredAt.Some? && s.auth.outbox[k].payload.IdentityPayload? ==>
                     Has(s.api.receipts, s.auth.outbox[k].payload.event))
    ensures Inv(s')
  {
    SameOutboxKeepsDrain(s.auth, s'.auth, s.api);
  }

  lemma ClaimKeepsInv(s: Sys, id: EntryId, now: int, task: nat)
    requires Inv(s)
    ensures Inv(StepClaim(s, id, now, task))
  {
    var s' := StepClaim(s, id, now, task);
    if s' != s {
      assert s.auth.outbox[id].payload.event in s.log;
      RowStepKeepsInv(s, s');
    }
  }

  lemma SuccessKeepsInv(s: Sys, task: nat, now: int)
    requires Inv(s)
    ensures Inv(StepSuccess(s, task, now))
  {
    var s' := StepSuccess(s, task, now);
    if task in s.tasks && s.tasks[task].phase == Acked {
      var e := s.tasks[task].event;
      assert Has(s.api.receipts, e) && e in s.log;
      assert e.id in s.auth.outbox && s.auth.outbox[e.id].payload.IdentityPayload? ==>
               s.auth.outbox[e.id].payload.event == e;
      RowStepKeepsInv(s, s');
    }
  }

  lemma FailureKeepsInv(s: Sys, task: nat, now: int)
    requires Inv(s)
    ensures Inv(StepFailure(s, task, now))
  {
    RowStepKeepsInv(s, StepFailure(s, task, now));
  }

  /** Steps that touch no version and no outbox row. */
  lemma SessionStepKeepsInv(s: Sys, s': Sys)
    requires Inv(s)
    requires s' == s.(auth := s.auth.(users := s'.auth.users, sessions := s'.auth.sessions), issued := s'.issued)
    requires s'.auth.users.Keys == s.auth.users.Keys
    requires forall u | u in s.auth.users ::
               s'.auth.users[u].version == s.auth.users[u].version && s'.auth.users[u].state == s.auth.users[u].state
    requires IssuedInv(s.auth.users, s'.issued)
    ensures Inv(s')
  {
    SameOutboxKeepsDrain(s.auth, s'.auth, s.api);
  }

  lemma CrashKeepsInv(s: Sys, task: nat)
    requires Inv(s)
    ensures Inv(s.(tasks := s.tasks - {task}))
  {
    RowStepKeepsInv(s, s.(tasks := s.tasks - {task}));
  }

  lemma ConfirmKeepsInv(s: Sys, user: UserId)
    requires Inv(s)
    ensures Inv(StepConfirm(s, user))
  {
    SessionStepKeepsInv(s, StepConfirm(s, user));
  }

  lemma SignInKeepsInv(s: Sys, session: string, user: UserId, mfaAt: Option<int>)
    requires Inv(s)
    ensures Inv(StepSignIn(s, session, user, mfaAt))
  {
    SessionStepKeepsInv(s, StepSignIn(s, session, user, mfaAt));
  }

  lemma IssueKeepsInv(s: Sys, session: string, now: int, maxAge: int)
    requires Inv(s)
    ensures Inv(StepIssue(s, session, now, maxAge))
  {
    SessionStepKeepsInv(s, StepIssue(s, session, now, maxAge));
  }

  lemma StepKeepsInv(s: Sys, l: Label)
    requires Inv(s)
    ensures Inv(Step(s, l))
  {
    match l {
      case Lifecycle(user, c, ids, now, task, required) => LifecycleKeepsInv(s, user, c, ids, now, task, required);
      case Publish(task, arrives, replies, local) => PublishKeepsInv(s, task, arrives, replies, local);
      case Announce(user, change, version, id, now, task, required) =>
        AnnounceKeepsInv(s, Event(id, user, version, change, now), now, task, required);
      case SignUp(user, email) => SignUpKeepsInv(s, user, email);
      case ImportLinked(user, u, a) => ImportKeepsInv(s, user, u, a);
      case Claim(id, now, task) => ClaimKeepsInv(s, id, now, task);
      case RecordSuccess(task, now) => SuccessKeepsInv(s, task, now);
      case RecordFailure(task, now) => FailureKeepsInv(s, task, now);
      case Crash(task) => CrashKeepsInv(s, task);
      case ConfirmEmail(user) => ConfirmKeepsInv(s, user);
      case SignIn(session, user, mfaAt) => SignInKeepsInv(s, session, user, mfaAt);
      case Issue(session, now, maxAge) => IssueKeepsInv(s, session, now, maxAge);
    }
  }

  lemma {:induction false} RunKeepsInv(s: Sys, labels: seq<Label>)
    requires Inv(s)
    ensures Inv(Run(s, labels))
    decreases labels
  {
    if labels != [] {
      StepKeepsInv(s, labels[0]);
      RunKeepsInv(Step(s, labels[0]), labels[1..]);
    }
  }
}
