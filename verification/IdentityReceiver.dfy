/**
 The receiver: the API applies identity events in one transaction each, keyed by a receipt. A
 replay is acknowledged without effect, a version older than the stored one is acknowledged and
 dropped, and everything else raises the stored version and applies the change.
 Hashes are injective, so a receipt keeps the event itself.
 */
module IdentityReceiver {
  import opened Wrappers
  import opened Identity

  datatype Account = Account(
    userId: string, state: AccountState, version: int, mfa: bool, linkActive: bool,
    deletedAt: Option<int>, email: Option<string>)

  datatype Audit = Audit(actor: string, action: string, subject: string, cause: Event)

  datatype ApiDb = ApiDb(
    receipts: map<EntryId, Event>, accounts: map<UserId, Account>, audits: seq<Audit>)

  datatype Verdict = Applied | Created | Replayed | Stale | Conflict | NotLinked | Refused

  /** The verdicts that answer the sender with success. */
  predicate Acknowledged(v: Verdict) {
    v.Applied? || v.Created? || v.Replayed? || v.Stale?
  }

  /**
   What the API's own tables contribute to a delivery: the id for a new account, and the assignments that
   the bulk updates of an MFA event change, in the order in which they are returned.
   */
  datatype Local = Local(newId: string, globalRoles: seq<string>, coordinatorRoles: seq<string>)

  function Max(a: int, b: int): int { if a >= b then a else b }

  predicate EmailTaken(accounts: map<UserId, Account>, subject: UserId, email: string) {
    exists other | other in accounts && other != subject ::
      accounts[other].email.Some? && Lower(accounts[other].email.value) == Lower(email)
  }

  /** A subject's own address is never in its way. */
  lemma EmailTakenIgnoresSubject(accounts: map<UserId, Account>, subject: UserId, a: Account, email: string)
    ensures EmailTaken(accounts[subject := a], subject, email) == EmailTaken(accounts, subject, email)
  {
    var updated := accounts[subject := a];
    forall other | other in accounts && other != subject
      ensures other in updated && updated[other] == accounts[other]
    {
    }
    if EmailTaken(accounts, subject, email) {
      var other :| other in accounts && other != subject
        && accounts[other].email.Some? && Lower(accounts[other].email.value) == Lower(email);
      assert other in updated;
    }
  }

  /** Whether the change itself is acceptable for a linked account. */
  predicate ChangeAccepted(accounts: map<UserId, Account>, e: Event) {
    match e.change
    case EmailChanged(email) => Trim(email) != [] && !EmailTaken(accounts, e.user, Trim(email))
    case AccountStateChanged(state, _, _) => state == Active || state == Suspended
    case Unsupported(_) => false
    case _ => true
  }

  function ChangedAccount(a: Account, e: Event): Account {
    match e.change
    case EmailChanged(email) => a.(email := Some(Trim(email)))
    case AccountStateChanged(state, _, _) => a.(state := state)
    case EmailVerified => a.(linkActive := true)
    case DeletionRequested(_) => a.(state := DeletionPending)
    case DeletionCancelled => a.(state := Active)
    case AuthPseudonymized =>
      a.(state := Deleted, deletedAt := Some(e.occurredAt), linkActive := false, email := None)
    case MfaConfigured => a.(mfa := true)
    case MfaDisabled => a.(mfa := false)
    case _ => a
  }

  function AuditEach(actor: string, action: string, subjects: seq<string>, e: Event): seq<Audit> {
    seq(|subjects|, i requires 0 <= i < |subjects| => Audit(actor, action, subjects[i], e))
  }

  /** The audit entries that applying an event appends: an MFA event leaves one for each assignment it changes. */
  function AuditsOf(userId: string, e: Event, local: Local): seq<Audit> {
    match e.change
    case SessionsRevoked(_) => [Audit(userId, "account.sessions_revoked", userId, e)]
    case EmailChanged(_) => [Audit(userId, "account.email_changed", userId, e)]
    case AccountStateChanged(_, _, actor) =>
      [Audit(if actor != "" then actor else userId, "account.state_changed", userId, e)]
    case DeletionRequested(_) => [Audit(userId, "account.deletion_requested", userId, e)]
    case DeletionCancelled => [Audit(userId, "account.deletion_cancelled", userId, e)]
    case AuthPseudonymized => [Audit(userId, "account.pseudonymized", userId, e)]
    case MfaConfigured =>
      AuditEach(userId, "global_role.activated", local.globalRoles, e)
      + AuditEach(userId, "coordinator_role.activated", local.coordinatorRoles, e)
    case MfaDisabled =>
      AuditEach(userId, "global_role.pending_mfa", local.globalRoles, e)
      + AuditEach(userId, "coordinator_role.pending_mfa", local.coordinatorRoles, e)
    case _ => []
  }

  function NewAccount(e: Event, userId: string): Account
    requires e.change.AuthUserCreated?
  {
    Account(userId, Active, e.version, false, e.change.emailVerified, None, Some(e.change.email))
  }

  function VerdictOf(db: ApiDb, e: Event): Verdict {
    if e.id == "" || e.version < 1 then Refused
    else if e.id in db.receipts then if db.receipts[e.id] == e then Replayed else Conflict
    else if e.user !in db.accounts then
      if !e.change.AuthUserCreated? then NotLinked
      else if EmailTaken(db.accounts, e.user, e.change.email) then Refused
      else Created
    else if e.version < db.accounts[e.user].version then Stale
    else if ChangeAccepted(db.accounts, e) then Applied
    else Refused
  }

  /** The database after receiving an event. */
  function Receive(db: ApiDb, e: Event, local: Local): ApiDb {
    match VerdictOf(db, e)
    case Created =>
      db.(receipts := db.receipts[e.id := e], accounts := db.accounts[e.user := NewAccount(e, local.newId)])
    case Stale => db.(receipts := db.receipts[e.id := e])
    case Applied =>
      var a := db.accounts[e.user];
      ApiDb(
        db.receipts[e.id := e],
        db.accounts[e.user := ChangedAccount(a, e).(version := Max(a.version, e.version))],
        db.audits + AuditsOf(a.userId, e, local))
    case _ => db
  }

  class Receiver {
    var receipts: map<EntryId, Event>
    var accounts: map<UserId, Account>
    var audits: seq<Audit>

    function Db(): ApiDb
      reads this
    {
      ApiDb(receipts, accounts, audits)
    }

    constructor (db: ApiDb)
      ensures Db() == db
    {
      receipts, accounts, audits := db.receipts, db.accounts, db.audits;
    }

    method Rollback(db: ApiDb)
      modifies this
      ensures Db() == db
    {
      receipts, accounts, audits := db.receipts, db.accounts, db.audits;
    }

    method ApplyIdentityEvent(e: Event, local: Local) returns (v: Verdict)
      modifies this
      ensures v == VerdictOf(old(Db()), e)
      ensures Db() == Receive(old(Db()), e, local)
    {
      var saved := Db();
      if e.id == "" {
        return Refused;
      }
      if e.version < 1 {
        return Refused;
      }
      if e.id in receipts {
        return if receipts[e.id] == e then Replayed else Conflict;
      }
      receipts := receipts[e.id := e];
      if e.user !in accounts {
        if !e.change.AuthUserCreated? {
          Rollback(saved);
          return NotLinked;
        }
        if EmailTaken(accounts, e.user, e.change.email) {
          Rollback(saved);
          return Refused;
        }
        accounts := accounts[e.user := NewAccount(e, local.newId)];
        return Created;
      }
      if e.version < accounts[e.user].version {
        return Stale;
      }
      accounts := accounts[e.user := accounts[e.user].(version := Max(accounts[e.user].version, e.version))];
      if e.change.EmailChanged? {
        EmailTakenIgnoresSubject(saved.accounts, e.user, accounts[e.user], Trim(e.change.newEmail));
      }
      var ok := ApplyIdentityChange(e, local);
      if !ok {
        Rollback(saved);
        return Refused;
      }
      return Applied;
    }

    /** The loop over the assignments that a bulk update changed. */
    method AuditAssignments(actor: string, action: string, subjects: seq<string>, e: Event)
      modifies this`audits
      ensures audits == old(audits) + AuditEach(actor, action, subjects, e)
    {
      var i := 0;
      while i < |subjects|
        invariant 0 <= i <= |subjects|
        invariant audits == old(audits) + AuditEach(actor, action, subjects, e)[..i]
      {
        audits := audits + [Audit(actor, action, subjects[i], e)];
        i := i + 1;
      }
    }

    method ApplyIdentityChange(e: Event, local: Local) returns (ok: bool)
      requires e.user in accounts
      modifies this`accounts, this`audits
      ensures ok == ChangeAccepted(old(accounts), e)
      ensures ok ==> accounts == old(accounts)[e.user := ChangedAccount(old(accounts)[e.user], e)]
      ensures ok ==> audits == old(audits) + AuditsOf(old(accounts)[e.user].userId, e, local)
    {
      var a := accounts[e.user];
      match e.change {
        case AuthUserCreated(_, _) =>
        case SessionsRevoked(_) => audits := audits + [Audit(a.userId, "account.sessions_revoked", a.userId, e)];
        case EmailChanged(email) =>
          if Trim(email) == [] || EmailTaken(accounts, e.user, Trim(email)) {
            return false;
          }
          accounts := accounts[e.user := a.(email := Some(Trim(email)))];
          audits := audits + [Audit(a.userId, "account.email_changed", a.userId, e)];
        case AccountStateChanged(state, _, actor) =>
          if state != Active && state != Suspended {
            return false;
          }
          accounts := accounts[e.user := a.(state := state)];
          var auditActor := a.userId;
          if actor != "" {
            auditActor := actor;
          }
          audits := audits + [Audit(auditActor, "account.state_changed", a.userId, e)];
        case EmailVerified => accounts := accounts[e.user := a.(linkActive := true)];
        case DeletionRequested(_) =>
          accounts := accounts[e.user := a.(state := DeletionPending)];
          audits := audits + [Audit(a.userId, "account.deletion_requested", a.userId, e)];
        case DeletionCancelled =>
          accounts := accounts[e.user := a.(state := Active)];
          audits := audits + [Audit(a.userId, "account.deletion_cancelled", a.userId, e)];
        case AuthPseudonymized =>
          a := a.(email := None);
          a := a.(state := Deleted, deletedAt := Some(e.occurredAt));
          a := a.(linkActive := false);
          accounts := accounts[e.user := a];
          audits := audits + [Audit(a.userId, "account.pseudonymized", a.userId, e)];
        case MfaConfigured =>
          accounts := accounts[e.user := a.(mfa := true)];
          AuditAssignments(a.userId, "global_role.activated", local.globalRoles, e);
          AuditAssignments(a.userId, "coordinator_role.activated", local.coordinatorRoles, e);
        case MfaDisabled =>
          accounts := accounts[e.user := a.(mfa := false)];
          AuditAssignments(a.userId, "global_role.pending_mfa", local.globalRoles, e);
          AuditAssignments(a.userId, "coordinator_role.pending_mfa", local.coordinatorRoles, e);
        case Unsupported(_) => return false;
      }
      return true;
    }
  }

  // ----- delivering a schedule of events -----

  datatype Delivery = Delivery(event: Event, local: Local)

  function ReceiveAll(db: ApiDb, s: seq<Delivery>): ApiDb
    decreases s
  {
    if s == [] then db else ReceiveAll(Receive(db, s[0].event, s[0].local), s[1..])
  }

  /** The verdicts that change the database. */
  predicate Effective(v: Verdict) {
    v.Applied? || v.Created? || v.Stale?
  }

  /** The deliveries of a schedule that were taken in: each is the first success for its event. */
  function TakenIn(db: ApiDb, s: seq<Delivery>): (r: seq<Delivery>)
    ensures forall d | d in r :: d in s
    decreases s
  {
    if s == [] then []
    else
      var rest := TakenIn(Receive(db, s[0].event, s[0].local), s[1..]);
      if Effective(VerdictOf(db, s[0].event)) then [s[0]] + rest else rest
  }

  predicate ReceiptsOnlyGrow(db: ApiDb, after: ApiDb) {
    forall id | id in db.receipts :: id in after.receipts && after.receipts[id] == db.receipts[id]
  }

  lemma {:induction false} ReceiptsGrow(db: ApiDb, s: seq<Delivery>)
    ensures ReceiptsOnlyGrow(db, ReceiveAll(db, s))
    decreases s
  {
    if s != [] {
      ReceiptsGrow(Receive(db, s[0].event, s[0].local), s[1..]);
    }
  }

  lemma {:induction false} TakenInIsNew(db: ApiDb, s: seq<Delivery>)
    ensures forall d | d in TakenIn(db, s) :: d.event.id !in db.receipts
    ensures forall i, j | 0 <= i < j < |TakenIn(db, s)| ::
              TakenIn(db, s)[i].event.id != TakenIn(db, s)[j].event.id
    decreases s
  {
    if s != [] {
      TakenInIsNew(Receive(db, s[0].event, s[0].local), s[1..]);
    }
  }

  /**
   Lost, duplicated and retried deliveries change nothing: any schedule ends exactly where its
   taken-in deliveries end when each is made once, and no event is taken in twice.
   */
  lemma {:induction false} ScheduleEqualsOnceEach(db: ApiDb, s: seq<Delivery>)
    ensures ReceiveAll(db, s) == ReceiveAll(db, TakenIn(db, s))
    ensures forall i, j | 0 <= i < j < |TakenIn(db, s)| ::
              TakenIn(db, s)[i].event.id != TakenIn(db, s)[j].event.id
    decreases s
  {
    TakenInIsNew(db, s);
    if s != [] {
      var next := Receive(db, s[0].event, s[0].local);
      ScheduleEqualsOnceEach(next, s[1..]);
      var rest := TakenIn(next, s[1..]);
      if Effective(VerdictOf(db, s[0].event)) {
        assert ([s[0]] + rest)[1..] == rest;
      }
    }
  }

  function FirstOccurrences(s: seq<Delivery>, seen: set<EntryId>): seq<Delivery> {
    if s == [] then []
    else if s[0].event.id in seen then FirstOccurrences(s[1..], seen)
    else [s[0]] + FirstOccurrences(s[1..], seen + {s[0].event.id})
  }

  /** The guards that a delivery must pass on its first arrival: a link or a new account, and a free address. */
  predicate Admitted(db: ApiDb, e: Event) {
    && e.id != "" && e.version >= 1
    && if e.user in db.accounts then e.version < db.accounts[e.user].version || ChangeAccepted(db.accounts, e)
       else e.change.AuthUserCreated? && !EmailTaken(db.accounts, e.user, e.change.email)
  }

  /** Every event passes the guards when it arrives for the first time. */
  predicate AdmittedAtFirst(db: ApiDb, s: seq<Delivery>)
    decreases s
  {
    s == [] ||
    ((s[0].event.id in db.receipts || Admitted(db, s[0].event))
     && AdmittedAtFirst(Receive(db, s[0].event, s[0].local), s[1..]))
  }

  lemma IneffectiveChangesNothing(db: ApiDb, d: Delivery)
    requires !Effective(VerdictOf(db, d.event))
    ensures Receive(db, d.event, d.local) == db
  {
  }

  /** The first delivery that is taken in finds the database as it was. */
  lemma {:induction false} FirstTakenIn(db: ApiDb, s: seq<Delivery>)
    requires TakenIn(db, s) != []
    ensures Effective(VerdictOf(db, TakenIn(db, s)[0].event))
    decreases s
  {
    if !Effective(VerdictOf(db, s[0].event)) {
      IneffectiveChangesNothing(db, s[0]);
      FirstTakenIn(db, s[1..]);
    }
  }

  /**
   A duplicated schedule, in whatever order, takes in exactly the first occurrence of each event if and only
   if every event passes the guards when it first arrives; then it ends where the first occurrences end.
   */
  lemma {:induction false} TakenInAreFirstOccurrencesIff(db: ApiDb, s: seq<Delivery>)
    ensures TakenIn(db, s) == FirstOccurrences(s, db.receipts.Keys) <==> AdmittedAtFirst(db, s)
    ensures AdmittedAtFirst(db, s) ==> ReceiveAll(db, s) == ReceiveAll(db, FirstOccurrences(s, db.receipts.Keys))
    decreases s
  {
    ScheduleEqualsOnceEach(db, s);
    if s != [] {
      var d := s[0];
      var next := Receive(db, d.event, d.local);
      TakenInAreFirstOccurrencesIff(next, s[1..]);
      if d.event.id in db.receipts {
        IneffectiveChangesNothing(db, d);
      } else if Admitted(db, d.event) {
        assert next.receipts.Keys == db.receipts.Keys + {d.event.id};
        assert ([d] + TakenIn(next, s[1..]))[1..] == TakenIn(next, s[1..]);
        assert ([d] + FirstOccurrences(s[1..], next.receipts.Keys))[1..]
               == FirstOccurrences(s[1..], next.receipts.Keys);
      } else {
        IneffectiveChangesNothing(db, d);
        if TakenIn(db, s[1..]) != [] {
          FirstTakenIn(db, s[1..]);
        }
      }
    }
  }

  /** Lifecycle events other than a change of address pass the guards whenever they arrive. */
  predicate AlwaysAdmitted(e: Event) {
    && e.id != "" && e.version >= 1
    && !e.change.EmailChanged? && !e.change.Unsupported?
    && (e.change.AccountStateChanged? ==> e.change.state == Active || e.change.state == Suspended)
  }

  /** So for linked accounts only a change of address can make the first occurrences differ. */
  lemma {:induction false} LinkedLifecycleIsAdmitted(db: ApiDb, s: seq<Delivery>)
    requires forall d | d in s :: d.event.user in db.accounts && AlwaysAdmitted(d.event)
    ensures AdmittedAtFirst(db, s)
    decreases s
  {
    if s != [] {
      assert s[0] in s;
      LinkedLifecycleIsAdmitted(Receive(db, s[0].event, s[0].local), s[1..]);
    }
  }

  // ----- a change of address that is taken in only when it is repeated -----

  function AccountWith(userId: string, email: string): Account {
    Account(userId, Active, 1, false, true, None, Some(email))
  }

  function TwoAccounts(): ApiDb {
    ApiDb(map[], map["a" := AccountWith("1", "x"), "b" := AccountWith("2", "y")], [])
  }

  function NoLocal(): Local {
    Local("", [], [])
  }

  function TakeAddress(): Delivery {
    Delivery(Event("change", "b", 2, EmailChanged("x"), 0), NoLocal())
  }

  function FreeAddress(): Delivery {
    Delivery(Event("erase", "a", 2, AuthPseudonymized, 0), NoLocal())
  }

  lemma AddressesDiffer()
    ensures Trim("x") == "x" && Lower("x") == "x" && Lower("y") == "y"
  {
    assert TrimLeft("x") == "x" && TrimRight("x") == "x";
  }

  /** While the address belongs to another account the change is refused; once it is free it is taken in. */
  lemma AddressRefusedThenTaken()
    ensures var db := TwoAccounts();
            var freed := Receive(db, FreeAddress().event, NoLocal());
            && VerdictOf(db, TakeAddress().event) == Refused
            && VerdictOf(freed, TakeAddress().event) == Applied
            && "b" in freed.accounts && freed.accounts["b"] == AccountWith("2", "y")
  {
    AddressesDiffer();
    var db := TwoAccounts();
    assert "a" in db.accounts && db.accounts["a"].email == Some("x");
    var freed := Receive(db, FreeAddress().event, NoLocal());
    assert freed.accounts.Keys == {"a", "b"} && freed.accounts["a"].email == None;
  }

  /**
   Refused while the address is taken and accepted on its repetition, a change of address is lost when only
   first occurrences are delivered.
   */
  lemma RepetitionTakesAddress()
    ensures var db, s := TwoAccounts(), [TakeAddress(), FreeAddress(), TakeAddress()];
            var all, once := ReceiveAll(db, s), ReceiveAll(db, FirstOccurrences(s, db.receipts.Keys));
            && !AdmittedAtFirst(db, s)
            && "b" in all.accounts && all.accounts["b"].email == Some("x")
            && "b" in once.accounts && once.accounts["b"].email == Some("y")
  {
    AddressesDiffer();
    AddressRefusedThenTaken();
    var db, s := TwoAccounts(), [TakeAddress(), FreeAddress(), TakeAddress()];
    var freed := Receive(db, FreeAddress().event, NoLocal());
    assert s[1..] == [FreeAddress(), TakeAddress()] && s[1..][1..] == [TakeAddress()];
    assert Receive(db, TakeAddress().event, NoLocal()) == db;
    var first := FirstOccurrences(s, db.receipts.Keys);
    var seen := db.receipts.Keys + {"change"} + {"erase"};
    assert FirstOccurrences([TakeAddress()], seen) == FirstOccurrences([], seen) == [] by {
      assert [TakeAddress()][1..] == [];
    }
    assert FirstOccurrences(s[1..], db.receipts.Keys + {"change"}) == [FreeAddress()];
    assert first == [TakeAddress(), FreeAddress()];
    assert first[1..] == [FreeAddress()] && [FreeAddress()][1..] == [];
    assert ReceiveAll(db, first) == freed;
    assert ReceiveAll(db, s) == Receive(freed, TakeAddress().event, NoLocal());
  }

  // ----- what is audited -----

  /** The deliveries of a schedule that are applied to an account. */
  function AppliedIn(db: ApiDb, s: seq<Delivery>): seq<Delivery>
    decreases s
  {
    if s == [] then []
    else
      var rest := AppliedIn(Receive(db, s[0].event, s[0].local), s[1..]);
      if VerdictOf(db, s[0].event).Applied? then [s[0]] + rest else rest
  }

  /** The entries that an applied delivery leaves. */
  function BlockOf(accounts: map<UserId, Account>, d: Delivery): seq<Audit> {
    if d.event.user in accounts then AuditsOf(accounts[d.event.user].userId, d.event, d.local) else []
  }

  function Blocks(accounts: map<UserId, Account>, ds: seq<Delivery>): seq<Audit> {
    if ds == [] then [] else BlockOf(accounts, ds[0]) + Blocks(accounts, ds[1..])
  }

  lemma {:induction false} BlocksConcat(accounts: map<UserId, Account>, a: seq<Delivery>, b: seq<Delivery>)
    ensures Blocks(accounts, a + b) == Blocks(accounts, a) + Blocks(accounts, b)
  {
    if a == [] {
      assert a + b == b;
    } else {
      assert (a + b)[1..] == a[1..] + b;
      BlocksConcat(accounts, a[1..], b);
    }
  }

  /** An account keeps the user it belongs to. */
  ghost predicate SameUsers(before: map<UserId, Account>, after: map<UserId, Account>) {
    forall u | u in before :: u in after && after[u].userId == before[u].userId
  }

  lemma {:induction false} UsersStay(db: ApiDb, s: seq<Delivery>)
    ensures SameUsers(db.accounts, ReceiveAll(db, s).accounts)
    decreases s
  {
    if s != [] {
      UsersStay(Receive(db, s[0].event, s[0].local), s[1..]);
    }
  }

  /** A schedule appends one block of entries for each delivery that it applies, in order, and nothing else. */
  lemma {:induction false} AuditsAreBlocks(db: ApiDb, s: seq<Delivery>)
    ensures ReceiveAll(db, s).audits == db.audits + Blocks(ReceiveAll(db, s).accounts, AppliedIn(db, s))
    decreases s
  {
    if s != [] {
      var next := Receive(db, s[0].event, s[0].local);
      AuditsAreBlocks(next, s[1..]);
      UsersStay(db, s);
      if VerdictOf(db, s[0].event).Applied? {
        var rest := AppliedIn(next, s[1..]);
        assert ([s[0]] + rest)[1..] == rest;
        assert next.audits == db.audits + BlockOf(ReceiveAll(db, s).accounts, s[0]);
      }
    }
  }

  /** Each event is applied at most once, and its receipt is new. */
  lemma {:induction false} AppliedOnce(db: ApiDb, s: seq<Delivery>)
    ensures forall d | d in AppliedIn(db, s) :: d.event.id !in db.receipts
    ensures forall d | d in AppliedIn(db, s) ::
              d.event.id in ReceiveAll(db, s).receipts && ReceiveAll(db, s).receipts[d.event.id] == d.event
    ensures forall i, j | 0 <= i < j < |AppliedIn(db, s)| ::
              AppliedIn(db, s)[i].event.id != AppliedIn(db, s)[j].event.id
    decreases s
  {
    if s != [] {
      var next := Receive(db, s[0].event, s[0].local);
      AppliedOnce(next, s[1..]);
      ReceiptsGrow(next, s[1..]);
    }
  }

  lemma BlockCause(accounts: map<UserId, Account>, d: Delivery)
    ensures forall a | a in BlockOf(accounts, d) :: a.cause == d.event
  {
  }

  /** No entry of these blocks has a cause with this id. */
  lemma {:induction false} BlocksOfOthers(accounts: map<UserId, Account>, ds: seq<Delivery>, id: EntryId)
    requires forall d | d in ds :: d.event.id != id
    ensures forall a | a in Blocks(accounts, ds) :: a.cause.id != id
  {
    if ds != [] {
      assert ds[0] in ds;
      BlocksOfOthers(accounts, ds[1..], id);
      BlockCause(accounts, ds[0]);
    }
  }

  /** Every audit entry stems from an event with a receipt. */
  ghost predicate AuditsHaveReceipts(db: ApiDb) {
    forall i | 0 <= i < |db.audits| ::
      db.audits[i].cause.id in db.receipts && db.receipts[db.audits[i].cause.id] == db.audits[i].cause
  }

  lemma {:induction false} AuditsKeepReceipts(db: ApiDb, s: seq<Delivery>)
    requires AuditsHaveReceipts(db)
    ensures AuditsHaveReceipts(ReceiveAll(db, s))
    decreases s
  {
    if s != [] {
      AuditsKeepReceipts(Receive(db, s[0].event, s[0].local), s[1..]);
    }
  }

  /** The stretch of the final entries that belongs to the i-th applied delivery. */
  ghost predicate BlockAt(audits: seq<Audit>, p: nat, block: seq<Audit>, id: EntryId) {
    && p + |block| <= |audits| && audits[p..p + |block|] == block
    && forall j | 0 <= j < |audits| && audits[j].cause.id == id :: p <= j < p + |block|
  }

  lemma BlockInTheMiddle(old_: seq<Audit>, before: seq<Audit>, own: seq<Audit>, after: seq<Audit>, id: EntryId)
    requires forall a | a in old_ || a in before || a in after :: a.cause.id != id
    ensures BlockAt(old_ + (before + (own + after)), |old_| + |before|, own, id)
  {
  }

  /**
   However often an event is delivered, its entries are in the log exactly once, as one block: the entries of
   its one application, with none of its entries before or after.
   */
  lemma EventIsAuditedOnce(db: ApiDb, s: seq<Delivery>, i: nat)
    requires AuditsHaveReceipts(db) && i < |AppliedIn(db, s)|
    ensures AuditsHaveReceipts(ReceiveAll(db, s))
    ensures var end, ds := ReceiveAll(db, s), AppliedIn(db, s);
            BlockAt(end.audits, |db.audits| + |Blocks(end.accounts, ds[..i])|, BlockOf(end.accounts, ds[i]),
                    ds[i].event.id)
  {
    var accounts, ds := ReceiveAll(db, s).accounts, AppliedIn(db, s);
    AuditsKeepReceipts(db, s);
    AuditsAreBlocks(db, s);
    AppliedOnce(db, s);
    BlocksSplit(accounts, ds, i);
    BlocksOfOthers(accounts, ds[..i], ds[i].event.id);
    BlocksOfOthers(accounts, ds[i + 1..], ds[i].event.id);
    assert ds[i] in ds;
    BlockInTheMiddle(db.audits, Blocks(accounts, ds[..i]), BlockOf(accounts, ds[i]), Blocks(accounts, ds[i + 1..]),
                     ds[i].event.id);
  }

  lemma BlocksSplit(accounts: map<UserId, Account>, ds: seq<Delivery>, i: nat)
    requires i < |ds|
    ensures Blocks(accounts, ds)
            == Blocks(accounts, ds[..i]) + (BlockOf(accounts, ds[i]) + Blocks(accounts, ds[i + 1..]))
  {
    assert ds == ds[..i] + ([ds[i]] + ds[i + 1..]);
    assert ([ds[i]] + ds[i + 1..])[1..] == ds[i + 1..];
    BlocksConcat(accounts, ds[..i], [ds[i]] + ds[i + 1..]);
  }

  /** The stored version never falls, and an acknowledged event is never newer than it. */
  lemma AcknowledgedVersionReached(db: ApiDb, e: Event, local: Local)
    requires forall id | id in db.receipts ::
               db.receipts[id].user in db.accounts
               && db.receipts[id].version <= db.accounts[db.receipts[id].user].version
    ensures forall user | user in db.accounts ::
              user in Receive(db, e, local).accounts
              && db.accounts[user].version <= Receive(db, e, local).accounts[user].version
    ensures Acknowledged(VerdictOf(db, e)) ==>
              e.user in Receive(db, e, local).accounts
              && e.version <= Receive(db, e, local).accounts[e.user].version
  {
  }
}
