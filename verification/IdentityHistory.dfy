/**
 What the API's account state and MFA flag mean: each is a value that the authentication service
 held at some version, and events carry exactly the values held at their own version.
 */
module IdentityHistory {
  import opened Wrappers
  import opened Identity
  import opened AuthLifecycle
  import opened IdentityReceiver
  import opened IdentityProtocol

  /** The two mirrored values, treated alike. */
  datatype Aspect = StateAspect | MfaAspect

  datatype Value = StateValue(state: AccountState) | MfaValue(mfa: bool)

  function Carried(a: Aspect, change: Change): Option<Value> {
    match (a, change)
    case (StateAspect, AccountStateChanged(state, _, _)) => Some(StateValue(state))
    case (StateAspect, DeletionRequested(_)) => Some(StateValue(DeletionPending))
    case (StateAspect, DeletionCancelled) => Some(StateValue(Active))
    case (StateAspect, AuthPseudonymized) => Some(StateValue(Deleted))
    case (MfaAspect, MfaConfigured) => Some(MfaValue(true))
    case (MfaAspect, MfaDisabled) => Some(MfaValue(false))
    case _ => None
  }

  function HeldAt(a: Aspect, snap: Snap): Value {
    if a.StateAspect? then StateValue(snap.state) else MfaValue(snap.mfa)
  }

  function MirroredAt(a: Aspect, account: Account): Value {
    if a.StateAspect? then StateValue(account.state) else MfaValue(account.mfa)
  }

  predicate Carries(a: Aspect, e: Event, u: UserId) {
    e.user == u && Carried(a, e.change).Some?
  }

  // ----- the authentication service's own history -----

  /** Events carry the value held at their version. */
  ghost predicate CarriedInv(held: map<UserId, seq<Snap>>, log: set<Event>) {
    forall a, e | e in log && Carried(a, e.change).Some? ::
      && e.user in held && 1 <= e.version <= |held[e.user]|
      && HeldAt(a, held[e.user][e.version - 1]) == Carried(a, e.change).value
  }

  ghost predicate ChangeExplained(h: seq<Snap>, log: set<Event>, a: Aspect, u: UserId, i: int)
    requires 1 <= i < |h|
  {
    || HeldAt(a, h[i]) == HeldAt(a, h[i - 1])
    || exists e :: e in log && Carries(a, e, u) && e.version == i + 1
  }

  /** A value only changes at a version whose event carries it. */
  ghost predicate ChangesCarried(held: map<UserId, seq<Snap>>, log: set<Event>) {
    forall a, u, i | u in held && 1 <= i < |held[u]| :: ChangeExplained(held[u], log, a, u, i)
  }

  ghost predicate OneCommandPerVersion(log: set<Event>) {
    forall e, f | e in log && f in log && e.user == f.user && e.version == f.version
      && !Announcement(e.change) && !Announcement(f.change) :: e == f
  }

  ghost predicate DeletedForGood(held: map<UserId, seq<Snap>>) {
    forall u, i, j | u in held && 0 <= i <= j < |held[u]| :: held[u][i].state == Deleted ==> held[u][j].state == Deleted
  }

  /** Tokens are issued only at versions at which the account was active. */
  ghost predicate IssuedActive(held: map<UserId, seq<Snap>>, issued: set<Claims>) {
    forall c | c in issued ::
      c.subject in held && 1 <= c.version <= |held[c.subject]| && held[c.subject][c.version - 1].state == Active
  }

  // ----- the API's mirror -----

  ghost predicate UnlinkedInv(held: map<UserId, seq<Snap>>, accounts: map<UserId, Account>) {
    forall u | u in held && u !in accounts :: held[u] != [] && held[u][0] == Snap(Active, false)
  }

  ghost predicate EffectiveInv(effective: set<Event>, log: set<Event>, accounts: map<UserId, Account>) {
    forall e | e in effective :: e in log && e.user in accounts
  }

  /** Version k is that of an event that took effect, or none has and the first value still stands. */
  ghost predicate Backed(h: seq<Snap>, effective: set<Event>, a: Aspect, u: UserId, k: int)
    requires 1 <= k <= |h|
  {
    || (exists e :: e in effective && Carries(a, e, u) && e.version == k)
    || ((forall e | e in effective :: !Carries(a, e, u)) && HeldAt(a, h[k - 1]) == HeldAt(a, h[0]))
  }

  /** The mirrored value is the one held at version k, and nothing newer has taken effect. */
  ghost predicate Source(
    held: map<UserId, seq<Snap>>, accounts: map<UserId, Account>, effective: set<Event>, a: Aspect, u: UserId, k: int)
    requires u in accounts && u in held
  {
    && 1 <= k <= accounts[u].version && k <= |held[u]|
    && MirroredAt(a, accounts[u]) == HeldAt(a, held[u][k - 1])
    && (forall e | e in effective && Carries(a, e, u) :: e.version <= k)
    && Backed(held[u], effective, a, u, k)
  }

  ghost predicate HasSource(
    held: map<UserId, seq<Snap>>, accounts: map<UserId, Account>, effective: set<Event>, a: Aspect, u: UserId)
    requires u in accounts
  {
    u in held && exists k :: Source(held, accounts, effective, a, u, k)
  }

  ghost predicate SourceInv(held: map<UserId, seq<Snap>>, accounts: map<UserId, Account>, effective: set<Event>) {
    forall a, u | u in accounts :: HasSource(held, accounts, effective, a, u)
  }

  ghost predicate History(s: Sys) {
    && CarriedInv(s.held, s.log) && ChangesCarried(s.held, s.log) && OneCommandPerVersion(s.log)
    && DeletedForGood(s.held) && IssuedActive(s.held, s.issued)
    && UnlinkedInv(s.held, s.api.accounts) && EffectiveInv(s.effective, s.log, s.api.accounts)
    && SourceInv(s.held, s.api.accounts, s.effective)
  }

  lemma CommandCarriesOutcome(db: AuthDb, user: UserId, c: Command, now: int, ids: Ids, before: Snap)
    requires RunCommand(db, user, c, now, ids).Committed?
    requires before.state == db.users[user].state
    ensures !Announcement(ChangeOf(c))
    ensures var snap := SnapAfter(before, c, RunCommand(db, user, c, now, ids).value.users[user].state);
            forall a :: if Carried(a, ChangeOf(c)).Some? then HeldAt(a, snap) == Carried(a, ChangeOf(c)).value
                        else HeldAt(a, snap) == HeldAt(a, before)
  {
  }

  /** The list of snapshots of one user grows by one entry, for an event of the new version. */
  ghost predicate Extends(s: Sys, held: map<UserId, seq<Snap>>, e: Event, snap: Snap) {
    && e.user in s.held && s.held[e.user] != []
    && held == s.held[e.user := s.held[e.user] + [snap]]
    && e.version == |s.held[e.user]| + 1
    && (forall a :: if Carried(a, e.change).Some? then HeldAt(a, snap) == Carried(a, e.change).value
                    else HeldAt(a, snap) == HeldAt(a, Last(s.held[e.user])))
    && (Last(s.held[e.user]).state == Deleted ==> snap.state == Deleted)
    && !Announcement(e.change)
  }

  lemma ExtendKeepsChanges(s: Sys, held: map<UserId, seq<Snap>>, e: Event, snap: Snap)
    requires ChangesCarried(s.held, s.log) && Extends(s, held, e, snap)
    ensures ChangesCarried(held, s.log + {e})
  {
    forall a, u, i | u in held && 1 <= i < |held[u]|
      ensures ChangeExplained(held[u], s.log + {e}, a, u, i)
    {
      if u == e.user && i == |s.held[u]| {
        if Carried(a, e.change).Some? {
          assert Carries(a, e, u) && e.version == i + 1;
        }
      } else {
        assert i < |s.held[u]| && held[u][i] == s.held[u][i] && held[u][i - 1] == s.held[u][i - 1];
        assert ChangeExplained(s.held[u], s.log, a, u, i);
        if f :| f in s.log && Carries(a, f, u) && f.version == i + 1 {
          assert f in s.log + {e};
        }
      }
    }
  }

  lemma ExtendKeepsSource(s: Sys, held: map<UserId, seq<Snap>>, e: Event, snap: Snap)
    requires SourceInv(s.held, s.api.accounts, s.effective) && Extends(s, held, e, snap)
    ensures SourceInv(held, s.api.accounts, s.effective)
  {
    forall a, u | u in s.api.accounts
      ensures HasSource(held, s.api.accounts, s.effective, a, u)
    {
      assert HasSource(s.held, s.api.accounts, s.effective, a, u);
      var k :| Source(s.held, s.api.accounts, s.effective, a, u, k);
      assert held[u][k - 1] == s.held[u][k - 1];
      assert Source(held, s.api.accounts, s.effective, a, u, k);
    }
  }

  lemma CommitKeepsHistory(s: Sys, auth: AuthDb, e: Event, snap: Snap, task: nat, required: bool)
    requires Inv(s) && History(s) && e.user in s.held
    requires Extends(s, s.held[e.user := s.held[e.user] + [snap]], e, snap)
    ensures History(Commit(s, auth, e, snap, task, required))
  {
    var held := s.held[e.user := s.held[e.user] + [snap]];
    ExtendKeepsChanges(s, held, e, snap);
    ExtendKeepsSource(s, held, e, snap);
  }

  lemma LifecycleKeepsHistory(s: Sys, user: UserId, c: Command, ids: Ids, now: int, task: nat, required: bool)
    requires Inv(s) && History(s)
    ensures History(StepLifecycle(s, user, c, ids, now, task, required))
  {
    if StepLifecycle(s, user, c, ids, now, task, required) != s {
      assert user in s.auth.users;
      var auth, e, snap := LifecycleStepRaises(s, user, c, ids, now, task, required);
      CommandCarriesOutcome(s.auth, user, c, now, ids, Last(s.held[user]));
      CommandFollowsPolicy(s.auth, user, c, now, ids);
      CommitKeepsHistory(s, auth, e, snap, task, required);
    }
  }

  lemma LogKeepsChanges(s: Sys, e: Event)
    requires ChangesCarried(s.held, s.log)
    ensures ChangesCarried(s.held, s.log + {e})
  {
    forall a, u, i | u in s.held && 1 <= i < |s.held[u]|
      ensures ChangeExplained(s.held[u], s.log + {e}, a, u, i)
    {
      assert ChangeExplained(s.held[u], s.log, a, u, i);
      if f :| f in s.log && Carries(a, f, u) && f.version == i + 1 {
        assert f in s.log + {e};
      }
    }
  }

  lemma AnnounceKeepsHistory(s: Sys, e: Event, now: int, task: nat, required: bool)
    requires Inv(s) && History(s)
    ensures History(StepAnnounce(s, e, now, task, required))
  {
    var s' := StepAnnounce(s, e, now, task, required);
    if s' != s {
      LogKeepsChanges(s, e);
    }
  }

  /** A user that is new to both services, whose history holds one value throughout. */
  ghost predicate NewUser(s: Sys, user: UserId, h: seq<Snap>, accounts: map<UserId, Account>) {
    && user !in s.auth.users && user !in s.api.accounts
    && h != [] && (forall i | 0 <= i < |h| :: h[i] == h[0])
    && (|| (accounts == s.api.accounts && h[0] == Snap(Active, false))
        || (user in accounts && accounts == s.api.accounts[user := accounts[user]]
            && accounts[user].version == |h| && h[0] == Snap(accounts[user].state, accounts[user].mfa)))
  }

  lemma NewUserKeepsSource(s: Sys, user: UserId, h: seq<Snap>, accounts: map<UserId, Account>)
    requires Inv(s) && History(s) && NewUser(s, user, h, accounts)
    ensures SourceInv(s.held[user := h], accounts, s.effective)
  {
    var held := s.held[user := h];
    forall a, u | u in accounts
      ensures HasSource(held, accounts, s.effective, a, u)
    {
      if u == user {
        assert forall e | e in s.effective :: e.user != user;
        assert Source(held, accounts, s.effective, a, u, |h|);
      } else {
        assert HasSource(s.held, s.api.accounts, s.effective, a, u);
        var k :| Source(s.held, s.api.accounts, s.effective, a, u, k);
        assert Source(held, accounts, s.effective, a, u, k);
      }
    }
  }

  lemma NewUserKeepsHistory(s: Sys, user: UserId, h: seq<Snap>, accounts: map<UserId, Account>)
    requires Inv(s) && History(s) && NewUser(s, user, h, accounts)
    ensures CarriedInv(s.held[user := h], s.log) && ChangesCarried(s.held[user := h], s.log)
    ensures DeletedForGood(s.held[user := h]) && IssuedActive(s.held[user := h], s.issued)
    ensures UnlinkedInv(s.held[user := h], accounts) && EffectiveInv(s.effective, s.log, accounts)
    ensures SourceInv(s.held[user := h], accounts, s.effective)
  {
    NewUserKeepsSource(s, user, h, accounts);
  }

  lemma SignUpKeepsHistory(s: Sys, user: UserId, email: string)
    requires Inv(s) && History(s)
    ensures History(StepSignUp(s, user, email))
  {
    if StepSignUp(s, user, email) != s {
      NewUserKeepsHistory(s, user, [Snap(Active, false)], s.api.accounts);
    }
  }

  lemma ImportKeepsHistory(s: Sys, user: UserId, u: AuthUser, a: Account)
    requires Inv(s) && History(s)
    ensures History(StepImport(s, user, u, a))
  {
    var s' := StepImport(s, user, u, a);
    if s' != s {
      NewUserKeepsHistory(s, user, s'.held[user], s'.api.accounts);
    }
  }

  // ----- a delivery -----

  lemma AppliedSetsCarried(api: ApiDb, e: Event, local: Local, a: Aspect)
    requires VerdictOf(api, e).Applied?
    ensures e.user in api.accounts && api.accounts[e.user].version <= e.version
    ensures var after := Receive(api, e, local).accounts;
            && after == api.accounts[e.user := after[e.user]]
            && after[e.user].version == e.version
            && MirroredAt(a, after[e.user]) ==
               if Carried(a, e.change).Some? then Carried(a, e.change).value
               else MirroredAt(a, api.accounts[e.user])
  {
  }

  lemma ReceiveKeepsSource(s: Sys, e: Event, local: Local)
    requires Inv(s) && History(s) && e in s.log
    ensures var v := VerdictOf(s.api, e);
            SourceInv(s.held, Receive(s.api, e, local).accounts,
                      if v.Applied? || v.Created? then s.effective + {e} else s.effective)
  {
    var v := VerdictOf(s.api, e);
    var after := Receive(s.api, e, local).accounts;
    var effective := if v.Applied? || v.Created? then s.effective + {e} else s.effective;
    forall a, u | u in after
      ensures HasSource(s.held, after, effective, a, u)
    {
      if u !in s.api.accounts {
        CreatedHasSource(s, e, local, a);
      } else {
        assert HasSource(s.held, s.api.accounts, s.effective, a, u);
        var k :| Source(s.held, s.api.accounts, s.effective, a, u, k);
        if v.Applied? && u == e.user {
          AppliedKeepsSource(s, e, local, a, k);
        } else {
          UntouchedKeepsSource(s, e, local, a, u, k);
        }
      }
    }
  }

  lemma UntouchedKeepsSource(s: Sys, e: Event, local: Local, a: Aspect, u: UserId, k: int)
    requires u in s.api.accounts && u in s.held && Source(s.held, s.api.accounts, s.effective, a, u, k)
    requires u != e.user || !VerdictOf(s.api, e).Applied?
    ensures u in Receive(s.api, e, local).accounts
    ensures var v := VerdictOf(s.api, e);
            HasSource(s.held, Receive(s.api, e, local).accounts,
                      if v.Applied? || v.Created? then s.effective + {e} else s.effective, a, u)
  {
    var v := VerdictOf(s.api, e);
    var after := Receive(s.api, e, local).accounts;
    assert after[u] == s.api.accounts[u];
    assert Source(s.held, after, if v.Applied? || v.Created? then s.effective + {e} else s.effective, a, u, k);
  }

  lemma CreatedHasSource(s: Sys, e: Event, local: Local, a: Aspect)
    requires Inv(s) && History(s) && e in s.log && VerdictOf(s.api, e).Created?
    ensures e.user in Receive(s.api, e, local).accounts
    ensures HasSource(s.held, Receive(s.api, e, local).accounts, s.effective + {e}, a, e.user)
  {
    var after := Receive(s.api, e, local).accounts;
    assert forall f | f in s.effective :: f.user != e.user;
    assert MirroredAt(a, after[e.user]) == HeldAt(a, s.held[e.user][0]);
    assert Source(s.held, after, s.effective + {e}, a, e.user, 1);
  }

  lemma AppliedKeepsSource(s: Sys, e: Event, local: Local, a: Aspect, k: int)
    requires Inv(s) && CarriedInv(s.held, s.log) && e in s.log && VerdictOf(s.api, e).Applied?
    requires e.user in s.api.accounts && Source(s.held, s.api.accounts, s.effective, a, e.user, k)
    ensures e.user in Receive(s.api, e, local).accounts
    ensures HasSource(s.held, Receive(s.api, e, local).accounts, s.effective + {e}, a, e.user)
  {
    AppliedSetsCarried(s.api, e, local, a);
    var k' := if Carried(a, e.change).Some? then e.version else k;
    assert Source(s.held, Receive(s.api, e, local).accounts, s.effective + {e}, a, e.user, k');
  }

  lemma PublishKeepsHistory(s: Sys, task: nat, arrives: bool, replies: bool, local: Local)
    requires Inv(s) && History(s)
    ensures History(StepPublish(s, task, arrives, replies, local))
  {
    if task in s.tasks && s.tasks[task].phase == Holding && arrives {
      ReceiveKeepsSource(s, s.tasks[task].event, local);
    }
  }

  lemma IssueKeepsHistory(s: Sys, session: string, now: int, maxAge: int)
    requires Inv(s) && History(s)
    ensures History(StepIssue(s, session, now, maxAge))
  {
  }

  lemma StepKeepsHistory(s: Sys, l: Label)
    requires Inv(s) && History(s)
    ensures History(Step(s, l))
  {
    match l {
      case Lifecycle(user, c, ids, now, task, required) => LifecycleKeepsHistory(s, user, c, ids, now, task, required);
      case Publish(task, arrives, replies, local) => PublishKeepsHistory(s, task, arrives, replies, local);
      case Announce(user, change, version, id, now, task, required) =>
        AnnounceKeepsHistory(s, Event(id, user, version, change, now), now, task, required);
      case SignUp(user, email) => SignUpKeepsHistory(s, user, email);
      case ImportLinked(user, u, a) => ImportKeepsHistory(s, user, u, a);
      case Issue(session, now, maxAge) => IssueKeepsHistory(s, session, now, maxAge);
      case _ =>
    }
  }

  lemma {:induction false} RunKeepsHistory(s: Sys, labels: seq<Label>)
    requires Inv(s) && History(s)
    ensures Inv(Run(s, labels)) && History(Run(s, labels))
    decreases labels
  {
    if labels != [] {
      StepKeepsInv(s, labels[0]);
      StepKeepsHistory(s, labels[0]);
      RunKeepsHistory(Step(s, labels[0]), labels[1..]);
    }
  }
}
