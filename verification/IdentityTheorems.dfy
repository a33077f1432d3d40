/** What holds over every run of the identity protocol. */
module IdentityTheorems {
  import opened Wrappers
  import opened Identity
  import opened AuthLifecycle
  import opened IdentityReceiver
  import opened IdentityProtocol
  import opened IdentityHistory

  lemma {:induction false} ReachableInv(labels: seq<Label>)
    ensures Inv(Run(Empty(), labels)) && History(Run(Empty(), labels))
  {
    EmptyInv();
    RunKeepsHistory(Empty(), labels);
  }

  // ----- nothing is forgotten -----

  /** What later states remember of earlier ones. */
  ghost predicate Remembers(s: Sys, s': Sys) {
    && s.issued <= s'.issued
    && s.settled <= s'.settled
    && s.log <= s'.log
    && (forall u | u in s.auth.users ::
          u in s'.auth.users && s.auth.users[u].version <= s'.auth.users[u].version)
    && (forall u | u in s.api.accounts ::
          u in s'.api.accounts && s.api.accounts[u].version <= s'.api.accounts[u].version)
    && (forall u | u in s.held :: u in s'.held && s.held[u] <= s'.held[u])
  }

  lemma CommitRemembers(s: Sys, auth: AuthDb, e: Event, snap: Snap, task: nat, required: bool)
    requires e.user in s.held && RaisesVersion(s.auth, auth, e.user, e)
    ensures Remembers(s, Commit(s, auth, e, snap, task, required))
  {
    assert forall u | u in s.auth.users :: s.auth.users[u].version <= auth.users[u].version;
  }

  lemma LifecycleRemembers(s: Sys, user: UserId, c: Command, ids: Ids, now: int, task: nat, required: bool)
    requires Inv(s)
    ensures Remembers(s, StepLifecycle(s, user, c, ids, now, task, required))
  {
    if StepLifecycle(s, user, c, ids, now, task, required) != s {
      assert user in s.auth.users;
      var auth, e, snap := LifecycleStepRaises(s, user, c, ids, now, task, required);
      CommitRemembers(s, auth, e, snap, task, required);
    }
  }

  lemma PublishRemembers(s: Sys, task: nat, arrives: bool, replies: bool, local: Local)
    requires Inv(s)
    ensures Remembers(s, StepPublish(s, task, arrives, replies, local))
  {
    if task in s.tasks && s.tasks[task].phase == Holding && arrives {
      AcknowledgedVersionReached(s.api, s.tasks[task].event, local);
    }
  }

  /** The steps that neither commit a command, nor reach the API, nor add a user. */
  predicate Quiet(l: Label) {
    !l.Lifecycle? && !l.Publish? && !l.SignUp? && !l.ImportLinked?
  }

  lemma QuietStepTouchesNoVersion(s: Sys, l: Label)
    requires Quiet(l)
    ensures var s' := Step(s, l);
            && s'.api == s.api && s'.held == s.held
            && s.issued <= s'.issued && s.settled <= s'.settled && s.log <= s'.log
            && s'.auth.users.Keys == s.auth.users.Keys
            && forall u | u in s.auth.users ::
                 && s'.auth.users[u].version == s.auth.users[u].version
                 && s'.auth.users[u].state == s.auth.users[u].state
  {
  }

  lemma StepRemembers(s: Sys, l: Label)
    requires Inv(s)
    ensures Remembers(s, Step(s, l))
  {
    match l {
      case Lifecycle(user, c, ids, now, task, required) => LifecycleRemembers(s, user, c, ids, now, task, required);
      case Publish(task, arrives, replies, local) => PublishRemembers(s, task, arrives, replies, local);
      case SignUp(user, email) => SignUpRemembers(s, user, email);
      case ImportLinked(user, u, a) => ImportRemembers(s, user, u, a);
      case _ => QuietStepTouchesNoVersion(s, l);
    }
  }

  lemma SignUpRemembers(s: Sys, user: UserId, email: string)
    requires Inv(s)
    ensures Remembers(s, StepSignUp(s, user, email))
  {
  }

  lemma ImportRemembers(s: Sys, user: UserId, u: AuthUser, a: Account)
    requires Inv(s)
    ensures Remembers(s, StepImport(s, user, u, a))
  {
  }

  lemma RemembersTransitive(s: Sys, s': Sys, s'': Sys)
    requires Remembers(s, s') && Remembers(s', s'')
    ensures Remembers(s, s'')
  {
  }

  /** In particular the API's security version never falls. */
  lemma {:induction false} RunRemembers(s: Sys, labels: seq<Label>)
    requires Inv(s)
    ensures Remembers(s, Run(s, labels))
    decreases labels
  {
    if labels != [] {
      var next := Step(s, labels[0]);
      StepKeepsInv(s, labels[0]);
      StepRemembers(s, labels[0]);
      RunRemembers(next, labels[1..]);
      RemembersTransitive(s, next, Run(next, labels[1..]));
    }
  }

  /** The history kept for the theorems is the real one: entry v - 1 is the state held at version v. */
  lemma {:induction false} HeldRecordsHistory(pre: seq<Label>, post: seq<Label>, u: UserId)
    requires u in Run(Empty(), pre).auth.users
    ensures var s, s' := Run(Empty(), pre), Run(Run(Empty(), pre), post);
            var v := s.auth.users[u].version;
            u in s'.held && 1 <= v <= |s'.held[u]| && s'.held[u][v - 1].state == s.auth.users[u].state
  {
    ReachableInv(pre);
    RunRemembers(Run(Empty(), pre), post);
    HeldIsKept(Run(Empty(), pre), Run(Run(Empty(), pre), post), u);
  }

  lemma HeldIsKept(s: Sys, s': Sys, u: UserId)
    requires Inv(s) && Remembers(s, s') && u in s.auth.users
    ensures var v := s.auth.users[u].version;
            u in s'.held && 1 <= v <= |s'.held[u]| && s'.held[u][v - 1].state == s.auth.users[u].state
  {
  }

  // ----- token safety -----

  lemma CommandEvent(s: Sys, command: Label, e: Event)
    requires Inv(s) && command.Lifecycle?
    requires e in Step(s, command).log && e !in s.log
    ensures e.user == command.user && e.user in s.auth.users && e.version == s.auth.users[e.user].version + 1
  {
    var _, f, _ := LifecycleStepRaises(
      s, command.user, command.command, command.ids, command.now, command.task, command.required);
    assert e == f;
  }

  /** A command that has returned normally has been mirrored. */
  lemma SettledIsMirrored(s: Sys, e: Event)
    requires Inv(s) && e in s.settled
    ensures e.user in s.api.accounts && e.version <= s.api.accounts[e.user].version
  {
  }

  /**
   Once a lifecycle command has returned normally, no token issued before it committed is ever
   accepted again, whatever else is delivered, lost, repeated or reordered.
   */
  lemma {:induction false} TokenSafety(
    pre: seq<Label>, command: Label, post: seq<Label>, e: Event, c: Claims)
    requires command.Lifecycle?
    requires var before := Run(Empty(), pre);
             var after := Step(before, command);
             && e in after.log && e !in before.log
             && c in before.issued && c.subject == e.user
             && e in Run(after, post).settled
    ensures !Authenticates(Run(Step(Run(Empty(), pre), command), post).api, c)
  {
    var before := Run(Empty(), pre);
    var after := Step(before, command);
    ReachableInv(pre);
    StepKeepsInv(before, command);
    RunKeepsInv(after, post);
    CommandEvent(before, command, e);
    SettledIsMirrored(Run(after, post), e);
    assert c.version <= before.auth.users[c.subject].version;
  }

  /**
   While the two services agree on the version of an account that is not active, no token at all
   is accepted for it.
   */
  lemma {:induction false} InactiveAccountHasNoToken(labels: seq<Label>, c: Claims)
    requires var s := Run(Empty(), labels);
             && c in s.issued && c.subject in s.api.accounts && c.subject in s.auth.users
             && s.api.accounts[c.subject].version == s.auth.users[c.subject].version
             && s.auth.users[c.subject].state != Active
    ensures !Authenticates(Run(Empty(), labels).api, c)
  {
    ReachableInv(labels);
    var s := Run(Empty(), labels);
    assert s.held[c.subject][c.version - 1].state == Active;
    assert Last(s.held[c.subject]).state == s.auth.users[c.subject].state;
  }

  // ----- versions -----

  /** Every identity row of the user has been confirmed. */
  ghost predicate Drained(s: Sys, u: UserId) {
    forall k | k in s.auth.outbox && s.auth.outbox[k].payload.IdentityPayload?
      && s.auth.outbox[k].payload.event.user == u :: s.auth.outbox[k].deliveredAt.Some?
  }

  /** The API never passes auth, and has caught up with it once the outbox has drained. */
  lemma {:induction false} DrainedVersionsEqual(labels: seq<Label>, u: UserId)
    requires u in Run(Empty(), labels).api.accounts
    ensures var s := Run(Empty(), labels);
            && u in s.auth.users
            && s.api.accounts[u].version <= s.auth.users[u].version
            && (Drained(s, u) ==> s.api.accounts[u].version == s.auth.users[u].version)
  {
    ReachableInv(labels);
    var s := Run(Empty(), labels);
    assert CaughtUp(s.auth, s.api.accounts, u);
  }

  // ----- account state under any order -----

  /** Auth held, at version k, the state that the API shows. */
  predicate WasHeldAt(s: Sys, u: UserId, k: int)
    requires u in s.held && u in s.api.accounts
  {
    1 <= k <= |s.held[u]| && s.held[u][k - 1].state == s.api.accounts[u].state
  }

  /** The API's state is one auth held at a version no greater than the API's. */
  lemma {:induction false} MirroredStateWasHeld(labels: seq<Label>, u: UserId)
    requires u in Run(Empty(), labels).api.accounts
    ensures var s := Run(Empty(), labels);
            && u in s.held
            && exists k :: WasHeldAt(s, u, k) && k <= s.api.accounts[u].version
  {
    ReachableInv(labels);
    var s := Run(Empty(), labels);
    assert HasSource(s.held, s.api.accounts, s.effective, StateAspect, u);
    var k :| Source(s.held, s.api.accounts, s.effective, StateAspect, u, k);
    assert WasHeldAt(s, u, k);
  }

  lemma {:induction false} MirroredDeletionIsReal(labels: seq<Label>, u: UserId)
    requires var s := Run(Empty(), labels);
             u in s.api.accounts && s.api.accounts[u].state == Deleted
    ensures var s := Run(Empty(), labels);
            u in s.auth.users && s.auth.users[u].state == Deleted
  {
    ReachableInv(labels);
    MirroredDeletionIsAuths(Run(Empty(), labels), u);
  }

  lemma MirroredDeletionWasHeld(s: Sys, u: UserId) returns (k: int)
    requires Inv(s) && History(s)
    requires u in s.api.accounts && s.api.accounts[u].state == Deleted
    ensures u in s.held && 1 <= k <= |s.held[u]| && k <= s.api.accounts[u].version
    ensures forall i | k - 1 <= i < |s.held[u]| :: s.held[u][i].state == Deleted
    ensures s.auth.users[u].state == Deleted
  {
    assert HasSource(s.held, s.api.accounts, s.effective, StateAspect, u);
    k :| Source(s.held, s.api.accounts, s.effective, StateAspect, u, k);
    assert s.held[u][k - 1].state == Deleted;
    assert Last(s.held[u]).state == s.auth.users[u].state;
  }

  lemma MirroredDeletionIsAuths(s: Sys, u: UserId)
    requires Inv(s) && History(s)
    requires u in s.api.accounts && s.api.accounts[u].state == Deleted
    ensures u in s.auth.users && s.auth.users[u].state == Deleted
  {
    var _ := MirroredDeletionWasHeld(s, u);
  }

  lemma ReceiveKeepsDeleted(s: Sys, e: Event, local: Local, u: UserId)
    requires Inv(s) && History(s) && e in s.log
    requires u in s.api.accounts && s.api.accounts[u].state == Deleted
    ensures u in Receive(s.api, e, local).accounts && Receive(s.api, e, local).accounts[u].state == Deleted
  {
    var k := MirroredDeletionWasHeld(s, u);
    if e.user == u && VerdictOf(s.api, e).Applied? {
      AppliedSetsCarried(s.api, e, local, StateAspect);
      if Carried(StateAspect, e.change).Some? {
        assert s.held[u][e.version - 1].state == Deleted;
      }
    }
  }

  lemma PublishKeepsDeleted(s: Sys, task: nat, arrives: bool, replies: bool, local: Local, u: UserId)
    requires Inv(s) && History(s)
    requires u in s.api.accounts && s.api.accounts[u].state == Deleted
    ensures var s' := StepPublish(s, task, arrives, replies, local);
            s'.auth == s.auth && u in s'.api.accounts && s'.api.accounts[u].state == Deleted
  {
    if task in s.tasks {
      ReceiveKeepsDeleted(s, s.tasks[task].event, local, u);
    }
  }

  lemma NewUserKeepsOthers(s: Sys, l: Label, u: UserId)
    requires (l.SignUp? || l.ImportLinked?) && u in s.api.accounts && u in s.auth.users
    ensures var s' := Step(s, l);
            && u in s'.api.accounts && s'.api.accounts[u] == s.api.accounts[u]
            && u in s'.auth.users && s'.auth.users[u] == s.auth.users[u]
  {
  }

  lemma LifecycleKeepsDeleted(s: Sys, l: Label, u: UserId)
    requires Inv(s) && l.Lifecycle? && u in s.auth.users && s.auth.users[u].state == Deleted
    ensures Step(s, l).api == s.api
    ensures u in Step(s, l).auth.users && Step(s, l).auth.users[u].state == Deleted
  {
    if Step(s, l) != s {
      assert l.user in s.auth.users;
      var auth, e, snap := LifecycleStepRaises(s, l.user, l.command, l.ids, l.now, l.task, l.required);
      if l.user == u {
        CommandFollowsPolicy(s.auth, u, l.command, l.now, l.ids);
      }
    }
  }

  lemma DeletedStepStays(s: Sys, l: Label, u: UserId)
    requires Inv(s) && History(s)
    requires u in s.api.accounts && s.api.accounts[u].state == Deleted
    ensures var s' := Step(s, l);
            && u in s'.api.accounts && s'.api.accounts[u].state == Deleted
            && u in s'.auth.users && s'.auth.users[u].state == Deleted
  {
    MirroredDeletionIsAuths(s, u);
    if l.Publish? {
      PublishKeepsDeleted(s, l.task, l.arrives, l.replies, l.local, u);
    } else {
      OtherKeepsDeleted(s, l, u);
    }
  }

  lemma OtherKeepsDeleted(s: Sys, l: Label, u: UserId)
    requires Inv(s) && !l.Publish?
    requires u in s.api.accounts && s.api.accounts[u].state == Deleted
    requires u in s.auth.users && s.auth.users[u].state == Deleted
    ensures var s' := Step(s, l);
            && u in s'.api.accounts && s'.api.accounts[u].state == Deleted
            && u in s'.auth.users && s'.auth.users[u].state == Deleted
  {
    match l {
      case Lifecycle(_, _, _, _, _, _) => LifecycleKeepsDeleted(s, l, u);
      case SignUp(_, _) => NewUserKeepsOthers(s, l, u);
      case ImportLinked(_, _, _) => NewUserKeepsOthers(s, l, u);
      case _ => QuietStepTouchesNoVersion(s, l);
    }
  }

  /** A deleted account stays deleted on both sides, so no late event revives it. */
  lemma {:induction false} DeletedIsForever(s: Sys, labels: seq<Label>, u: UserId)
    requires Inv(s) && History(s)
    requires u in s.api.accounts && s.api.accounts[u].state == Deleted
    ensures var s' := Run(s, labels);
            && u in s'.api.accounts && s'.api.accounts[u].state == Deleted
            && (labels != [] ==> u in s'.auth.users && s'.auth.users[u].state == Deleted)
    decreases labels
  {
    if labels != [] {
      DeletedStepStays(s, labels[0], u);
      StepKeepsInv(s, labels[0]);
      StepKeepsHistory(s, labels[0]);
      DeletedIsForever(Step(s, labels[0]), labels[1..], u);
    }
  }

  // ----- when state and MFA flag converge -----

  /** No value changes after the last event that carries it. */
  lemma {:induction false} UnchangedSince(h: seq<Snap>, log: set<Event>, a: Aspect, u: UserId, k: int, n: int)
    requires 1 <= k <= n <= |h|
    requires forall i | 1 <= i < |h| :: ChangeExplained(h, log, a, u, i)
    requires forall e | e in log && Carries(a, e, u) && e.version <= n :: e.version <= k
    ensures HeldAt(a, h[n - 1]) == HeldAt(a, h[k - 1])
    decreases n - k
  {
    if k < n {
      UnchangedSince(h, log, a, u, k, n - 1);
      assert ChangeExplained(h, log, a, u, n - 1);
    }
  }

  /**
   Delivered in any order, state and MFA flag agree with auth as soon as the newest event that
   carries them has taken effect; the only way to miss is that this event was dropped as stale.
   */
  lemma {:induction false} ConvergesOnceNewestTookEffect(labels: seq<Label>, a: Aspect, u: UserId, newest: Event)
    requires var s := Run(Empty(), labels);
             && newest in s.effective && Carries(a, newest, u)
             && forall e | e in s.log && Carries(a, e, u) :: e.version <= newest.version
    ensures var s := Run(Empty(), labels);
            && u in s.api.accounts && u in s.held && s.held[u] != []
            && MirroredAt(a, s.api.accounts[u]) == HeldAt(a, Last(s.held[u]))
  {
    ReachableInv(labels);
    ConvergedNow(Run(Empty(), labels), a, u, newest);
  }

  lemma ConvergedNow(s: Sys, a: Aspect, u: UserId, newest: Event)
    requires Inv(s) && History(s) && newest in s.effective && Carries(a, newest, u)
    requires forall e | e in s.log && Carries(a, e, u) :: e.version <= newest.version
    ensures u in s.api.accounts && u in s.held && s.held[u] != []
    ensures MirroredAt(a, s.api.accounts[u]) == HeldAt(a, Last(s.held[u]))
  {
    assert u in s.api.accounts;
    assert HasSource(s.held, s.api.accounts, s.effective, a, u);
    var k :| Source(s.held, s.api.accounts, s.effective, a, u, k);
    assert newest.version <= k;
    UnchangedSince(s.held[u], s.log, a, u, k, |s.held[u]|);
  }

  /**
   Under any order the API shows exactly what the newest event that took effect carries, or the
   account's first value while none has.
   */
  lemma {:induction false} MirrorsNewestEffective(labels: seq<Label>, a: Aspect, u: UserId)
    requires u in Run(Empty(), labels).api.accounts
    ensures var s := Run(Empty(), labels);
            && u in s.held && s.held[u] != []
            && (forall e | e in s.effective && Carries(a, e, u)
                  && (forall f | f in s.effective && Carries(a, f, u) :: f.version <= e.version) ::
                  MirroredAt(a, s.api.accounts[u]) == Carried(a, e.change).value)
            && ((forall e | e in s.effective :: !Carries(a, e, u)) ==>
                  MirroredAt(a, s.api.accounts[u]) == HeldAt(a, s.held[u][0]))
  {
    ReachableInv(labels);
    var s := Run(Empty(), labels);
    assert HasSource(s.held, s.api.accounts, s.effective, a, u);
    var k :| Source(s.held, s.api.accounts, s.effective, a, u, k);
    forall e | e in s.effective && Carries(a, e, u)
               && (forall f | f in s.effective && Carries(a, f, u) :: f.version <= e.version)
      ensures MirroredAt(a, s.api.accounts[u]) == Carried(a, e.change).value
    {
      SourceOfNewest(s, a, u, k, e);
    }
  }

  lemma SourceOfNewest(s: Sys, a: Aspect, u: UserId, k: int, e: Event)
    requires CarriedInv(s.held, s.log) && EffectiveInv(s.effective, s.log, s.api.accounts)
    requires u in s.api.accounts && u in s.held && Source(s.held, s.api.accounts, s.effective, a, u, k)
    requires e in s.effective && Carries(a, e, u)
    requires forall f | f in s.effective && Carries(a, f, u) :: f.version <= e.version
    ensures MirroredAt(a, s.api.accounts[u]) == Carried(a, e.change).value
  {
  }

  // ----- out of order, the account state may never converge -----

  function ReorderedRun(): seq<Label> {
    [ImportLinked("u", AuthUser("a@b", true, Active, None, 1), Account("m", Active, 1, false, true, None, None)),
     Lifecycle("u", SetSuspended(true, "", ""), Ids("s", "x"), 0, 1, true),
     Lifecycle("u", RevokeSessions(""), Ids("r", "y"), 0, 2, true),
     Publish(2, true, true, NoLocal()),
     RecordSuccess(2, 0),
     Publish(1, true, true, NoLocal()),
     RecordSuccess(1, 0)]
  }

  function SuspensionEvent(): Event {
    Event("s", "u", 2, AccountStateChanged(Suspended, "", ""), 0)
  }

  function RevocationEvent(): Event {
    Event("r", "u", 3, SessionsRevoked(""), 0)
  }

  function AfterCommands(): Sys {
    var l := ReorderedRun();
    Step(Step(Step(Empty(), l[0]), l[1]), l[2])
  }

  /** The suspension has committed and nothing has been delivered. */
  ghost predicate SuspensionCommitted(s: Sys) {
    && s.tasks == map[1 := Task(SuspensionEvent(), true, Holding)]
    && s.log == {SuspensionEvent()}
    && s.auth.users == map["u" := AuthUser("a@b", true, Suspended, None, 2)]
    && s.auth.outbox == map["s" := NewRow(IdentityPayload(SuspensionEvent()), 0)]
    && s.held.Keys == {"u"} && |s.held["u"]| == 2
    && s.api.accounts == map["u" := Account("m", Active, 1, false, true, None, None)]
    && s.api.receipts == map[] && s.settled == {}
  }

  /** Both commands have committed and nothing has been delivered. */
  ghost predicate BothCommitted(s: Sys) {
    && s.tasks == map[1 := Task(SuspensionEvent(), true, Holding), 2 := Task(RevocationEvent(), true, Holding)]
    && s.auth.users.Keys == {"u"} && s.auth.users["u"].state == Suspended && s.auth.users["u"].version == 3
    && s.auth.outbox.Keys == {"s", "r"}
    && s.auth.outbox["s"].payload == IdentityPayload(SuspensionEvent())
    && s.auth.outbox["r"].payload == IdentityPayload(RevocationEvent())
    && s.auth.outbox["s"].deliveredAt.None? && s.auth.outbox["r"].deliveredAt.None?
    && s.api.accounts == map["u" := Account("m", Active, 1, false, true, None, None)]
    && s.api.receipts == map[] && s.settled == {}
  }

  lemma SuspensionCommits()
    ensures SuspensionCommitted(Step(Step(Empty(), ReorderedRun()[0]), ReorderedRun()[1]))
  {
  }

  lemma RevocationCommits(s: Sys)
    requires SuspensionCommitted(s)
    ensures BothCommitted(StepLifecycle(s, "u", RevokeSessions(""), Ids("r", "y"), 0, 2, true))
  {
  }

  lemma AfterCommandsIs()
    ensures BothCommitted(AfterCommands())
  {
    SuspensionCommits();
    RevocationCommits(Step(Step(Empty(), ReorderedRun()[0]), ReorderedRun()[1]));
  }

  /** A delivery that goes well from end to end. */
  function DeliverTask(s: Sys, task: nat): Sys {
    Step(Step(s, Publish(task, true, true, NoLocal())), RecordSuccess(task, 0))
  }

  lemma DeliverTaskIs(s: Sys, task: nat)
    requires task in s.tasks && s.tasks[task].phase == Holding && s.tasks[task].required
    requires Acknowledged(VerdictOf(s.api, s.tasks[task].event))
    ensures var s', e := DeliverTask(s, task), s.tasks[task].event;
            && s'.api == Receive(s.api, e, NoLocal()) && s'.settled == s.settled + {e}
            && s'.tasks == s.tasks - {task}
            && s'.auth == s.auth.(outbox := Delivered(s.auth.outbox, e.id, 0))
  {
  }

  lemma DeliveredInReverse(s: Sys)
    requires s == AfterCommands()
    ensures var s' := DeliverTask(DeliverTask(s, 2), 1);
            && s'.auth.users == s.auth.users && s'.settled == {RevocationEvent(), SuspensionEvent()}
            && s'.api.accounts == map["u" := Account("m", Active, 3, false, true, None, None)]
            && s'.auth.outbox == Delivered(Delivered(s.auth.outbox, "r", 0), "s", 0)
  {
    AfterCommandsIs();
    assert VerdictOf(s.api, RevocationEvent()) == Applied;
    DeliverTaskIs(s, 2);
    var s' := DeliverTask(s, 2);
    assert s'.tasks[1] == Task(SuspensionEvent(), true, Holding);
    assert s'.api.accounts == map["u" := Account("m", Active, 3, false, true, None, None)];
    assert VerdictOf(s'.api, SuspensionEvent()) == Stale;
    DeliverTaskIs(s', 1);
  }

  /**
   A suspension overtaken by a later revocation is dropped as stale: the outbox has drained and
   both commands have returned, yet the API keeps showing the account as active.
   */
  lemma ReorderedDeliveryDiverges()
    ensures var s := Run(Empty(), ReorderedRun());
            && "u" in s.auth.users && "u" in s.api.accounts && Drained(s, "u")
            && s.settled == {RevocationEvent(), SuspensionEvent()}
            && s.auth.users["u"].state == Suspended && s.api.accounts["u"].state == Active
            && s.auth.users["u"].version == s.api.accounts["u"].version
  {
    AfterCommandsIs();
    DeliveredInReverse(AfterCommands());
    RunSeven(Empty(), ReorderedRun());
  }

  lemma RunSeven(s: Sys, l: seq<Label>)
    requires |l| == 7
    ensures Run(s, l) == Step(Step(Step(Step(Step(Step(Step(s, l[0]), l[1]), l[2]), l[3]), l[4]), l[5]), l[6])
  {
    RunOne(s, l);
    var s1 := Step(s, l[0]);
    RunOne(s1, l[1..]);
    var s2 := Step(s1, l[1]);
    assert l[1..][1..] == l[2..];
    RunOne(s2, l[2..]);
    var s3 := Step(s2, l[2]);
    assert l[2..][1..] == l[3..];
    RunOne(s3, l[3..]);
    var s4 := Step(s3, l[3]);
    assert l[3..][1..] == l[4..];
    RunOne(s4, l[4..]);
    var s5 := Step(s4, l[4]);
    assert l[4..][1..] == l[5..];
    RunOne(s5, l[5..]);
    var s6 := Step(s5, l[5]);
    assert l[5..][1..] == l[6..];
    RunOne(s6, l[6..]);
    assert l[6..][1..] == [];
  }

  lemma RunOne(s: Sys, l: seq<Label>)
    requires l != []
    ensures Run(s, l) == Run(Step(s, l[0]), l[1..])
  {
  }
}
