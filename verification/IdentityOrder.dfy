/**
 Delivery in version order. An event arrives in order when every earlier command of its account that can still
 arrive has arrived; erasing an account removes its undelivered rows, so some commands never can. Then the
 mirrored state and MFA flag are those held at the mirrored version, up to what was erased.
 */
module IdentityOrder {
  import opened Wrappers
  import opened Identity
  import opened AuthLifecycle
  import opened IdentityReceiver
  import opened IdentityProtocol
  import opened IdentityHistory
  import opened IdentityTheorems

  // ----- events that can no longer arrive -----

  predicate HasRow(outbox: map<EntryId, OutboxRow>, e: Event) {
    e.id in outbox && outbox[e.id].payload == IdentityPayload(e)
  }

  predicate InHand(tasks: map<nat, Task>, e: Event) {
    exists t | t in tasks :: tasks[t].phase == Holding && tasks[t].event == e
  }

  /** Its row was erased and nobody is about to publish it. */
  predicate Gone(s: Sys, e: Event) {
    !HasRow(s.auth.outbox, e) && !InHand(s.tasks, e)
  }

  /** The event has its row, or it was erased with its account. */
  ghost predicate RowOrErased(users: map<UserId, AuthUser>, outbox: map<EntryId, OutboxRow>, e: Event) {
    HasRow(outbox, e) || (e.user in users && users[e.user].state == Deleted && !e.change.AuthPseudonymized?)
  }

  /** Only erasing an account removes rows, and it leaves the row of the erasure itself. */
  ghost predicate RowsOrErased(users: map<UserId, AuthUser>, outbox: map<EntryId, OutboxRow>, log: set<Event>) {
    forall e | e in log :: RowOrErased(users, outbox, e)
  }

  /** No event but the erasure makes an account deleted. */
  ghost predicate OnlyErasureDeletes(log: set<Event>) {
    forall e | e in log && e.change.AccountStateChanged? :: e.change.state != Deleted
  }

  lemma CommandKeepsRow(db: AuthDb, user: UserId, c: Command, now: int, ids: Ids, f: Event)
    requires RunCommand(db, user, c, now, ids).Committed?
    requires HasRow(db.outbox, f) && f.id != ids.event && !(c.Pseudonymize? && f.user == user)
    ensures HasRow(RunCommand(db, user, c, now, ids).value.outbox, f)
  {
  }

  lemma CommandAddsRow(db: AuthDb, user: UserId, c: Command, now: int, ids: Ids)
    requires RunCommand(db, user, c, now, ids).Committed?
    ensures HasRow(RunCommand(db, user, c, now, ids).value.outbox,
            EventFor(user, db.users[user].version + 1, c, now, ids))
  {
  }

  /** An account can be erased only once. */
  lemma NotErasedBefore(s: Sys, f: Event)
    requires Inv(s) && History(s) && f in s.log && f.change.AuthPseudonymized?
    ensures f.user in s.auth.users && s.auth.users[f.user].state == Deleted
  {
    assert Carried(StateAspect, f.change) == Some(StateValue(Deleted));
    assert s.held[f.user][f.version - 1].state == Deleted;
  }

  lemma LifecycleKeepsRow(s: Sys, l: Label, f: Event)
    requires Inv(s) && History(s) && l.Lifecycle? && Step(s, l) != s
    requires f in s.log && RowOrErased(s.auth.users, s.auth.outbox, f)
    ensures RowOrErased(Step(s, l).auth.users, Step(s, l).auth.outbox, f)
  {
    CommandFollowsPolicy(s.auth, l.user, l.command, l.now, l.ids);
    if HasRow(s.auth.outbox, f) && !(l.command.Pseudonymize? && f.user == l.user) {
      CommandKeepsRow(s.auth, l.user, l.command, l.now, l.ids, f);
    } else if f.change.AuthPseudonymized? {
      NotErasedBefore(s, f);
    }
  }

  /** The event a command adds to the log has its row, and announces no deletion by a change of state. */
  lemma LifecycleAdds(s: Sys, l: Label)
    requires Inv(s) && l.Lifecycle?
    ensures forall f | f in Step(s, l).log && f !in s.log ::
              HasRow(Step(s, l).auth.outbox, f) && (f.change.AccountStateChanged? ==> f.change.state != Deleted)
  {
    if Step(s, l) != s {
      CommandAddsRow(s.auth, l.user, l.command, l.now, l.ids);
    }
  }

  lemma OtherKeepsRow(s: Sys, l: Label, f: Event)
    requires !l.Lifecycle? && f in s.log && RowOrErased(s.auth.users, s.auth.outbox, f)
    ensures RowOrErased(Step(s, l).auth.users, Step(s, l).auth.outbox, f)
  {
  }

  lemma OtherAdds(s: Sys, l: Label)
    requires !l.Lifecycle?
    ensures forall f | f in Step(s, l).log && f !in s.log ::
              HasRow(Step(s, l).auth.outbox, f) && !f.change.AccountStateChanged?
  {
  }

  lemma StepKeepsRows(s: Sys, l: Label)
    requires Inv(s) && History(s) && RowsOrErased(s.auth.users, s.auth.outbox, s.log) && OnlyErasureDeletes(s.log)
    ensures RowsOrErased(Step(s, l).auth.users, Step(s, l).auth.outbox, Step(s, l).log)
            && OnlyErasureDeletes(Step(s, l).log)
  {
    if l.Lifecycle? {
      LifecycleAdds(s, l);
    } else {
      OtherAdds(s, l);
    }
    forall f | f in Step(s, l).log
      ensures RowOrErased(Step(s, l).auth.users, Step(s, l).auth.outbox, f)
    {
      if f in s.log {
        if !l.Lifecycle? {
          OtherKeepsRow(s, l, f);
        } else if Step(s, l) != s {
          LifecycleKeepsRow(s, l, f);
        }
      }
    }
  }

  // ----- what is gone stays gone -----

  lemma LifecycleKeepsGone(s: Sys, l: Label, f: Event)
    requires Inv(s) && f in s.log && Gone(s, f) && l.Lifecycle?
    ensures Gone(Step(s, l), f)
  {
    if Step(s, l) != s {
      assert l.user in s.auth.users;
      var auth, e, snap := LifecycleStepRaises(s, l.user, l.command, l.ids, l.now, l.task, l.required);
    }
  }

  lemma ClaimKeepsGone(s: Sys, l: Label, f: Event)
    requires Inv(s) && f in s.log && Gone(s, f) && l.Claim?
    ensures Gone(Step(s, l), f)
  {
    if Step(s, l) != s {
      var e := s.auth.outbox[l.id].payload.event;
      assert e.id == l.id;
    }
  }

  lemma StepKeepsGone(s: Sys, l: Label, f: Event)
    requires Inv(s) && f in s.log && Gone(s, f)
    ensures Gone(Step(s, l), f)
  {
    match l {
      case Lifecycle(_, _, _, _, _, _) => LifecycleKeepsGone(s, l, f);
      case Claim(_, _, _) => ClaimKeepsGone(s, l, f);
      case _ => OtherKeepsGone(s, l, f);
    }
  }

  lemma OtherKeepsGone(s: Sys, l: Label, f: Event)
    requires f in s.log && Gone(s, f) && !l.Lifecycle? && !l.Claim?
    ensures Gone(Step(s, l), f)
  {
  }

  // ----- arriving in order -----

  function ApiVersion(api: ApiDb, u: UserId): int {
    if u in api.accounts then api.accounts[u].version else 0
  }

  /** Every earlier command of the account that can still arrive has arrived. */
  ghost predicate EarlierArrived(s: Sys, e: Event) {
    forall f | f in s.log && f.user == e.user && f != e && !Announcement(f.change)
               && ApiVersion(s.api, e.user) < f.version <= e.version :: Gone(s, f)
  }

  /** A delivery that raises the mirrored version does so in order; repetitions are free to come at any time. */
  ghost predicate InVersionOrder(s: Sys, l: Label) {
    l.Publish? && l.arrives && l.task in s.tasks && s.tasks[l.task].phase == Holding ==>
      var e := s.tasks[l.task].event;
      e.version <= ApiVersion(s.api, e.user) || EarlierArrived(s, e)
  }

  ghost predicate OrderedRun(s: Sys, labels: seq<Label>)
    decreases labels
  {
    labels == [] || (InVersionOrder(s, labels[0]) && OrderedRun(Step(s, labels[0]), labels[1..]))
  }

  ghost predicate Arrived(s: Sys, f: Event) {
    f in s.effective || Gone(s, f)
  }

  /** Up to the mirrored version, every command has taken effect or never will. */
  ghost predicate AllArrived(s: Sys) {
    forall f | f in s.log && f.user in s.api.accounts && !Announcement(f.change)
               && f.version <= s.api.accounts[f.user].version :: Arrived(s, f)
  }

  lemma PublishKeepsArrived(s: Sys, l: Label, f: Event)
    requires Inv(s) && AllArrived(s) && l.Publish? && InVersionOrder(s, l)
    requires f in s.log && !Announcement(f.change)
    requires f.user in Step(s, l).api.accounts && f.version <= Step(s, l).api.accounts[f.user].version
    ensures Arrived(Step(s, l), f)
  {
    if Gone(s, f) {
      OtherKeepsGone(s, l, f);
    } else if f.user in s.api.accounts && f.version <= s.api.accounts[f.user].version {
      assert Arrived(s, f);
    } else {
      RaisedBy(s, l, f.user);
    }
  }

  /** Only an event that takes effect raises the mirrored version, to its own. */
  lemma RaisedBy(s: Sys, l: Label, u: UserId)
    requires l.Publish? && u in Step(s, l).api.accounts
    requires ApiVersion(s.api, u) < Step(s, l).api.accounts[u].version
    ensures l.arrives && l.task in s.tasks && s.tasks[l.task].phase == Holding
    ensures var e := s.tasks[l.task].event;
            e.user == u && e.version == Step(s, l).api.accounts[u].version && e in Step(s, l).effective
  {
  }

  lemma OtherStepArrived(s: Sys, l: Label, f: Event)
    requires Inv(s) && AllArrived(s) && !l.Publish?
    requires f in Step(s, l).log && !Announcement(f.change)
    requires f.user in Step(s, l).api.accounts && f.version <= Step(s, l).api.accounts[f.user].version
    ensures Arrived(Step(s, l), f)
  {
    OldEvent(s, l, f);
    assert Arrived(s, f);
    if Gone(s, f) {
      StepKeepsGone(s, l, f);
    }
  }

  lemma OldEvent(s: Sys, l: Label, f: Event)
    requires HeldInv(s.auth.users, s.held) && LogInv(s.auth.users, s.log) && VersionsInv(s.auth.users, s.api.accounts)
    requires !l.Publish? && f in Step(s, l).log && !Announcement(f.change)
    requires f.user in Step(s, l).api.accounts && f.version <= Step(s, l).api.accounts[f.user].version
    ensures f in s.log && f.user in s.api.accounts && s.api.accounts[f.user] == Step(s, l).api.accounts[f.user]
    ensures Step(s, l).effective == s.effective
  {
    if l.Lifecycle? {
      CommandIsAhead(s, l, f);
    } else {
      OtherStepLogs(s, l, f);
      OtherStepMirrors(s, l, f.user);
    }
  }

  /** The event of a new command is ahead of the mirror. */
  lemma CommandIsAhead(s: Sys, l: Label, f: Event)
    requires VersionsInv(s.auth.users, s.api.accounts) && l.Lifecycle? && f in Step(s, l).log
    ensures f !in s.log && f.user in s.api.accounts ==> s.api.accounts[f.user].version < f.version
    ensures Step(s, l).api == s.api && Step(s, l).effective == s.effective
  {
  }

  lemma OtherStepLogs(s: Sys, l: Label, f: Event)
    requires !l.Publish? && !l.Lifecycle? && f in Step(s, l).log && !Announcement(f.change)
    ensures f in s.log && Step(s, l).effective == s.effective
  {
  }

  lemma OtherStepMirrors(s: Sys, l: Label, u: UserId)
    requires !l.Publish? && !l.Lifecycle? && u in s.auth.users && u in Step(s, l).api.accounts
    ensures u in s.api.accounts && s.api.accounts[u] == Step(s, l).api.accounts[u]
  {
  }

  ghost predicate Ordered(s: Sys) {
    RowsOrErased(s.auth.users, s.auth.outbox, s.log) && OnlyErasureDeletes(s.log) && AllArrived(s)
  }

  lemma StepKeepsOrdered(s: Sys, l: Label)
    requires Inv(s) && History(s) && Ordered(s) && InVersionOrder(s, l)
    ensures Ordered(Step(s, l))
  {
    StepKeepsRows(s, l);
    forall f | f in Step(s, l).log && f.user in Step(s, l).api.accounts && !Announcement(f.change)
               && f.version <= Step(s, l).api.accounts[f.user].version
      ensures Arrived(Step(s, l), f)
    {
      if l.Publish? {
        PublishKeepsArrived(s, l, f);
      } else {
        OtherStepArrived(s, l, f);
      }
    }
  }

  lemma {:induction false} RunKeepsOrdered(s: Sys, labels: seq<Label>)
    requires Inv(s) && History(s) && Ordered(s) && OrderedRun(s, labels)
    ensures Inv(Run(s, labels)) && History(Run(s, labels)) && Ordered(Run(s, labels))
    decreases labels
  {
    if labels != [] {
      StepKeepsOrdered(s, labels[0]);
      StepKeepsInv(s, labels[0]);
      StepKeepsHistory(s, labels[0]);
      RunKeepsOrdered(Step(s, labels[0]), labels[1..]);
    }
  }

  // ----- in step with auth -----

  /** A command that carries the value, up to the mirrored version, was erased without having taken effect. */
  ghost predicate Erased(s: Sys, a: Aspect, u: UserId) {
    exists f :: f in s.log && Carries(a, f, u) && f.version <= ApiVersion(s.api, u) && f !in s.effective && Gone(s, f)
  }

  /** The mirrored value is the one held at the mirrored version. */
  ghost predicate InStepFor(accounts: map<UserId, Account>, held: map<UserId, seq<Snap>>, a: Aspect, u: UserId)
    requires u in accounts
  {
    && u in held && 1 <= accounts[u].version <= |held[u]|
    && MirroredAt(a, accounts[u]) == HeldAt(a, held[u][accounts[u].version - 1])
  }

  lemma CommandsCarry(a: Aspect, e: Event, u: UserId)
    requires Carries(a, e, u)
    ensures !Announcement(e.change)
  {
  }

  lemma AllCarriedTookEffect(s: Sys, a: Aspect, u: UserId)
    requires AllArrived(s) && u in s.api.accounts && !Erased(s, a, u)
    ensures forall e | e in s.log && Carries(a, e, u) && e.version <= s.api.accounts[u].version :: e in s.effective
  {
    forall e | e in s.log && Carries(a, e, u) && e.version <= s.api.accounts[u].version
      ensures e in s.effective
    {
      CommandsCarry(a, e, u);
      assert Arrived(s, e);
    }
  }

  lemma InStepUnlessErased(s: Sys, a: Aspect, u: UserId)
    requires Inv(s) && History(s) && AllArrived(s) && u in s.api.accounts && !Erased(s, a, u)
    ensures InStepFor(s.api.accounts, s.held, a, u)
  {
    assert HasSource(s.held, s.api.accounts, s.effective, a, u);
    var k :| Source(s.held, s.api.accounts, s.effective, a, u, k);
    AllCarriedTookEffect(s, a, u);
    UnchangedSince(s.held[u], s.log, a, u, k, s.api.accounts[u].version);
  }

  // ----- when a mirrored value is right, under any order -----

  /** The newest of some events that carry the value. */
  ghost predicate Newest(events: set<Event>, a: Aspect, u: UserId, e: Event) {
    e in events && Carries(a, e, u) && forall f | f in events && Carries(a, f, u) :: f.version <= e.version
  }

  lemma {:induction false} SomeNewest(events: set<Event>, a: Aspect, u: UserId) returns (e: Event)
    requires exists f :: f in events && Carries(a, f, u)
    ensures Newest(events, a, u, e)
    decreases |events|
  {
    e :| e in events && Carries(a, e, u);
    if f :| f in events && Carries(a, f, u) && f.version > e.version {
      assert f in events - {e};
      e := SomeNewest(events - {e}, a, u);
    }
  }

  /** The commands up to the mirrored version that carry the value. */
  ghost function CommandsUpTo(s: Sys, a: Aspect, u: UserId): set<Event> {
    set e | e in s.log && Carries(a, e, u) && e.version <= ApiVersion(s.api, u)
  }

  /** The newest event that took effect carries this, or none took effect and the account started with it. */
  ghost predicate TookEffectWith(s: Sys, a: Aspect, u: UserId, value: Value)
    requires u in s.held && s.held[u] != []
  {
    || (exists e :: Newest(s.effective, a, u, e) && Carried(a, e.change).value == value)
    || ((forall e | e in s.effective :: !Carries(a, e, u)) && HeldAt(a, s.held[u][0]) == value)
  }

  lemma {:induction false} ShownIffTookEffect(labels: seq<Label>, a: Aspect, u: UserId, value: Value)
    requires u in Run(Empty(), labels).api.accounts
    ensures var s := Run(Empty(), labels);
            && u in s.held && s.held[u] != []
            && (MirroredAt(a, s.api.accounts[u]) == value <==> TookEffectWith(s, a, u, value))
  {
    var s := Run(Empty(), labels);
    MirrorsNewestEffective(labels, a, u);
    if exists f :: f in s.effective && Carries(a, f, u) {
      var newest := SomeNewest(s.effective, a, u);
    }
  }

  lemma InStepIffShown(s: Sys, a: Aspect, u: UserId, newest: Event)
    requires Inv(s) && History(s) && u in s.api.accounts && Newest(CommandsUpTo(s, a, u), a, u, newest)
    ensures InStepFor(s.api.accounts, s.held, a, u)
            <==> MirroredAt(a, s.api.accounts[u]) == Carried(a, newest.change).value
  {
    var n := s.api.accounts[u].version;
    forall e | e in s.log && Carries(a, e, u) && e.version <= n
      ensures e.version <= newest.version
    {
      assert e in CommandsUpTo(s, a, u);
    }
    UnchangedSince(s.held[u], s.log, a, u, newest.version, n);
    assert HeldAt(a, s.held[u][newest.version - 1]) == Carried(a, newest.change).value;
  }

  lemma InStepWithoutCommands(s: Sys, a: Aspect, u: UserId)
    requires Inv(s) && History(s) && u in s.api.accounts && CommandsUpTo(s, a, u) == {}
    ensures InStepFor(s.api.accounts, s.held, a, u)
  {
    assert HasSource(s.held, s.api.accounts, s.effective, a, u);
    var k :| Source(s.held, s.api.accounts, s.effective, a, u, k);
    assert forall e | e in s.log && Carries(a, e, u) && e.version <= s.api.accounts[u].version ::
        e in CommandsUpTo(s, a, u);
    UnchangedSince(s.held[u], s.log, a, u, k, s.api.accounts[u].version);
  }

  lemma {:induction false} InStepIffFor(labels: seq<Label>, a: Aspect, u: UserId, newest: Event)
    requires u in Run(Empty(), labels).api.accounts
    requires Newest(CommandsUpTo(Run(Empty(), labels), a, u), a, u, newest)
    ensures var s := Run(Empty(), labels);
            && u in s.held && s.held[u] != []
            && (InStepFor(s.api.accounts, s.held, a, u) <==> TookEffectWith(s, a, u, Carried(a, newest.change).value))
  {
    ReachableInv(labels);
    InStepIffShown(Run(Empty(), labels), a, u, newest);
    ShownIffTookEffect(labels, a, u, Carried(a, newest.change).value);
  }

  lemma {:induction false} InStepWithNone(labels: seq<Label>, a: Aspect, u: UserId)
    requires u in Run(Empty(), labels).api.accounts && CommandsUpTo(Run(Empty(), labels), a, u) == {}
    ensures InStepFor(Run(Empty(), labels).api.accounts, Run(Empty(), labels).held, a, u)
  {
    ReachableInv(labels);
    InStepWithoutCommands(Run(Empty(), labels), a, u);
  }

  lemma {:induction false} DrainedInStep(labels: seq<Label>, a: Aspect, u: UserId)
    requires u in Run(Empty(), labels).api.accounts
    ensures var s := Run(Empty(), labels);
            && u in s.held && s.held[u] != []
            && (Drained(s, u) ==>
                  (InStepFor(s.api.accounts, s.held, a, u)
                   <==> MirroredAt(a, s.api.accounts[u]) == HeldAt(a, Last(s.held[u]))))
  {
    ReachableInv(labels);
    DrainedVersionsEqual(labels, u);
    HeldUpToVersion(Run(Empty(), labels), u);
  }

  lemma HeldUpToVersion(s: Sys, u: UserId)
    requires Inv(s) && u in s.api.accounts
    ensures u in s.auth.users && u in s.held && |s.held[u]| == s.auth.users[u].version
    ensures 1 <= s.api.accounts[u].version <= |s.held[u]|
  {
  }

  /**
   Over every run and under any order, a mirrored value is the one held at the mirrored version if and only if the
   newest event that took effect carries the same value as the newest command up to that version, or none took
   effect and the account started with that value; with no such command it always is. Once the outbox has drained,
   being in step is showing auth's current value.
   */
  lemma {:induction false} InStepIff(labels: seq<Label>, a: Aspect, u: UserId)
    requires u in Run(Empty(), labels).api.accounts
    ensures var s := Run(Empty(), labels);
            && u in s.held && s.held[u] != []
            && (forall newest | Newest(CommandsUpTo(s, a, u), a, u, newest) ::
                  InStepFor(s.api.accounts, s.held, a, u) <==> TookEffectWith(s, a, u, Carried(a, newest.change).value))
            && (CommandsUpTo(s, a, u) == {} ==> InStepFor(s.api.accounts, s.held, a, u))
            && (Drained(s, u) ==>
                  (InStepFor(s.api.accounts, s.held, a, u)
                   <==> MirroredAt(a, s.api.accounts[u]) == HeldAt(a, Last(s.held[u]))))
  {
    var s := Run(Empty(), labels);
    DrainedInStep(labels, a, u);
    forall newest | Newest(CommandsUpTo(s, a, u), a, u, newest)
      ensures InStepFor(s.api.accounts, s.held, a, u) <==> TookEffectWith(s, a, u, Carried(a, newest.change).value)
    {
      InStepIffFor(labels, a, u, newest);
    }
    if CommandsUpTo(s, a, u) == {} {
      InStepWithNone(labels, a, u);
    }
  }

  // ----- what an ordered run adds -----

  lemma ErasedMeansDeleted(s: Sys, a: Aspect, u: UserId)
    requires Inv(s) && Ordered(s) && Erased(s, a, u)
    ensures u in s.auth.users && s.auth.users[u].state == Deleted
  {
  }

  /** Once the mirror shows the erasure, or while there is none, the state is in step. */
  lemma StateInStep(s: Sys, u: UserId)
    requires Inv(s) && History(s) && Ordered(s) && u in s.api.accounts && u in s.auth.users
    requires s.api.accounts[u].state == Deleted || s.auth.users[u].state != Deleted
    ensures InStepFor(s.api.accounts, s.held, StateAspect, u)
  {
    if s.api.accounts[u].state == Deleted {
      var k := MirroredDeletionWasHeld(s, u);
      assert s.held[u][s.api.accounts[u].version - 1].state == Deleted;
    } else {
      if Erased(s, StateAspect, u) {
        ErasedMeansDeleted(s, StateAspect, u);
      }
      InStepUnlessErased(s, StateAspect, u);
    }
  }

  /** The event that brought auth to the state it still has took effect, once its version is mirrored. */
  lemma ChangeTookEffect(s: Sys, u: UserId, n: int)
    requires Inv(s) && History(s) && Ordered(s) && u in s.api.accounts && u in s.held
    requires 2 <= n <= |s.held[u]| && n <= s.api.accounts[u].version
    requires s.held[u][n - 2].state != s.held[u][n - 1].state == s.auth.users[u].state
    ensures exists f :: f in s.effective && Carries(StateAspect, f, u) && f.version == n
  {
    assert ChangeExplained(s.held[u], s.log, StateAspect, u, n - 1);
    var f :| f in s.log && Carries(StateAspect, f, u) && f.version == n;
    CommandsCarry(StateAspect, f, u);
    assert Arrived(s, f);
    assert RowOrErased(s.auth.users, s.auth.outbox, f);
  }

  /** The last state of auth was held already at version k, when no newer event has taken effect. */
  lemma {:induction false} StateReached(s: Sys, u: UserId, k: int, n: int)
    requires Inv(s) && History(s) && Ordered(s) && u in s.api.accounts && u in s.held
    requires Source(s.held, s.api.accounts, s.effective, StateAspect, u, k)
    requires k <= n <= |s.held[u]| && n <= s.api.accounts[u].version
    requires s.held[u][n - 1].state == s.auth.users[u].state
    ensures s.held[u][k - 1].state == s.auth.users[u].state
    decreases n
  {
    if k < n {
      if s.held[u][n - 1].state != s.held[u][n - 2].state {
        ChangeTookEffect(s, u, n);
        assert false;
      }
      StateReached(s, u, k, n - 1);
    }
  }

  /** Whenever the versions agree, so do the states. */
  lemma CaughtUpState(s: Sys, u: UserId)
    requires Inv(s) && History(s) && Ordered(s) && u in s.api.accounts && u in s.auth.users
    requires s.api.accounts[u].version == s.auth.users[u].version
    ensures s.api.accounts[u].state == s.auth.users[u].state
  {
    assert HasSource(s.held, s.api.accounts, s.effective, StateAspect, u);
    var k :| Source(s.held, s.api.accounts, s.effective, StateAspect, u, k);
    assert Last(s.held[u]).state == s.auth.users[u].state;
    StateReached(s, u, k, |s.held[u]|);
  }

  lemma EmptyOrdered()
    ensures Ordered(Empty())
  {
  }

  lemma OrderedReachable(labels: seq<Label>)
    requires OrderedRun(Empty(), labels)
    ensures Inv(Run(Empty(), labels)) && History(Run(Empty(), labels)) && Ordered(Run(Empty(), labels))
  {
    EmptyInv();
    EmptyOrdered();
    RunKeepsOrdered(Empty(), labels);
  }

  /** What an ordered run leaves of one account, before anything is said about drained outboxes. */
  lemma MirrorIsInStep(s: Sys, u: UserId)
    requires Inv(s) && History(s) && Ordered(s) && u in s.api.accounts
    ensures u in s.auth.users && u in s.held && 1 <= s.api.accounts[u].version <= |s.held[u]|
    ensures forall a: Aspect | !Erased(s, a, u) :: InStepFor(s.api.accounts, s.held, a, u)
    ensures forall a: Aspect | Erased(s, a, u) :: s.auth.users[u].state == Deleted
    ensures s.api.accounts[u].state == Deleted || s.auth.users[u].state != Deleted ==>
              InStepFor(s.api.accounts, s.held, StateAspect, u)
    ensures s.api.accounts[u].version == s.auth.users[u].version ==> s.api.accounts[u].state == s.auth.users[u].state
  {
    forall a: Aspect | !Erased(s, a, u)
      ensures InStepFor(s.api.accounts, s.held, a, u)
    {
      InStepUnlessErased(s, a, u);
    }
    forall a: Aspect | Erased(s, a, u)
      ensures s.auth.users[u].state == Deleted
    {
      ErasedMeansDeleted(s, a, u);
    }
    if s.api.accounts[u].state == Deleted || s.auth.users[u].state != Deleted {
      StateInStep(s, u);
    }
    if s.api.accounts[u].version == s.auth.users[u].version {
      CaughtUpState(s, u);
    }
  }

  lemma DrainedIsCurrent(s: Sys, u: UserId)
    requires Inv(s) && History(s) && Ordered(s) && u in s.api.accounts && u in s.held && s.held[u] != []
    requires u in s.auth.users && s.api.accounts[u].version == s.auth.users[u].version
    ensures s.api.accounts[u].state == s.auth.users[u].state
    ensures !Erased(s, MfaAspect, u) ==> Snap(s.api.accounts[u].state, s.api.accounts[u].mfa) == Last(s.held[u])
  {
    CaughtUpState(s, u);
    assert |s.held[u]| == s.api.accounts[u].version;
    if !Erased(s, MfaAspect, u) {
      InStepUnlessErased(s, MfaAspect, u);
    }
  }

  /**
   Version-ordered delivery refines auth. After every step of an ordered run each mirrored value is the one that
   auth held at the mirrored version, unless a command that carried it was erased with its account before it took
   effect; only an erased account has such commands. The state is in step also once the erasure has arrived, and
   equals auth's own whenever the versions agree. Once the outbox has drained, version and state are auth's, and the
   MFA flag too unless an MFA command was erased without having taken effect.
   */
  lemma {:induction false} OrderedDeliveryRefines(labels: seq<Label>, u: UserId)
    requires OrderedRun(Empty(), labels) && u in Run(Empty(), labels).api.accounts
    ensures var s := Run(Empty(), labels);
            && u in s.auth.users && u in s.held && 1 <= s.api.accounts[u].version <= |s.held[u]|
            && (forall a: Aspect | !Erased(s, a, u) :: InStepFor(s.api.accounts, s.held, a, u))
            && (forall a: Aspect | Erased(s, a, u) :: s.auth.users[u].state == Deleted)
            && (s.api.accounts[u].state == Deleted || s.auth.users[u].state != Deleted ==>
                  InStepFor(s.api.accounts, s.held, StateAspect, u))
            && (s.api.accounts[u].version == s.auth.users[u].version
               ==> s.api.accounts[u].state == s.auth.users[u].state)
    ensures var s := Run(Empty(), labels);
            Drained(s, u) ==>
              && s.api.accounts[u].version == s.auth.users[u].version
              && s.api.accounts[u].state == s.auth.users[u].state
              && (!Erased(s, MfaAspect, u) ==> Snap(s.api.accounts[u].state, s.api.accounts[u].mfa) == Last(s.held[u]))
  {
    OrderedReachable(labels);
    DrainedVersionsEqual(labels, u);
    MirrorIsInStep(Run(Empty(), labels), u);
    if Drained(Run(Empty(), labels), u) {
      DrainedIsCurrent(Run(Empty(), labels), u);
    }
  }

  // ----- what an erasure hides -----

  function Linked(): Label {
    ImportLinked("u", AuthUser("a@b", true, Active, None, 1), Account("m", Active, 1, false, true, None, None))
  }

  function EventAt(id: EntryId, version: int, change: Change, at: int): Event {
    Event(id, "u", version, change, at)
  }

  /** MFA is set up and the deletion requested; neither is delivered before the account is erased. */
  function ErasedRun(): seq<Label> {
    [Linked(),
     Lifecycle("u", RecordMfaState(true), Ids("m", "x"), 0, 1, true),
     Lifecycle("u", RequestDeletion(5, "h"), Ids("d", "y"), 0, 2, true),
     Crash(1),
     Crash(2),
     Lifecycle("u", Pseudonymize, Ids("p", "z"), 9, 3, true),
     Publish(3, true, true, NoLocal()),
     RecordSuccess(3, 9)]
  }

  function MfaEvent(): Event {
    EventAt("m", 2, MfaConfigured, 0)
  }

  function RequestEvent(): Event {
    EventAt("d", 3, DeletionRequested(5), 0)
  }

  function ErasureEvent(): Event {
    EventAt("p", 4, AuthPseudonymized, 9)
  }

  function StartAccount(): Account {
    Account("m", Active, 1, false, true, None, None)
  }

  /** Both commands have committed. */
  ghost predicate Requested(s: Sys) {
    && s.tasks == map[1 := Task(MfaEvent(), true, Holding), 2 := Task(RequestEvent(), true, Holding)]
    && s.log == {MfaEvent(), RequestEvent()}
    && s.auth.users == map["u" := AuthUser("a@b", true, DeletionPending, Some(5), 3)]
    && s.auth.outbox.Keys == {"m", "d", "y"}
    && s.auth.outbox["m"].payload == IdentityPayload(MfaEvent())
    && s.auth.outbox["d"].payload == IdentityPayload(RequestEvent())
    && s.auth.outbox["y"].payload == EmailPayload("a@b")
    && s.held.Keys == {"u"}
    && s.held["u"] == [Snap(Active, false), Snap(Active, true), Snap(DeletionPending, true)]
    && s.api.accounts == map["u" := StartAccount()] && s.api.receipts == map[] && s.effective == {}
  }

  ghost predicate MfaSet(s: Sys) {
    && s.tasks == map[1 := Task(MfaEvent(), true, Holding)] && s.log == {MfaEvent()}
    && s.auth.users == map["u" := AuthUser("a@b", true, Active, None, 2)]
    && s.auth.outbox == map["m" := NewRow(IdentityPayload(MfaEvent()), 0)]
    && s.auth.tokens == map[]
    && s.held.Keys == {"u"} && s.held["u"] == [Snap(Active, false), Snap(Active, true)]
    && s.api.accounts == map["u" := StartAccount()] && s.api.receipts == map[] && s.effective == {}
  }

  lemma MfaCommits()
    ensures MfaSet(Step(Step(Empty(), ErasedRun()[0]), ErasedRun()[1]))
  {
    var s1 := Step(Empty(), ErasedRun()[0]);
    assert s1.held["u"] == [Snap(Active, false)];
  }

  lemma RequestCommits(s: Sys)
    requires MfaSet(s)
    ensures Requested(Step(s, ErasedRun()[2]))
  {
  }

  /** The erasure has committed; the rows of the earlier commands are gone and nobody has them in hand. */
  ghost predicate ErasureCommitted(s: Sys) {
    && s.tasks == map[3 := Task(ErasureEvent(), true, Holding)]
    && s.log == {MfaEvent(), RequestEvent(), ErasureEvent()}
    && s.auth.users.Keys == {"u"} && s.auth.users["u"].state == Deleted && s.auth.users["u"].version == 4
    && s.auth.outbox == map["p" := NewRow(IdentityPayload(ErasureEvent()), 9)]
    && s.held.Keys == {"u"}
    && s.held["u"] == [Snap(Active, false), Snap(Active, true), Snap(DeletionPending, true), Snap(Deleted, true)]
    && s.api.accounts == map["u" := StartAccount()] && s.api.receipts == map[] && s.effective == {}
  }

  lemma CrashesLose(s: Sys)
    requires Requested(s)
    ensures var s' := Step(Step(s, Crash(1)), Crash(2)); s' == s.(tasks := map[])
  {
  }

  lemma ErasureCommits(s: Sys)
    requires Requested(s)
    ensures ErasureCommitted(StepLifecycle(s.(tasks := map[]), "u", Pseudonymize, Ids("p", "z"), 9, 3, true))
  {
    var after := StepLifecycle(s.(tasks := map[]), "u", Pseudonymize, Ids("p", "z"), 9, 3, true);
    assert OutboxKept(s.auth, "u", Pseudonymize, 9, Ids("p", "z")) == map[];
  }

  lemma ErasureArrives(s: Sys)
    requires ErasureCommitted(s)
    ensures InVersionOrder(s, ErasedRun()[6])
    ensures var s' := Step(Step(s, ErasedRun()[6]), ErasedRun()[7]);
            && s'.auth.users == s.auth.users && s'.held == s.held && s'.log == s.log
            && s'.effective == {ErasureEvent()}
            && s'.api.accounts == map["u" := Account("m", Deleted, 4, false, false, Some(9), None)]
            && s'.tasks == map[] && s'.auth.outbox.Keys == {"p"} && s'.auth.outbox["p"].deliveredAt.Some?
  {
    assert VerdictOf(s.api, ErasureEvent()) == Applied;
  }

  /** The states of the run up to the delivery. */
  lemma ErasedRunBefore()
    ensures var l := ErasedRun();
            ErasureCommitted(Step(Step(Step(Step(Step(Step(Empty(), l[0]), l[1]), l[2]), l[3]), l[4]), l[5]))
  {
    var l := ErasedRun();
    MfaCommits();
    var s2 := Step(Step(Empty(), l[0]), l[1]);
    RequestCommits(s2);
    var s3 := Step(s2, l[2]);
    CrashesLose(s3);
    ErasureCommits(s3);
  }

  lemma QuietIsInOrder(s: Sys, labels: seq<Label>)
    requires labels != [] && !labels[0].Publish?
    ensures Run(s, labels) == Run(Step(s, labels[0]), labels[1..])
    ensures OrderedRun(s, labels) <==> OrderedRun(Step(s, labels[0]), labels[1..])
  {
  }

  /**
   Delivered in order and drained, yet the API never learns of the MFA set up before the erasure: state and
   version are auth's, the MFA flag is not.
   */
  lemma ErasedMfaIsMissed()
    ensures OrderedRun(Empty(), ErasedRun())
    ensures var s := Run(Empty(), ErasedRun());
            && "u" in s.api.accounts && "u" in s.held && s.held["u"] != [] && Drained(s, "u")
            && Erased(s, MfaAspect, "u")
            && s.api.accounts["u"].version == 4 && s.api.accounts["u"].state == Deleted
            && Last(s.held["u"]).state == Deleted && Last(s.held["u"]).mfa && !s.api.accounts["u"].mfa
  {
    var s := ErasedRunEnds();
    ErasureArrives(s);
    var end := Run(Empty(), ErasedRun());
    assert MfaEvent() in end.log && Gone(end, MfaEvent());
  }

  lemma ErasedRunEnds() returns (s: Sys)
    ensures ErasureCommitted(s)
    ensures Run(Empty(), ErasedRun()) == Step(Step(s, ErasedRun()[6]), ErasedRun()[7])
    ensures OrderedRun(Empty(), ErasedRun()) <==> InVersionOrder(s, ErasedRun()[6])
  {
    var l := ErasedRun();
    ErasedRunBefore();
    s := Step(Step(Step(Step(Step(Step(Empty(), l[0]), l[1]), l[2]), l[3]), l[4]), l[5]);
    FirstSixAreQuiet(l);
    LastTwo(s, l[6..]);
  }

  lemma FirstSixAreQuiet(l: seq<Label>)
    requires l == ErasedRun()
    ensures var s6 := Step(Step(Step(Step(Step(Step(Empty(), l[0]), l[1]), l[2]), l[3]), l[4]), l[5]);
            Run(Empty(), l) == Run(s6, l[6..]) && (OrderedRun(Empty(), l) <==> OrderedRun(s6, l[6..]))
  {
    QuietIsInOrder(Empty(), l);
    var s1 := Step(Empty(), l[0]);
    QuietIsInOrder(s1, l[1..]);
    var s2 := Step(s1, l[1]);
    assert l[1..][1..] == l[2..];
    QuietIsInOrder(s2, l[2..]);
    var s3 := Step(s2, l[2]);
    assert l[2..][1..] == l[3..];
    QuietIsInOrder(s3, l[3..]);
    var s4 := Step(s3, l[3]);
    assert l[3..][1..] == l[4..];
    QuietIsInOrder(s4, l[4..]);
    var s5 := Step(s4, l[4]);
    assert l[4..][1..] == l[5..];
    QuietIsInOrder(s5, l[5..]);
    assert l[5..][1..] == l[6..];
  }

  lemma LastTwo(s: Sys, l: seq<Label>)
    requires |l| == 2 && !l[1].Publish?
    ensures Run(s, l) == Step(Step(s, l[0]), l[1])
    ensures OrderedRun(s, l) <==> InVersionOrder(s, l[0])
  {
    QuietIsInOrder(Step(s, l[0]), l[1..]);
    assert l[1..][1..] == [];
  }

  // ----- overtaking an erased request -----

  /** The request for deletion is erased while the MFA event after it is still in hand, and then published. */
  function OvertakingRun(): seq<Label> {
    [Linked(),
     Lifecycle("u", RequestDeletion(5, "h"), Ids("d", "y"), 0, 1, true),
     Lifecycle("u", RecordMfaState(true), Ids("m", "x"), 0, 2, true),
     Crash(1),
     Lifecycle("u", Pseudonymize, Ids("p", "z"), 9, 3, true),
     Publish(2, true, true, NoLocal())]
  }

  function EarlyRequest(): Event {
    EventAt("d", 2, DeletionRequested(5), 0)
  }

  function LateMfa(): Event {
    EventAt("m", 3, MfaConfigured, 0)
  }

  ghost predicate RequestPending(s: Sys) {
    && s.tasks == map[1 := Task(EarlyRequest(), true, Holding)] && s.log == {EarlyRequest()}
    && s.auth.users == map["u" := AuthUser("a@b", true, DeletionPending, Some(5), 2)]
    && s.auth.outbox.Keys == {"d", "y"} && s.auth.outbox["d"].payload == IdentityPayload(EarlyRequest())
    && s.auth.outbox["y"].payload == EmailPayload("a@b")
    && s.held.Keys == {"u"} && s.held["u"] == [Snap(Active, false), Snap(DeletionPending, false)]
    && s.api.accounts == map["u" := StartAccount()] && s.api.receipts == map[]
  }

  ghost predicate MfaPending(s: Sys) {
    && s.tasks == map[1 := Task(EarlyRequest(), true, Holding), 2 := Task(LateMfa(), true, Holding)]
    && s.log == {EarlyRequest(), LateMfa()}
    && s.auth.users == map["u" := AuthUser("a@b", true, DeletionPending, Some(5), 3)]
    && s.auth.outbox.Keys == {"d", "y", "m"} && s.auth.outbox["d"].payload == IdentityPayload(EarlyRequest())
    && s.auth.outbox["m"].payload == IdentityPayload(LateMfa()) && s.auth.outbox["y"].payload == EmailPayload("a@b")
    && s.held.Keys == {"u"}
    && s.held["u"] == [Snap(Active, false), Snap(DeletionPending, false), Snap(DeletionPending, true)]
    && s.api.accounts == map["u" := StartAccount()] && s.api.receipts == map[]
  }

  ghost predicate MfaOvertakes(s: Sys) {
    && s.tasks.Keys == {2, 3} && s.tasks[2] == Task(LateMfa(), true, Holding) && s.tasks[3].event.version == 4
    && s.log == {EarlyRequest(), LateMfa(), s.tasks[3].event}
    && s.auth.outbox.Keys == {"p"} && s.auth.users.Keys == {"u"} && s.auth.users["u"].state == Deleted
    && s.held.Keys == {"u"} && |s.held["u"]| == 4 && s.held["u"][2] == Snap(DeletionPending, true)
    && s.api.accounts == map["u" := StartAccount()] && s.api.receipts == map[]
  }

  lemma RequestIsPending()
    ensures RequestPending(Step(Step(Empty(), OvertakingRun()[0]), OvertakingRun()[1]))
  {
    var s1 := Step(Empty(), OvertakingRun()[0]);
    assert s1.held["u"] == [Snap(Active, false)];
  }

  lemma MfaIsPending(s: Sys)
    requires RequestPending(s)
    ensures MfaPending(Step(s, OvertakingRun()[2]))
  {
  }

  lemma RequestIsErased(s: Sys)
    requires MfaPending(s)
    ensures MfaOvertakes(Step(Step(s, OvertakingRun()[3]), OvertakingRun()[4]))
  {
    assert OutboxKept(s.auth, "u", Pseudonymize, 9, Ids("p", "z")) == map[];
  }

  lemma MfaArrives(s: Sys)
    requires MfaOvertakes(s)
    ensures InVersionOrder(s, OvertakingRun()[5])
    ensures var s' := Step(s, OvertakingRun()[5]);
            && s'.held == s.held && s'.api.accounts == map["u" := StartAccount().(version := 3, mfa := true)]
  {
    assert VerdictOf(s.api, LateMfa()) == Applied;
  }

  /**
   The state may lag behind the mirrored version while the erasure has not arrived: the request that it missed
   was erased, and a later event reached the API first.
   */
  lemma ErasedRequestIsOvertaken()
    ensures OrderedRun(Empty(), OvertakingRun())
    ensures var s := Run(Empty(), OvertakingRun());
            && "u" in s.api.accounts && "u" in s.held && |s.held["u"]| >= s.api.accounts["u"].version == 3
            && s.api.accounts["u"].state == Active && s.held["u"][2].state == DeletionPending
  {
    var l := OvertakingRun();
    RequestIsPending();
    var s1 := Step(Empty(), l[0]);
    var s2 := Step(s1, l[1]);
    MfaIsPending(s2);
    var s3 := Step(s2, l[2]);
    RequestIsErased(s3);
    var s4 := Step(s3, l[3]);
    var s5 := Step(s4, l[4]);
    MfaArrives(s5);
    QuietIsInOrder(Empty(), l);
    QuietIsInOrder(s1, l[1..]);
    assert l[1..][1..] == l[2..];
    QuietIsInOrder(s2, l[2..]);
    assert l[2..][1..] == l[3..];
    QuietIsInOrder(s3, l[3..]);
    assert l[3..][1..] == l[4..];
    QuietIsInOrder(s4, l[4..]);
    assert l[4..][1..] == l[5..] && l[5..][1..] == [];
    assert Run(Step(s5, l[5]), []) == Step(s5, l[5]);
  }
}
