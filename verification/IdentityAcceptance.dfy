/**
 When a token is accepted. Whether a subject's link stands is a matter of history: some step gave the
 account an active link, and none has erased it.
 */
module IdentityAcceptance {
  import opened Wrappers
  import opened Identity
  import opened AuthLifecycle
  import opened IdentityReceiver
  import opened IdentityProtocol
  import opened IdentityHistory
  import opened IdentityTheorems

  lemma {:induction false} RunStep(s: Sys, labels: seq<Label>, n: nat)
    requires n < |labels|
    ensures Run(s, labels[..n + 1]) == Step(Run(s, labels[..n]), labels[n])
    decreases n
  {
    var first, next := labels[..n + 1], labels[..n];
    if n == 0 {
      assert first == [labels[0]] && first[1..] == [];
    } else {
      var rest := labels[1..];
      RunStep(Step(s, labels[0]), rest, n - 1);
      assert first[1..] == rest[..n] && next[1..] == rest[..n - 1];
    }
  }

  // ----- what happened to a link -----

  /** The step at which an event takes effect on the API. */
  predicate TakesEffect(s: Sys, l: Label, e: Event) {
    e !in s.effective && e in Step(s, l).effective
  }

  /** The account of a user comes with this step, from the import. */
  predicate Imports(s: Sys, l: Label, u: UserId) {
    l.ImportLinked? && l.user == u && u !in s.api.accounts && u in Step(s, l).api.accounts
  }

  predicate IsErasure(e: Event, u: UserId) {
    e.user == u && e.change.AuthPseudonymized?
  }

  predicate IsLinking(api: ApiDb, e: Event, u: UserId) {
    && e.user == u
    && (e.change.EmailVerified? || (e.change.AuthUserCreated? && e.change.emailVerified && u !in api.accounts))
  }

  /** Imported active, created with a verified address, or verified later. */
  ghost predicate LinkedBy(s: Sys, l: Label, u: UserId) {
    (Imports(s, l, u) && l.account.linkActive) || exists e :: TakesEffect(s, l, e) && IsLinking(s.api, e, u)
  }

  predicate ImportedDeleted(s: Sys, l: Label, u: UserId) {
    Imports(s, l, u) && l.account.deletedAt.Some?
  }

  /** Erased by an event, or imported as deleted. */
  ghost predicate ErasedBy(s: Sys, l: Label, u: UserId) {
    ImportedDeleted(s, l, u) || exists e :: TakesEffect(s, l, e) && IsErasure(e, u)
  }

  ghost predicate Linked(labels: seq<Label>, u: UserId) {
    exists i :: 0 <= i < |labels| && LinkedBy(Run(Empty(), labels[..i]), labels[i], u)
  }

  ghost predicate Erased(labels: seq<Label>, u: UserId) {
    exists i :: 0 <= i < |labels| && ErasedBy(Run(Empty(), labels[..i]), labels[i], u)
  }

  // ----- what the API has stored of it -----

  /** An event that took effect has its receipt, and issued claims are well formed. */
  ghost predicate Recorded(s: Sys) {
    && (forall e | e in s.effective :: Has(s.api.receipts, e))
    && (forall c | c in s.issued :: ValidClaims(c))
  }

  predicate HasLink(api: ApiDb, u: UserId) {
    u in api.accounts && api.accounts[u].linkActive
  }

  predicate HasDeletion(api: ApiDb, u: UserId) {
    u in api.accounts && api.accounts[u].deletedAt.Some?
  }

  lemma PublishKeepsRecorded(s: Sys, task: nat, arrives: bool, replies: bool, local: Local)
    requires Inv(s) && Recorded(s)
    ensures Recorded(StepPublish(s, task, arrives, replies, local))
  {
  }

  lemma StepKeepsRecorded(s: Sys, l: Label)
    requires Inv(s) && Recorded(s)
    ensures Recorded(Step(s, l))
  {
    if l.Publish? {
      PublishKeepsRecorded(s, l.task, l.arrives, l.replies, l.local);
    }
  }

  /** What one step does to link and deletion. */
  ghost predicate LinkFollows(s: Sys, l: Label, u: UserId) {
    && (HasDeletion(Step(s, l).api, u) <==> HasDeletion(s.api, u) || ErasedBy(s, l, u))
    && (!HasDeletion(Step(s, l).api, u) ==>
          (HasLink(Step(s, l).api, u) <==> HasLink(s.api, u) || LinkedBy(s, l, u)))
  }

  lemma DeliveryLinks(api: ApiDb, e: Event, local: Local, u: UserId)
    ensures var after := Receive(api, e, local);
            var effective := VerdictOf(api, e).Applied? || VerdictOf(api, e).Created?;
            && (HasDeletion(after, u) <==> HasDeletion(api, u) || (effective && IsErasure(e, u)))
            && (!HasDeletion(after, u) ==>
                  (HasLink(after, u) <==> HasLink(api, u) || (effective && IsLinking(api, e, u))))
  {
  }

  /** The event that a delivery step makes effective, if any. */
  lemma DeliveryEffect(s: Sys, l: Label, e: Event)
    requires Recorded(s) && l.Publish? && l.task in s.tasks && s.tasks[l.task].phase == Holding && l.arrives
    ensures TakesEffect(s, l, e) <==>
            e == s.tasks[l.task].event && (VerdictOf(s.api, e).Applied? || VerdictOf(s.api, e).Created?)
    ensures Step(s, l).api == Receive(s.api, s.tasks[l.task].event, l.local)
  {
  }

  lemma PublishLinks(s: Sys, l: Label, u: UserId)
    requires Inv(s) && Recorded(s) && l.Publish?
    ensures LinkFollows(s, l, u)
  {
    if l.task in s.tasks && s.tasks[l.task].phase == Holding && l.arrives {
      var e := s.tasks[l.task].event;
      forall f {
        DeliveryEffect(s, l, f);
      }
      DeliveryEffect(s, l, e);
      DeliveryLinks(s.api, e, l.local, u);
    } else {
      assert Step(s, l).effective == s.effective && Step(s, l).api == s.api;
    }
  }

  lemma OtherStepLinks(s: Sys, l: Label, u: UserId)
    requires !l.Publish?
    ensures LinkFollows(s, l, u)
  {
    assert Step(s, l).effective == s.effective;
  }

  lemma StepLinks(s: Sys, l: Label, u: UserId)
    requires Inv(s) && Recorded(s)
    ensures Recorded(Step(s, l)) && LinkFollows(s, l, u)
  {
    StepKeepsRecorded(s, l);
    if l.Publish? {
      PublishLinks(s, l, u);
    } else {
      OtherStepLinks(s, l, u);
    }
  }

  /** The API has stored what the history says. */
  ghost predicate Shown(s: Sys, u: UserId, linked: bool, erased: bool) {
    Recorded(s) && (HasDeletion(s.api, u) <==> erased) && (!erased ==> (HasLink(s.api, u) <==> linked))
  }

  lemma StepShown(s: Sys, l: Label, u: UserId, linked: bool, erased: bool)
    requires Inv(s) && Shown(s, u, linked, erased)
    ensures Shown(Step(s, l), u, linked || LinkedBy(s, l, u), erased || ErasedBy(s, l, u))
  {
    StepLinks(s, l, u);
  }

  lemma {:induction false} RunLinks(labels: seq<Label>, n: nat, u: UserId)
    requires n <= |labels|
    ensures Shown(Run(Empty(), labels[..n]), u, Linked(labels[..n], u), Erased(labels[..n], u))
    decreases n
  {
    if n > 0 {
      var before := Run(Empty(), labels[..n - 1]);
      RunLinks(labels, n - 1, u);
      RunStep(Empty(), labels, n - 1);
      ReachableInv(labels[..n - 1]);
      StepShown(before, labels[n - 1], u, Linked(labels[..n - 1], u), Erased(labels[..n - 1], u));
      LinkedGrows(labels, n - 1, u);
      ErasedGrows(labels, n - 1, u);
    }
  }

  lemma PrefixOfPrefix(labels: seq<Label>, n: nat)
    requires n < |labels|
    ensures forall i | 0 <= i < n :: labels[..n + 1][..i] == labels[..n][..i] && labels[..n + 1][i] == labels[..n][i]
    ensures labels[..n + 1][..n] == labels[..n] && labels[..n + 1][n] == labels[n]
  {
  }

  /** One more step adds what it does to the history. */
  lemma LinkedGrows(labels: seq<Label>, n: nat, u: UserId)
    requires n < |labels|
    ensures Linked(labels[..n + 1], u)
            <==> Linked(labels[..n], u) || LinkedBy(Run(Empty(), labels[..n]), labels[n], u)
  {
    PrefixOfPrefix(labels, n);
    var longer, shorter := labels[..n + 1], labels[..n];
    if i :| 0 <= i < |shorter| && LinkedBy(Run(Empty(), shorter[..i]), shorter[i], u) {
      assert LinkedBy(Run(Empty(), longer[..i]), longer[i], u);
    }
    if LinkedBy(Run(Empty(), shorter), labels[n], u) {
      assert LinkedBy(Run(Empty(), longer[..n]), longer[n], u);
    }
  }

  lemma ErasedGrows(labels: seq<Label>, n: nat, u: UserId)
    requires n < |labels|
    ensures Erased(labels[..n + 1], u)
            <==> Erased(labels[..n], u) || ErasedBy(Run(Empty(), labels[..n]), labels[n], u)
  {
    PrefixOfPrefix(labels, n);
    var longer, shorter := labels[..n + 1], labels[..n];
    if i :| 0 <= i < |shorter| && ErasedBy(Run(Empty(), shorter[..i]), shorter[i], u) {
      assert ErasedBy(Run(Empty(), longer[..i]), longer[i], u);
    }
    if ErasedBy(Run(Empty(), shorter), labels[n], u) {
      assert ErasedBy(Run(Empty(), longer[..n]), longer[n], u);
    }
  }

  // ----- acceptance -----

  /** The subject's link stands. */
  ghost predicate LinkStands(labels: seq<Label>, u: UserId) {
    Linked(labels, u) && !Erased(labels, u)
  }

  /**
   After any run, a token that auth has issued is accepted exactly when its version is the one the API mirrors, the
   mirrored state is active, and the subject's link stands.
   */
  lemma {:induction false} AcceptedIff(labels: seq<Label>, c: Claims)
    requires c in Run(Empty(), labels).issued
    ensures var s := Run(Empty(), labels);
            Authenticates(s.api, c) <==>
            && c.subject in s.api.accounts
            && s.api.accounts[c.subject].version == c.version
            && s.api.accounts[c.subject].state == Active
            && LinkStands(labels, c.subject)
  {
    assert labels[..|labels|] == labels;
    RunLinks(labels, |labels|, c.subject);
  }

  ghost predicate NotImportedDeleted(labels: seq<Label>, u: UserId) {
    forall i | 0 <= i < |labels| :: !ImportedDeleted(Run(Empty(), labels[..i]), labels[i], u)
  }

  /** An event that erased the account has made it deleted for good. */
  lemma {:induction false} ActiveIsNotErased(labels: seq<Label>, u: UserId)
    requires var s := Run(Empty(), labels); u in s.auth.users && s.auth.users[u].state == Active
    requires NotImportedDeleted(labels, u)
    ensures !Erased(labels, u)
  {
    if i :| 0 <= i < |labels| && ErasedBy(Run(Empty(), labels[..i]), labels[i], u) {
      var before := Run(Empty(), labels[..i]);
      var e :| TakesEffect(before, labels[i], e) && IsErasure(e, u);
      RunStep(Empty(), labels, i);
      ErasureIsFinal(labels, i + 1, e);
    }
  }

  lemma {:induction false} LogIsKept(labels: seq<Label>, n: nat)
    requires n <= |labels|
    ensures Run(Empty(), labels[..n]).log <= Run(Empty(), labels).log
  {
    ReachableInv(labels[..n]);
    RunRemembers(Run(Empty(), labels[..n]), labels[n..]);
    RunConcat(Empty(), labels[..n], labels[n..]);
    assert labels[..n] + labels[n..] == labels;
  }

  lemma {:induction false} ErasureIsFinal(labels: seq<Label>, n: nat, e: Event)
    requires n <= |labels| && e in Run(Empty(), labels[..n]).effective && e.change.AuthPseudonymized?
    ensures var s := Run(Empty(), labels); e.user in s.auth.users && s.auth.users[e.user].state == Deleted
  {
    ReachableInv(labels[..n]);
    LogIsKept(labels, n);
    ReachableInv(labels);
    ErasedEventDeletes(Run(Empty(), labels), e);
  }

  lemma ErasedEventDeletes(s: Sys, e: Event)
    requires Inv(s) && History(s) && e in s.log && e.change.AuthPseudonymized?
    ensures e.user in s.auth.users && s.auth.users[e.user].state == Deleted
  {
    assert Carried(StateAspect, e.change) == Some(StateValue(Deleted));
    assert s.held[e.user][e.version - 1].state == Deleted;
  }

  lemma {:induction false} RunConcat(s: Sys, a: seq<Label>, b: seq<Label>)
    ensures Run(s, a + b) == Run(Run(s, a), b)
    decreases a
  {
    if a == [] {
      assert a + b == b;
    } else {
      assert (a + b)[1..] == a[1..] + b;
      RunConcat(Step(s, a[0]), a[1..], b);
    }
  }

  /** Whether a session has passed MFA within maxAge of now. */
  predicate PassedMfaWithin(session: Session, now: int, maxAge: int) {
    match session.mfaVerifiedAt
    case Some(at) => now - maxAge <= at <= now
    case None => false
  }

  /** The claims of the token that a session is due. */
  function DueClaims(s: Sys, session: string, now: int, maxAge: int): Claims
    requires session in s.auth.sessions && s.auth.sessions[session].user in s.auth.users
  {
    var u := s.auth.sessions[session].user;
    Claims(u, session, true, Active, s.auth.users[u].version,
           PassedMfaWithin(s.auth.sessions[session], now, maxAge))
  }

  /** Auth issues a token to a session exactly when its account is active with a verified address. */
  lemma IssuedIff(s: Sys, session: string, now: int, maxAge: int)
    requires session in s.auth.sessions && s.auth.sessions[session].user in s.auth.users
    ensures var account := s.auth.users[s.auth.sessions[session].user];
            var after := Step(s, Issue(session, now, maxAge));
            && after.issued == (if account.state == Active && account.emailVerified
                                then s.issued + {DueClaims(s, session, now, maxAge)} else s.issued)
            && after.api == s.api
  {
  }

  /**
   The token that a session of an active account with a verified address is given is accepted once version and state
   have been mirrored, if the account was linked and not imported as deleted.
   */
  lemma {:induction false} NewTokenIsAccepted(labels: seq<Label>, session: string, now: int, maxAge: int)
    requires var s := Run(Empty(), labels);
             && session in s.auth.sessions && s.auth.sessions[session].user in s.auth.users
             && var u := s.auth.sessions[session].user;
                && s.auth.users[u].state == Active && s.auth.users[u].emailVerified
                && u in s.api.accounts && s.api.accounts[u].version == s.auth.users[u].version
                && s.api.accounts[u].state == Active
                && Linked(labels, u) && NotImportedDeleted(labels, u)
    ensures var s := Run(Empty(), labels);
            var after := Step(s, Issue(session, now, maxAge));
            && DueClaims(s, session, now, maxAge) in after.issued
            && Authenticates(after.api, DueClaims(s, session, now, maxAge))
  {
    var s := Run(Empty(), labels);
    var u := s.auth.sessions[session].user;
    ReachableInv(labels);
    assert labels[..|labels|] == labels;
    RunLinks(labels, |labels|, u);
    ActiveIsNotErased(labels, u);
    IssuedIff(s, session, now, maxAge);
  }
}
