/** Signing out. Once a command has ended the sessions of a user, only a new sign-in leads to another token. */
module IdentitySessions {
  import opened Wrappers
  import opened Identity
  import opened AuthLifecycle
  import opened IdentityReceiver
  import opened IdentityProtocol
  import opened IdentityHistory
  import opened IdentityTheorems
  import opened IdentityAcceptance

  /** The step at which a user signs in to a new session. */
  predicate SignsIn(s: Sys, l: Label, session: string, u: UserId) {
    && l.SignIn? && l.session == session && l.user == u
    && session !in s.auth.sessions && session in Step(s, l).auth.sessions
  }

  ghost predicate SignedInDuring(s: Sys, labels: seq<Label>, session: string, u: UserId) {
    exists i :: 0 <= i < |labels| && SignsIn(Run(s, labels[..i]), labels[i], session, u)
  }

  predicate IsSessionOf(s: Sys, session: string, u: UserId) {
    session in s.auth.sessions && s.auth.sessions[session].user == u
  }

  lemma StepAddsSession(s: Sys, l: Label, session: string, u: UserId)
    requires IsSessionOf(Step(s, l), session, u) && !IsSessionOf(s, session, u)
    ensures SignsIn(s, l, session, u)
  {
  }

  lemma {:induction false} SessionsSince(s: Sys, labels: seq<Label>, n: nat, session: string, u: UserId)
    requires n <= |labels| && (forall k :: !IsSessionOf(s, k, u)) && IsSessionOf(Run(s, labels[..n]), session, u)
    ensures SignedInDuring(s, labels[..n], session, u)
    decreases n
  {
    assert labels[..0] == [];
    if n > 0 {
      RunStep(s, labels, n - 1);
      var shorter, longer := labels[..n - 1], labels[..n];
      assert forall i | 0 <= i < n - 1 :: shorter[..i] == longer[..i] && shorter[i] == longer[i];
      assert longer[..n - 1] == shorter;
      if IsSessionOf(Run(s, shorter), session, u) {
        SessionsSince(s, labels, n - 1, session, u);
        var i :| 0 <= i < |shorter| && SignsIn(Run(s, shorter[..i]), shorter[i], session, u);
        assert SignsIn(Run(s, longer[..i]), longer[i], session, u);
      } else {
        StepAddsSession(Run(s, shorter), labels[n - 1], session, u);
      }
    }
  }

  lemma StepIssues(s: Sys, l: Label, c: Claims)
    requires c in Step(s, l).issued && c !in s.issued
    ensures IsSessionOf(s, c.session, c.subject)
  {
  }

  lemma {:induction false} TokensSince(s: Sys, labels: seq<Label>, n: nat, c: Claims)
    requires n <= |labels| && (forall k :: !IsSessionOf(s, k, c.subject))
    requires c in Run(s, labels[..n]).issued && c !in s.issued
    ensures SignedInDuring(s, labels, c.session, c.subject)
    decreases n
  {
    assert labels[..0] == [];
    if n > 0 {
      RunStep(s, labels, n - 1);
      var before := labels[..n - 1];
      if c in Run(s, before).issued {
        TokensSince(s, labels, n - 1, c);
      } else {
        StepIssues(Run(s, before), labels[n - 1], c);
        SessionsSince(s, labels, n - 1, c.session, c.subject);
        var i :| 0 <= i < |before| && SignsIn(Run(s, before[..i]), before[i], c.session, c.subject);
        assert before[..i] == labels[..i] && before[i] == labels[i];
      }
    }
  }

  /** A command other than a cancellation leaves its user without a session and issues no token. */
  lemma CommandSignsOut(s: Sys, command: Label, e: Event)
    requires Inv(s) && command.Lifecycle? && e in Step(s, command).log && e !in s.log
    requires !command.command.CancelDeletion? && !command.command.CancelWithToken?
    ensures forall k :: !IsSessionOf(Step(s, command), k, e.user)
    ensures Step(s, command).issued == s.issued
  {
    CommandEvent(s, command, e);
    CommandRaisesVersion(s.auth, command.user, command.command, command.now, command.ids);
  }

  /**
   After a command other than a cancellation, a token of its user is issued only from a session that signed in
   after the command committed.
   */
  lemma {:induction false} TokensNeedNewSession(
    pre: seq<Label>, command: Label, post: seq<Label>, e: Event, c: Claims)
    requires command.Lifecycle? && !command.command.CancelDeletion? && !command.command.CancelWithToken?
    requires var before := Run(Empty(), pre);
             var after := Step(before, command);
             && e in after.log && e !in before.log
             && c in Run(after, post).issued && c !in before.issued && c.subject == e.user
    ensures SignedInDuring(Step(Run(Empty(), pre), command), post, c.session, c.subject)
  {
    var before := Run(Empty(), pre);
    ReachableInv(pre);
    CommandSignsOut(before, command, e);
    assert post[..|post|] == post;
    TokensSince(Step(before, command), post, |post|, c);
  }

  /** Once such a command has returned normally, every token the API accepts for its user comes from a new sign-in. */
  lemma {:induction false} OnlyNewSessionsAuthenticate(
    pre: seq<Label>, command: Label, post: seq<Label>, e: Event, c: Claims)
    requires command.Lifecycle? && !command.command.CancelDeletion? && !command.command.CancelWithToken?
    requires var before := Run(Empty(), pre);
             var after := Step(before, command);
             && e in after.log && e !in before.log && e in Run(after, post).settled
             && c in Run(after, post).issued && c.subject == e.user && Authenticates(Run(after, post).api, c)
    ensures SignedInDuring(Step(Run(Empty(), pre), command), post, c.session, c.subject)
  {
    if c in Run(Empty(), pre).issued {
      TokenSafety(pre, command, post, e, c);
    } else {
      TokensNeedNewSession(pre, command, post, e, c);
    }
  }
}
