/** The vocabulary shared by the authentication service and the API. */
module Identity {
  import opened Wrappers

  type UserId = string
  type EntryId = string

  datatype AccountState = Active | Suspended | DeletionPending | Deleted

  /** What an identity event announces. Unsupported stands for any type the API does not know. */
  datatype Change =
    | AuthUserCreated(email: string, emailVerified: bool)
    | EmailVerified
    | EmailChanged(newEmail: string)
    | AccountStateChanged(state: AccountState, reason: string, actor: string)
    | SessionsRevoked(why: string)
    | DeletionRequested(recoveryDeadline: int)
    | DeletionCancelled
    | AuthPseudonymized
    | MfaConfigured
    | MfaDisabled
    | Unsupported(kind: string)

  datatype Event = Event(id: EntryId, user: UserId, version: int, change: Change, occurredAt: int)

  /** Characters that both services strip from the ends of an address. */
  predicate IsSpace(c: char) {
    c == ' ' || c == '\t' || c == '\n' || c == '\r'
  }

  function TrimLeft(s: string): string {
    if s != [] && IsSpace(s[0]) then TrimLeft(s[1..]) else s
  }

  function TrimRight(s: string): string {
    if s != [] && IsSpace(s[|s| - 1]) then TrimRight(s[..|s| - 1]) else s
  }

  function Trim(s: string): string {
    TrimRight(TrimLeft(s))
  }

  lemma {:induction false} TrimLeftCuts(s: string) returns (i: nat)
    ensures i <= |s| && TrimLeft(s) == s[i..]
    ensures (forall j | 0 <= j < i :: IsSpace(s[j])) && (i < |s| ==> !IsSpace(s[i]))
  {
    i := 0;
    if s != [] && IsSpace(s[0]) {
      var k := TrimLeftCuts(s[1..]);
      i := k + 1;
      assert forall j | 0 < j < i :: s[j] == s[1..][j - 1];
    }
  }

  lemma {:induction false} TrimRightCuts(s: string) returns (n: nat)
    ensures n <= |s| && TrimRight(s) == s[..n]
    ensures (forall j | n <= j < |s| :: IsSpace(s[j])) && (n > 0 ==> !IsSpace(s[n - 1]))
  {
    n := |s|;
    if s != [] && IsSpace(s[|s| - 1]) {
      n := TrimRightCuts(s[..|s| - 1]);
    }
  }

  /** Trimming cuts off the white space at both ends and nothing else. */
  lemma TrimCuts(s: string) returns (i: nat, n: nat)
    ensures i <= n <= |s| && Trim(s) == s[i..n]
    ensures forall j | 0 <= j < |s| && (j < i || n <= j) :: IsSpace(s[j])
    ensures i < n ==> !IsSpace(s[i]) && !IsSpace(s[n - 1])
  {
    i := TrimLeftCuts(s);
    var k := TrimRightCuts(s[i..]);
    n := i + k;
    assert forall j | n <= j < |s| :: s[j] == s[i..][j - i];
  }

  function LowerChar(c: char): char {
    if 'A' <= c <= 'Z' then (c as int - 'A' as int + 'a' as int) as char else c
  }

  function Lower(s: string): string {
    seq(|s|, i requires 0 <= i < |s| => LowerChar(s[i]))
  }

  /** Two texts are equal in lower case exactly when they differ at most in the case of letters. */
  lemma LowerTells(s: string, t: string)
    ensures Lower(s) == Lower(t) <==>
            |s| == |t| && forall i | 0 <= i < |s| :: s[i] == t[i] || IsOtherCase(s[i], t[i]) || IsOtherCase(t[i], s[i])
  {
    if Lower(s) == Lower(t) {
      assert |s| == |t|;
      forall i | 0 <= i < |s|
        ensures s[i] == t[i] || IsOtherCase(s[i], t[i]) || IsOtherCase(t[i], s[i])
      {
        assert Lower(s)[i] == Lower(t)[i];
      }
    }
  }

  /** An upper-case letter and the same letter in lower case. */
  predicate IsOtherCase(upper: char, lower: char) {
    'A' <= upper <= 'Z' && 'a' <= lower <= 'z' && upper as int - 'A' as int == lower as int - 'a' as int
  }
}
