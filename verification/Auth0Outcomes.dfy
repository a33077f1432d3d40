/**
 What the plan says about each Auth0 user and when the accounts to import can be built, stated on the users,
 candidates and resolutions alone.
 */
module Auth0Outcomes {
  import opened Wrappers
  import opened StringOrder
  import opened Auth0Plan
  import opened Auth0Order
  import opened Auth0Groups
  import opened Auth0Import
  import I = Identity

  /** The inputs of a plan. */
  datatype Inputs = Inputs(users: seq<User>, candidates: seq<Candidate>, resolutions: seq<Resolution>,
                           compatible: string -> bool)

  ghost predicate Good(x: Inputs) {
    Accepts(x.users, x.candidates, x.resolutions)
  }

  function Planned(x: Inputs, now: int): seq<Item> {
    PlanItems(x.users, x.candidates, x.resolutions, now, x.compatible)
  }

  function ItemFor(x: Inputs, u: User): Item {
    ItemOf(u, x.candidates, x.resolutions, x.compatible)
  }

  predicate ResolvedTo(x: Inputs, u: User, app: string) {
    app != "" && Resolution(u.id, app) in x.resolutions
  }

  ghost predicate IsResolved(x: Inputs, u: User) {
    exists app :: ResolvedTo(x, u, app)
  }

  /** The user can sign in with a password. */
  predicate HasPassword(u: User) {
    exists i | i in u.identities :: i.provider == DATABASE
  }

  predicate KeepsPassword(x: Inputs, u: User) {
    HasPassword(u) && u.passwordHash != "" && x.compatible(u.passwordHash)
  }

  /** An app user with the user's verified address is suggested. */
  ghost predicate Suggested(x: Inputs, u: User, app: string) {
    && u.emailVerified && NormalizeEmail(u.email) != ""
    && exists c :: c in x.candidates && c.appUser == app && NormalizeEmail(c.email) == NormalizeEmail(u.email)
  }

  // ----- what is accepted -----

  /** Something other than white space. */
  predicate NotBlank(s: string) {
    exists i | 0 <= i < |s| :: !I.IsSpace(s[i])
  }

  lemma TrimmedIff(s: string)
    ensures I.Trim(s) != "" <==> NotBlank(s)
  {
    var i, n := I.TrimCuts(s);
    if i < n {
      assert !I.IsSpace(s[i]);
    }
  }

  ghost predicate UserFine(u: User) {
    && u.id != "" && u.identities != []
    && forall i | i in u.identities :: NotBlank(i.provider) && NotBlank(i.account)
  }

  /** A resolution names a candidate and a user that is not blocked. */
  ghost predicate ResolutionFine(x: Inputs, r: Resolution) {
    && (exists c :: c in x.candidates && c.appUser == r.appUser)
    && (exists u :: u in x.users && u.id == r.auth0User && !u.blocked)
  }

  lemma {:induction false} IdentitiesAre(users: seq<User>, i: ProviderIdentity)
    ensures i in AllIdentities(users) <==> exists u :: u in users && i in u.identities
  {
    if users != [] {
      IdentitiesAre(users[..|users| - 1], i);
      assert users == users[..|users| - 1] + [users[|users| - 1]];
    }
  }

  /**
   Inputs are accepted exactly when candidates have distinct non-empty ids, users have distinct non-empty ids and
   identities that are not blank and belong to one of them only, and each resolution, one for a user at most, names a
   candidate and a user that is not blocked.
   */
  lemma AcceptedIff(x: Inputs)
    ensures Good(x) <==>
            && Distinct(AppUsers(x.candidates)) && (forall c | c in x.candidates :: c.appUser != "")
            && Distinct(UserIds(x.users)) && (forall u | u in x.users :: UserFine(u))
            && Distinct(Keys(AllIdentities(x.users)))
            && Distinct(ResolvedIds(x.resolutions)) && (forall r | r in x.resolutions :: ResolutionFine(x, r))
  {
    forall i
      ensures i in AllIdentities(x.users) <==> exists u :: u in x.users && i in u.identities
      ensures WellFormed(i) <==> NotBlank(i.provider) && NotBlank(i.account)
    {
      IdentitiesAre(x.users, i);
      TrimmedIff(i.provider);
      TrimmedIff(i.account);
    }
    if GoodCandidates(x.candidates) && GoodUsers(x.users) {
      forall r | r in x.resolutions
        ensures ResolutionFine(x, r) <==> GoodResolution(r, x.users, x.candidates)
      {
      }
    }
  }

  // ----- the items -----

  lemma PlannedAre(x: Inputs, now: int, item: Item)
    ensures item in Planned(x, now) <==> exists u :: u in x.users && item == ItemFor(x, u)
  {
    var unsorted := ItemsOf(x.users, x.candidates, x.resolutions, x.compatible);
    SortSorts(unsorted, ItemKey);
    SameMembers(Planned(x, now), unsorted);
    ItemsAre(x, item);
  }

  lemma ItemsAre(x: Inputs, item: Item)
    ensures item in ItemsOf(x.users, x.candidates, x.resolutions, x.compatible)
            <==> exists u :: u in x.users && item == ItemFor(x, u)
  {
    var unsorted := ItemsOf(x.users, x.candidates, x.resolutions, x.compatible);
    if item in unsorted {
      var i :| 0 <= i < |unsorted| && unsorted[i] == item;
      assert x.users[i] in x.users && item == ItemFor(x, x.users[i]);
    }
    if u :| u in x.users && item == ItemFor(x, u) {
      var i :| 0 <= i < |x.users| && x.users[i] == u;
      assert unsorted[i] == item;
    }
  }

  lemma {:induction false} CandidatesAre(candidates: seq<Candidate>, email: string, app: string)
    ensures app in CandidatesFor(candidates, email)
            <==> exists c :: c in candidates && c.appUser == app && NormalizeEmail(c.email) == email
  {
    if candidates != [] {
      CandidatesAre(candidates[..|candidates| - 1], email, app);
      assert candidates == candidates[..|candidates| - 1] + [candidates[|candidates| - 1]];
    }
  }

  lemma SuggestedIff(x: Inputs, u: User, app: string)
    ensures app in ItemFor(x, u).candidates <==> Suggested(x, u, app)
  {
    var email := NormalizeEmail(u.email);
    CandidatesAre(x.candidates, email, app);
    SortSorts(CandidatesFor(x.candidates, email), Itself);
    SameMembers(Sort(CandidatesFor(x.candidates, email), Itself), CandidatesFor(x.candidates, email));
  }

  lemma IdentitiesKept(x: Inputs, u: User)
    ensures forall i :: i in ItemFor(x, u).identities <==> i in u.identities
    ensures HasDatabase(ItemFor(x, u).identities) <==> HasPassword(u)
  {
    SortSorts(u.identities, IdentityKey);
    SameMembers(ItemFor(x, u).identities, u.identities);
  }

  lemma ResolutionIs(x: Inputs, u: User, app: string)
    requires Good(x) && u in x.users && app != ""
    ensures ItemFor(x, u).resolvedAppUser == app <==> ResolvedTo(x, u, app)
  {
    LinksAreExplicit(x.users, x.candidates, x.resolutions, 0, x.compatible, u);
  }

  lemma ResolvedIff(x: Inputs, u: User)
    requires Good(x) && u in x.users
    ensures IsResolved(x, u) <==> ItemFor(x, u).resolvedAppUser != ""
    ensures IsResolved(x, u) <==> ToImport(ItemFor(x, u))
    ensures IsResolved(x, u) ==> !u.blocked
  {
    LinksAreExplicit(x.users, x.candidates, x.resolutions, 0, x.compatible, u);
    var app := ItemFor(x, u).resolvedAppUser;
    if app != "" {
      ResolutionIs(x, u, app);
    }
    if a :| ResolvedTo(x, u, a) {
      ResolutionIs(x, u, a);
      if u.blocked {
        BlockedNeverResolved(x.users, x.candidates, x.resolutions, u, a);
      }
    }
  }

  /**
   In the plan of accepted inputs a user has one item. A resolved one is matched, unless it has a password that cannot
   be kept: then it must reset it. An unresolved one needs a resolution, and the plan says why: it is blocked, or
   some app user has its verified address, or nothing is known.
   */
  lemma ItemOutcome(x: Inputs, now: int, u: User)
    requires Good(x) && u in x.users
    ensures exists item :: item in Planned(x, now) && item.auth0User == u.id
    ensures forall item | item in Planned(x, now) && item.auth0User == u.id ::
              && item.blocked == u.blocked && item.emailVerified == u.emailVerified
              && (item.hashCompatible <==> KeepsPassword(x, u))
              && (item.requiresReset <==> HasPassword(u) && !KeepsPassword(x, u))
              && (forall app :: app in item.candidates <==> Suggested(x, u, app))
              && (forall app | app != "" :: item.resolvedAppUser == app <==> ResolvedTo(x, u, app))
              && (item.status, item.detail) ==
                 if IsResolved(x, u) then
                   if HasPassword(u) && !KeepsPassword(x, u) then (PasswordResetRequired, ResetNeeded)
                   else (Matched, ExplicitlyResolved)
                 else
                   (RequiresResolution,
                   if u.blocked then BlockedUser
                   else if exists app :: Suggested(x, u, app) then AdvisoryCandidates
                   else NoMapping)
  {
    PlannedAre(x, now, ItemFor(x, u));
    forall item | item in Planned(x, now) && item.auth0User == u.id
      ensures item == ItemFor(x, u)
    {
      PlannedAre(x, now, item);
      var v :| v in x.users && item == ItemFor(x, v);
      SameUser(x, u, v);
    }
    ItemColumns(x, u);
  }

  lemma SameUser(x: Inputs, u: User, v: User)
    requires Good(x) && u in x.users && v in x.users && u.id == v.id
    ensures u == v
  {
    var i :| 0 <= i < |x.users| && x.users[i] == u;
    var j :| 0 <= j < |x.users| && x.users[j] == v;
    assert UserIds(x.users)[i] == UserIds(x.users)[j];
  }

  lemma ItemColumns(x: Inputs, u: User)
    requires Good(x) && u in x.users
    ensures var item := ItemFor(x, u);
            && (item.hashCompatible <==> KeepsPassword(x, u))
            && (item.requiresReset <==> HasPassword(u) && !KeepsPassword(x, u))
            && (forall app :: app in item.candidates <==> Suggested(x, u, app))
            && (forall app | app != "" :: item.resolvedAppUser == app <==> ResolvedTo(x, u, app))
            && (item.status, item.detail) ==
               if IsResolved(x, u) then
                 if HasPassword(u) && !KeepsPassword(x, u) then (PasswordResetRequired, ResetNeeded)
                 else (Matched, ExplicitlyResolved)
               else
                 (RequiresResolution,
                 if u.blocked then BlockedUser
                 else if exists app :: Suggested(x, u, app) then AdvisoryCandidates
                 else NoMapping)
  {
    var item := ItemFor(x, u);
    IdentitiesKept(x, u);
    ResolvedIff(x, u);
    forall app
      ensures app in item.candidates <==> Suggested(x, u, app)
      ensures app != "" ==> (item.resolvedAppUser == app <==> ResolvedTo(x, u, app))
    {
      SuggestedIff(x, u, app);
      if app != "" {
        ResolutionIs(x, u, app);
      }
    }
    assert item.candidates != [] <==> exists app :: app in item.candidates by {
      if item.candidates != [] {
        assert item.candidates[0] in item.candidates;
      }
    }
  }

  // ----- the reconciliation -----

  lemma {:induction false} UnresolvedAre(items: seq<Item>, id: string)
    ensures id in UnresolvedIn(items)
            <==> exists item :: item in items && item.auth0User == id && item.status == RequiresResolution
  {
    if items != [] {
      UnresolvedAre(items[..|items| - 1], id);
      assert items == items[..|items| - 1] + [items[|items| - 1]];
    }
  }

  lemma {:induction false} CountsAddUp(items: seq<Item>)
    ensures CountOf(items, Matched) + CountOf(items, RequiresResolution) + CountOf(items, PasswordResetRequired)
            + CountOf(items, Imported) == |items|
    ensures forall s :: CountOf(items, s) == |Having(items, s)|
    ensures |UnresolvedIn(items)| == CountOf(items, RequiresResolution)
  {
    if items != [] {
      CountsAddUp(items[..|items| - 1]);
    }
  }

  function Having(items: seq<Item>, status: Status): seq<Item> {
    if items == [] then []
    else Having(items[..|items| - 1], status) +
         if items[|items| - 1].status == status then [items[|items| - 1]] else []
  }

  ghost predicate AddsUp(counts: map<Status, nat>, n: nat, unresolved: nat) {
    && counts.Keys == {Matched, RequiresResolution, PasswordResetRequired, Imported}
    && counts[Matched] + counts[PasswordResetRequired] + counts[RequiresResolution] == n
    && counts[Imported] == 0 && counts[RequiresResolution] == unresolved
  }

  lemma CountsOutcome(items: seq<Item>)
    requires CountOf(items, Imported) == 0
    ensures AddsUp(Counts(items), |items|, |UnresolvedIn(items)|)
  {
    CountsAddUp(items);
  }

  lemma PlannedCount(x: Inputs, now: int)
    ensures |Planned(x, now)| == |x.users|
  {
    SortSorts(ItemsOf(x.users, x.candidates, x.resolutions, x.compatible), ItemKey);
  }

  /** The counts of the plan add up to its users, and as many are unresolved as need a resolution. */
  lemma ReconciliationOutcome(x: Inputs, now: int)
    requires Good(x)
    ensures var r := ContentOf(x.users, x.candidates, x.resolutions, now, x.compatible).reconciliation;
            && r.users == |x.users| && r.candidates == |x.candidates| && r.resolutions == |x.resolutions|
            && multiset(r.accounts) == multiset(AllIdentities(x.users)) && r.identities == |r.accounts|
            && AddsUp(r.statusCounts, |x.users|, |r.unresolved|)
  {
    NoneImported(x, now);
    CountsOutcome(Planned(x, now));
    PlannedCount(x, now);
    SortSorts(AllIdentities(x.users), IdentityKey);
  }

  /** A user is listed as unresolved exactly when no resolution names it; so blocked users always are. */
  lemma UnresolvedOutcome(x: Inputs, now: int, u: User)
    requires Good(x) && u in x.users
    ensures var r := ContentOf(x.users, x.candidates, x.resolutions, now, x.compatible).reconciliation;
            (u.id in r.unresolved <==> !IsResolved(x, u)) && (u.blocked ==> u.id in r.unresolved)
  {
    UnresolvedIff(x, now, u);
    ResolvedIff(x, u);
  }

  lemma UnresolvedIff(x: Inputs, now: int, u: User)
    requires Good(x) && u in x.users
    ensures u.id in UnresolvedIn(Planned(x, now)) <==> !IsResolved(x, u)
  {
    UnresolvedAre(Planned(x, now), u.id);
    PlannedAre(x, now, ItemFor(x, u));
    ResolvedIff(x, u);
    if item :| item in Planned(x, now) && item.auth0User == u.id && item.status == RequiresResolution {
      PlannedAre(x, now, item);
      var v :| v in x.users && item == ItemFor(x, v);
      SameUser(x, u, v);
    }
  }

  lemma NoneImported(x: Inputs, now: int)
    requires Good(x)
    ensures CountOf(Planned(x, now), Imported) == 0
  {
    forall item | item in Planned(x, now)
      ensures item.status != Imported
    {
      PlannedAre(x, now, item);
    }
    NoneCounted(Planned(x, now), Imported);
  }

  lemma {:induction false} NoneCounted(items: seq<Item>, status: Status)
    requires forall item | item in items :: item.status != status
    ensures CountOf(items, status) == 0
  {
    if items != [] {
      assert items[|items| - 1] in items && forall i | i in items[..|items| - 1] :: i in items;
      NoneCounted(items[..|items| - 1], status);
    }
  }

  // ----- the accounts to import -----

  /** A resolved user that can be imported: it has an address, no password to keep and no unknown provider. */
  predicate Importable(x: Inputs, u: User) {
    && NormalizeEmail(u.email) != "" && !KeepsPassword(x, u)
    && forall i | i in u.identities :: i.provider == "google-oauth2" || i.provider == "auth0"
  }

  /** Two users fit into one account: the same address, and no two Google accounts. */
  predicate Fit(u: User, v: User) {
    && NormalizeEmail(u.email) == NormalizeEmail(v.email)
    && forall i, j | i in u.identities && j in v.identities && i.provider == "google-oauth2"
         && j.provider == "google-oauth2" :: i.account == j.account
  }

  ghost predicate AllImportable(x: Inputs) {
    forall u | u in x.users && IsResolved(x, u) :: Importable(x, u)
  }

  ghost predicate UsersFit(x: Inputs) {
    forall app :: FitUnder(x, app)
  }

  ghost predicate FitUnder(x: Inputs, app: string) {
    forall u, v | u in x.users && v in x.users && ResolvedTo(x, u, app) && ResolvedTo(x, v, app) :: Fit(u, v)
  }

  lemma {:induction false} DirectoryHas(users: seq<User>, u: User)
    requires Distinct(UserIds(users)) && u in users
    ensures u.id in ById(users) && ById(users)[u.id] == u
  {
    var rest, last := users[..|users| - 1], users[|users| - 1];
    assert UserIds(rest) == UserIds(users)[..|users| - 1];
    assert users == rest + [last];
    if u in rest {
      DirectoryHas(rest, u);
      var i :| 0 <= i < |rest| && rest[i] == u;
      assert UserIds(users)[i] != UserIds(users)[|users| - 1];
    }
  }

  lemma FineIffImportable(x: Inputs, u: User)
    requires Good(x) && u in x.users
    ensures ItemFine(ById(x.users), ItemFor(x, u)) <==> (IsResolved(x, u) ==> Importable(x, u))
    ensures EmailOf(ById(x.users), ItemFor(x, u)) == NormalizeEmail(u.email)
  {
    DirectoryHas(x.users, u);
    ItemColumns(x, u);
    IdentitiesKept(x, u);
    ResolvedIff(x, u);
  }

  /** The members of an account are the items of the users resolved to its app user. */
  lemma MembersAre(x: Inputs, now: int, app: string, m: Item)
    requires Good(x) && app != ""
    ensures m in Members(Planned(x, now), app) <==>
            exists u :: u in x.users && ResolvedTo(x, u, app) && m == ItemFor(x, u)
  {
    MembersAreItems(Planned(x, now), app, m);
    PlannedAre(x, now, m);
    forall u | u in x.users && m == ItemFor(x, u)
      ensures ToImport(m) && m.resolvedAppUser == app <==> ResolvedTo(x, u, app)
    {
      ResolutionIs(x, u, app);
      ResolvedIff(x, u);
    }
  }

  lemma NoMembersWithoutName(x: Inputs, now: int)
    requires Good(x)
    ensures Members(Planned(x, now), "") == []
  {
    if Members(Planned(x, now), "") != [] {
      var m := Members(Planned(x, now), "")[0];
      MembersAreItems(Planned(x, now), "", m);
      PlannedAre(x, now, m);
      var u :| u in x.users && m == ItemFor(x, u);
      ResolvedIff(x, u);
    }
  }

  lemma {:induction false} GoogleFrom(members: seq<Item>, account: string)
    ensures account in GoogleOf(members) <==>
            exists m, i :: m in members && i in m.identities && i.provider == "google-oauth2" && i.account == account
  {
    if members != [] {
      var rest, last := members[..|members| - 1], members[|members| - 1];
      GoogleFrom(rest, account);
      GoogleInIdentities(last.identities, account);
      assert members == rest + [last];
    }
  }

  lemma {:induction false} GoogleInIdentities(identities: seq<ProviderIdentity>, account: string)
    ensures account in GoogleIn(identities) <==>
            exists i :: i in identities && i.provider == "google-oauth2" && i.account == account
  {
    if identities != [] {
      GoogleInIdentities(identities[1..], account);
      assert identities == [identities[0]] + identities[1..];
    }
  }

  /** Named accounts are taken up without a conflict exactly when they are all the same. */
  lemma AgreeIffSame(accounts: seq<string>)
    requires "" !in accounts
    ensures Agree("", accounts) <==> forall a, b | a in accounts && b in accounts :: a == b
  {
    if accounts != [] {
      var first, rest := accounts[0], accounts[1..];
      assert accounts == [first] + rest;
      AgreeMeansOne(first, rest);
      assert Agree("", accounts) <==> forall a | a in rest :: a == first;
      assert first in accounts && forall a | a in rest :: a in accounts;
      assert forall a | a in accounts :: a == first || a in rest;
    }
  }

  lemma NamedMembers(x: Inputs, now: int, app: string)
    requires Good(x)
    ensures "" !in GoogleOf(Members(Planned(x, now), app))
  {
    PlanItemsNamed(x.users, x.candidates, x.resolutions, now, x.compatible);
    MembersNamed(Planned(x, now), app);
    GoogleNamed(Members(Planned(x, now), app));
  }

  lemma CompatibleImpliesFit(x: Inputs, now: int, app: string, u: User, v: User)
    requires Good(x) && app != "" && Compatible(ById(x.users), Members(Planned(x, now), app))
    requires u in x.users && v in x.users && ResolvedTo(x, u, app) && ResolvedTo(x, v, app)
    ensures Fit(u, v)
  {
    var members := Members(Planned(x, now), app);
    MembersAre(x, now, app, ItemFor(x, u));
    MembersAre(x, now, app, ItemFor(x, v));
    FineIffImportable(x, u);
    FineIffImportable(x, v);
    IdentitiesKept(x, u);
    IdentitiesKept(x, v);
    NamedMembers(x, now, app);
    AgreeIffSame(GoogleOf(members));
    forall i, j | i in u.identities && j in v.identities && i.provider == "google-oauth2"
      && j.provider == "google-oauth2"
      ensures i.account == j.account
    {
      GoogleAccountsOf(members, ItemFor(x, u), i);
      GoogleAccountsOf(members, ItemFor(x, v), j);
    }
  }

  lemma FitImpliesCompatible(x: Inputs, now: int, app: string)
    requires Good(x) && app != "" && FitUnder(x, app)
    ensures Compatible(ById(x.users), Members(Planned(x, now), app))
  {
    var members := Members(Planned(x, now), app);
    NamedMembers(x, now, app);
    AgreeIffSame(GoogleOf(members));
    forall a, b | a in GoogleOf(members) && b in GoogleOf(members)
      ensures a == b
    {
      GoogleFrom(members, a);
      GoogleFrom(members, b);
      var m, i :| m in members && i in m.identities && i.provider == "google-oauth2" && i.account == a;
      var n, j :| n in members && j in n.identities && j.provider == "google-oauth2" && j.account == b;
      var u := UserOfMember(x, now, app, m);
      var v := UserOfMember(x, now, app, n);
      assert Fit(u, v);
    }
    forall m, n | m in members && n in members
      ensures EmailOf(ById(x.users), m) == EmailOf(ById(x.users), n)
    {
      var u := UserOfMember(x, now, app, m);
      var v := UserOfMember(x, now, app, n);
      assert Fit(u, v);
    }
  }

  lemma UserOfMember(x: Inputs, now: int, app: string, m: Item) returns (u: User)
    requires Good(x) && app != "" && m in Members(Planned(x, now), app)
    ensures u in x.users && ResolvedTo(x, u, app) && m == ItemFor(x, u)
    ensures EmailOf(ById(x.users), m) == NormalizeEmail(u.email)
    ensures forall i :: i in m.identities <==> i in u.identities
  {
    MembersAre(x, now, app, m);
    u :| u in x.users && ResolvedTo(x, u, app) && m == ItemFor(x, u);
    FineIffImportable(x, u);
    IdentitiesKept(x, u);
  }

  ghost predicate ItemsFine(x: Inputs, now: int) {
    forall item | item in Planned(x, now) :: ItemFine(ById(x.users), item)
  }

  lemma FineIffAllImportable(x: Inputs, now: int)
    requires Good(x)
    ensures ItemsFine(x, now) <==> AllImportable(x)
  {
    if ItemsFine(x, now) {
      forall u | u in x.users && IsResolved(x, u)
        ensures Importable(x, u)
      {
        PlannedAre(x, now, ItemFor(x, u));
        FineIffImportable(x, u);
      }
    }
    if AllImportable(x) {
      forall item | item in Planned(x, now)
        ensures ItemFine(ById(x.users), item)
      {
        PlannedAre(x, now, item);
        var u :| u in x.users && item == ItemFor(x, u);
        FineIffImportable(x, u);
      }
    }
  }

  ghost predicate CompatibleUnder(x: Inputs, now: int, app: string) {
    Compatible(ById(x.users), Members(Planned(x, now), app))
  }

  lemma CompatibleIffFit(x: Inputs, now: int, app: string)
    requires Good(x)
    ensures CompatibleUnder(x, now, app) <==> FitUnder(x, app)
  {
    if app == "" {
      NoMembersWithoutName(x, now);
    } else if FitUnder(x, app) {
      FitImpliesCompatible(x, now, app);
    } else if CompatibleUnder(x, now, app) {
      var u, v :| u in x.users && v in x.users && ResolvedTo(x, u, app) && ResolvedTo(x, v, app) && !Fit(u, v);
      CompatibleImpliesFit(x, now, app, u, v);
    }
  }

  /**
   The accounts of a plan can be built exactly when every resolved user has an address, no password that could be kept
   and only known providers, and users resolved to one app user have one address and at most one Google account.
   */
  lemma BuildableIff(x: Inputs, now: int)
    requires Good(x)
    ensures Buildable(ById(x.users), Planned(x, now)) <==> AllImportable(x) && UsersFit(x)
  {
    var d, items := ById(x.users), Planned(x, now);
    FineIffAllImportable(x, now);
    if Buildable(d, items) {
      forall app
        ensures FitUnder(x, app)
      {
        assert Compatible(d, Members(items, app));
        CompatibleIffFit(x, now, app);
      }
    }
    if AllImportable(x) && UsersFit(x) {
      forall app
        ensures Compatible(d, Members(items, app))
      {
        assert FitUnder(x, app);
        CompatibleIffFit(x, now, app);
      }
    }
  }

  ghost predicate Joins(x: Inputs, u: User, g: Group) {
    u in x.users && ResolvedTo(x, u, g.appUser)
  }

  /**
   An account has exactly the users resolved to its app user and their address; it is verified when one of theirs is,
   has a password when one of them has, and the Google account that any of them has, or none.
   */
  lemma GroupOutcome(x: Inputs, now: int, result: seq<Group>, g: Group)
    requires Good(x) && Buildable(ById(x.users), Planned(x, now))
    requires OneGroupEach(result, Planned(x, now)) && AllFinished(result, ById(x.users), Planned(x, now)) && g in result
    ensures forall u | u in x.users :: u.id in g.auth0Users <==> ResolvedTo(x, u, g.appUser)
    ensures exists u :: Joins(x, u, g)
    ensures forall u | Joins(x, u, g) :: NormalizeEmail(u.email) == g.email
    ensures g.emailVerified <==> exists u :: Joins(x, u, g) && u.emailVerified
    ensures g.hasPassword <==> exists u :: Joins(x, u, g) && HasPassword(u)
    ensures forall u, i | Joins(x, u, g) && i in u.identities && i.provider == "google-oauth2" :: i.account == g.google
    ensures g.google != "" ==>
              exists u, i :: Joins(x, u, g) && i in u.identities && i.provider == "google-oauth2"
  {
    var app, items := g.appUser, Planned(x, now);
    var members := Members(items, app);
    NoMembersWithoutName(x, now);
    assert members[0] in members;
    var _ := UserOfMember(x, now, app, members[0]);
    forall u | u in x.users
      ensures u.id in g.auth0Users <==> ResolvedTo(x, u, app)
      ensures ResolvedTo(x, u, app) ==> ItemFor(x, u) in members && EmailOf(ById(x.users), ItemFor(x, u)) == g.email
      ensures EmailOf(ById(x.users), ItemFor(x, u)) == NormalizeEmail(u.email)
      ensures HasDatabase(ItemFor(x, u).identities) <==> HasPassword(u)
    {
      GroupHas(x, now, g, u);
      MembersAre(x, now, app, ItemFor(x, u));
      FineIffImportable(x, u);
      IdentitiesKept(x, u);
    }
    forall m | m in members
      ensures exists u :: Joins(x, u, g) && m == ItemFor(x, u)
    {
      var u := UserOfMember(x, now, app, m);
      assert Joins(x, u, g);
    }
    GroupGoogle(x, now, result, g);
  }

  lemma GroupHas(x: Inputs, now: int, g: Group, u: User)
    requires Good(x) && u in x.users && Finished(g, ById(x.users), Members(Planned(x, now), g.appUser))
    requires g.appUser != ""
    ensures u.id in g.auth0Users <==> ResolvedTo(x, u, g.appUser)
  {
    var members := Members(Planned(x, now), g.appUser);
    SortedIds(members, u.id);
    MembersAre(x, now, g.appUser, ItemFor(x, u));
    if u.id in g.auth0Users {
      var m :| m in members && m.auth0User == u.id;
      var v := UserOfMember(x, now, g.appUser, m);
      SameUser(x, u, v);
    }
  }

  lemma GroupGoogle(x: Inputs, now: int, result: seq<Group>, g: Group)
    requires Good(x) && Buildable(ById(x.users), Planned(x, now)) && g.appUser != ""
    requires AllFinished(result, ById(x.users), Planned(x, now)) && g in result
    ensures forall u, i | Joins(x, u, g) && i in u.identities && i.provider == "google-oauth2" :: i.account == g.google
    ensures g.google != "" ==>
              exists u, i :: Joins(x, u, g) && i in u.identities && i.provider == "google-oauth2"
  {
    var members := Members(Planned(x, now), g.appUser);
    NamedMembers(x, now, g.appUser);
    forall u, i | Joins(x, u, g) && i in u.identities && i.provider == "google-oauth2"
      ensures i.account == g.google
    {
      MembersAre(x, now, g.appUser, ItemFor(x, u));
      IdentitiesKept(x, u);
      OneAccountPerGroup(result, ById(x.users), Planned(x, now), g, ItemFor(x, u), i);
    }
    if g.google != "" {
      assert g.google in GoogleOf(members);
      GoogleFrom(members, g.google);
      var m, i :| m in members && i in m.identities && i.provider == "google-oauth2" && i.account == g.google;
      var u := UserOfMember(x, now, g.appUser, m);
      assert Joins(x, u, g) && i in u.identities;
    }
  }
}
