/** Turning resolved plan items into one account per app user. */
module Auth0Groups {
  import opened Wrappers
  import opened StringOrder
  import opened Auth0Plan

  const GOOGLE := "google-oauth2"

  /** An empty google stands for no Google account. */
  datatype Group = Group(appUser: string, email: string, emailVerified: bool, google: string, hasPassword: bool,
                         auth0Users: seq<string>)

  type Directory = map<string, User>

  /** The users by id; a later one replaces an earlier one with the same id. */
  function ById(users: seq<User>): Directory {
    if users == [] then map[] else ById(users[..|users| - 1])[users[|users| - 1].id := users[|users| - 1]]
  }

  predicate ToImport(item: Item) {
    item.status != RequiresResolution
  }

  function EmailOf(d: Directory, item: Item): string {
    if item.auth0User in d then NormalizeEmail(d[item.auth0User].email) else ""
  }

  /** The items that go into the account of an app user, in plan order. */
  function Members(items: seq<Item>, app: string): seq<Item> {
    if items == [] then []
    else
      var last := items[|items| - 1];
      Members(items[..|items| - 1], app) + (if ToImport(last) && last.resolvedAppUser == app then [last] else [])
  }

  function Ids(items: seq<Item>): seq<string> {
    seq(|items|, i requires 0 <= i < |items| => items[i].auth0User)
  }

  // ----- Google accounts -----

  function GoogleIn(identities: seq<ProviderIdentity>): seq<string> {
    if identities == [] then []
    else (if identities[0].provider == GOOGLE then [identities[0].account] else []) + GoogleIn(identities[1..])
  }

  function GoogleOf(items: seq<Item>): seq<string> {
    if items == [] then [] else GoogleOf(items[..|items| - 1]) + GoogleIn(items[|items| - 1].identities)
  }

  /** Taking up accounts one by one meets no second account. */
  predicate Agree(current: string, accounts: seq<string>)
    decreases accounts
  {
    accounts == [] || ((current == "" || accounts[0] == current) && Agree(accounts[0], accounts[1..]))
  }

  function LastOf(current: string, accounts: seq<string>): string {
    if accounts == [] then current else accounts[|accounts| - 1]
  }

  lemma {:induction false} AgreeOnConcat(current: string, a: seq<string>, b: seq<string>)
    ensures Agree(current, a + b) <==> Agree(current, a) && Agree(LastOf(current, a), b)
    ensures LastOf(current, a + b) == LastOf(LastOf(current, a), b)
    decreases a
  {
    if a == [] {
      assert a + b == b;
    } else {
      assert (a + b)[1..] == a[1..] + b;
      AgreeOnConcat(a[0], a[1..], b);
    }
  }

  /** Named accounts agree exactly when they are all the same. */
  lemma {:induction false} AgreeMeansOne(current: string, accounts: seq<string>)
    requires current != "" && "" !in accounts
    ensures Agree(current, accounts) <==> forall a | a in accounts :: a == current
    decreases accounts
  {
    if accounts != [] {
      assert accounts[0] in accounts;
      if accounts[0] == current {
        AgreeMeansOne(current, accounts[1..]);
        assert forall a | a in accounts :: a == accounts[0] || a in accounts[1..];
        assert forall a | a in accounts[1..] :: a in accounts;
        assert Agree(current, accounts) <==> Agree(current, accounts[1..]);
      }
    }
  }

  // ----- what can be built, and what is built -----

  predicate KnownProvider(i: ProviderIdentity) {
    i.provider == GOOGLE || i.provider == DATABASE
  }

  predicate ItemFine(d: Directory, item: Item) {
    ToImport(item) ==>
      && (item.status == Matched || item.status == PasswordResetRequired) && !item.hashCompatible
      && item.auth0User in d && EmailOf(d, item) != ""
      && forall i | i in item.identities :: KnownProvider(i)
  }

  predicate OneEmail(d: Directory, members: seq<Item>) {
    forall m, n | m in members && n in members :: EmailOf(d, m) == EmailOf(d, n)
  }

  /** Items that can share an account. */
  predicate Compatible(d: Directory, members: seq<Item>) {
    OneEmail(d, members) && Agree("", GoogleOf(members))
  }

  ghost predicate Buildable(d: Directory, items: seq<Item>) {
    && (forall item | item in items :: ItemFine(d, item))
    && forall app :: Compatible(d, Members(items, app))
  }

  predicate AnyVerified(members: seq<Item>) {
    exists m | m in members :: m.emailVerified
  }

  predicate AnyPassword(members: seq<Item>) {
    exists m | m in members :: HasDatabase(m.identities)
  }

  /** A group describes its members. */
  predicate Describes(g: Group, d: Directory, app: string, members: seq<Item>) {
    && g.appUser == app && (forall m | m in members :: EmailOf(d, m) == g.email)
    && g.emailVerified == AnyVerified(members) && g.hasPassword == AnyPassword(members)
    && g.google == LastOf("", GoogleOf(members))
  }

  predicate Built(g: Group, d: Directory, app: string, members: seq<Item>) {
    Describes(g, d, app, members) && g.auth0Users == Ids(members)
  }

  predicate GroupSoFar(groups: map<string, Group>, d: Directory, app: string, members: seq<Item>) {
    (app in groups <==> members != []) && (app in groups ==> Built(groups[app], d, app, members))
  }

  ghost predicate GroupsSoFar(groups: map<string, Group>, d: Directory, items: seq<Item>) {
    forall app :: GroupSoFar(groups, d, app, Members(items, app))
  }

  method IndexUsers(users: seq<User>) returns (d: Directory)
    ensures d == ById(users)
  {
    d := map[];
    var i := 0;
    while i < |users|
      invariant 0 <= i <= |users| && d == ById(users[..i])
    {
      assert users[..i + 1][..i] == users[..i];
      d := d[users[i].id := users[i]];
      i := i + 1;
    }
    assert users[..i] == users;
  }

  /** A group after one identity that fits. */
  function Taking(g: Group, x: ProviderIdentity): Group {
    if x.provider == GOOGLE then g.(google := x.account)
    else if x.provider == DATABASE then g.(hasPassword := true)
    else g
  }

  predicate Conflicts(g: Group, x: ProviderIdentity) {
    !KnownProvider(x) || (x.provider == GOOGLE && g.google != "" && g.google != x.account)
  }

  predicate AllFit(g: Group, identities: seq<ProviderIdentity>) {
    (forall i | i in identities :: KnownProvider(i)) && Agree(g.google, GoogleIn(identities))
  }

  /** The group r is g after the first i identities. */
  predicate TakenUpTo(g: Group, r: Group, identities: seq<ProviderIdentity>, i: nat)
    requires i <= |identities|
  {
    && (forall j | 0 <= j < i :: KnownProvider(identities[j]))
    && (Agree(g.google, GoogleIn(identities)) <==> Agree(r.google, GoogleIn(identities[i..])))
    && LastOf(g.google, GoogleIn(identities)) == LastOf(r.google, GoogleIn(identities[i..]))
    && r == g.(google := r.google, hasPassword := g.hasPassword || HasDatabase(identities[..i]))
  }

  lemma OneTaken(g: Group, r: Group, identities: seq<ProviderIdentity>, i: nat)
    requires i < |identities| && TakenUpTo(g, r, identities, i)
    ensures Conflicts(r, identities[i]) ==> !AllFit(g, identities)
    ensures !Conflicts(r, identities[i]) ==> TakenUpTo(g, Taking(r, identities[i]), identities, i + 1)
  {
    NextGoogle(identities, i, r.google);
    assert identities[i] in identities;
  }

  method AddIdentities(g: Group, identities: seq<ProviderIdentity>) returns (ok: bool, r: Group)
    ensures ok <==> AllFit(g, identities)
    ensures ok ==> r == g.(google := LastOf(g.google, GoogleIn(identities)),
                           hasPassword := g.hasPassword || HasDatabase(identities))
  {
    r := g;
    var i := 0;
    assert identities[0..] == identities;
    while i < |identities|
      invariant 0 <= i <= |identities| && TakenUpTo(g, r, identities, i)
    {
      var x := identities[i];
      OneTaken(g, r, identities, i);
      if x.provider == GOOGLE {
        if r.google != "" && r.google != x.account {
          return false, r;
        }
        r := r.(google := x.account);
      } else if x.provider == DATABASE {
        r := r.(hasPassword := true);
      } else {
        return false, r;
      }
      i := i + 1;
    }
    ok := true;
  }

  lemma NextGoogle(identities: seq<ProviderIdentity>, i: nat, current: string)
    requires i < |identities|
    ensures var x, rest := identities[i], GoogleIn(identities[i + 1..]);
            if x.provider == GOOGLE then
              (Agree(current, GoogleIn(identities[i..])) <==>
               (current == "" || x.account == current) && Agree(x.account, rest))
              && LastOf(current, GoogleIn(identities[i..])) == LastOf(x.account, rest)
            else GoogleIn(identities[i..]) == rest
  {
  }

  /** The group an item goes into: the one there is, or a new one. */
  function GroupFor(groups: map<string, Group>, d: Directory, item: Item): Group {
    if item.resolvedAppUser in groups then groups[item.resolvedAppUser]
    else Group(item.resolvedAppUser, EmailOf(d, item), false, "", false, [])
  }

  predicate FitsIn(g: Group, d: Directory, item: Item) {
    g.email == EmailOf(d, item) && Agree(g.google, GoogleIn(item.identities))
  }

  function Joined(g: Group, item: Item): Group {
    Group(g.appUser, g.email, g.emailVerified || item.emailVerified, LastOf(g.google, GoogleIn(item.identities)),
          g.hasPassword || HasDatabase(item.identities), g.auth0Users + [item.auth0User])
  }

  method AddItem(d: Directory, groups: map<string, Group>, item: Item) returns (ok: bool, r: map<string, Group>)
    requires ToImport(item)
    ensures ok <==> ItemFine(d, item) && FitsIn(GroupFor(groups, d, item), d, item)
    ensures ok ==> r == groups[item.resolvedAppUser := Joined(GroupFor(groups, d, item), item)]
  {
    r := groups;
    if item.status != Matched && item.status != PasswordResetRequired {
      return false, r;
    }
    if item.hashCompatible {
      return false, r;
    }
    if item.auth0User !in d {
      return false, r;
    }
    var email := NormalizeEmail(d[item.auth0User].email);
    if email == "" {
      return false, r;
    }
    var g := Group(item.resolvedAppUser, email, false, "", false, []);
    if item.resolvedAppUser in groups {
      g := groups[item.resolvedAppUser];
    }
    if g.email != email {
      return false, r;
    }
    g := g.(emailVerified := g.emailVerified || item.emailVerified, auth0Users := g.auth0Users + [item.auth0User]);
    ok, g := AddIdentities(g, item.identities);
    if ok {
      r := r[item.resolvedAppUser := g];
    }
  }

  lemma MembersGrow(items: seq<Item>, i: nat, app: string)
    requires i < |items|
    ensures Members(items[..i + 1], app) ==
            Members(items[..i], app)
              + (if ToImport(items[i]) && items[i].resolvedAppUser == app then [items[i]] else [])
  {
    assert items[..i + 1][..i] == items[..i];
  }

  /** An item fits into the group of some members exactly when it is compatible with them. */
  lemma FitsIffCompatible(g: Group, d: Directory, app: string, members: seq<Item>, item: Item)
    requires Describes(g, d, app, members) && Compatible(d, members) && (members == [] ==> g.email == EmailOf(d, item))
    ensures FitsIn(g, d, item) <==> Compatible(d, members + [item])
  {
    AgreeOnConcat("", GoogleOf(members), GoogleIn(item.identities));
    assert forall m :: m in members + [item] <==> m in members || m == item;
    if members != [] {
      assert members[0] in members;
    }
  }

  lemma {:induction false} MembersAreOrdered(items: seq<Item>, i: nat, app: string)
    requires i <= |items|
    ensures Members(items[..i], app) <= Members(items, app)
    decreases |items| - i
  {
    if i == |items| {
      assert items[..i] == items;
    } else {
      MembersGrow(items, i, app);
      MembersAreOrdered(items, i + 1, app);
    }
  }

  /** A misfit among the first items is a misfit in the whole plan. */
  lemma PrefixMisfit(d: Directory, items: seq<Item>, i: nat)
    requires i < |items| && !Buildable(d, items[..i + 1])
    ensures !Buildable(d, items)
  {
    var first := items[..i + 1];
    if Buildable(d, items) {
      forall app
        ensures Compatible(d, Members(first, app))
      {
        MembersAreOrdered(items, i + 1, app);
        assert Compatible(d, Members(items, app));
        PrefixAgrees(d, Members(first, app), Members(items, app));
      }
    }
  }

  lemma {:induction false} PrefixAgrees(d: Directory, short: seq<Item>, long: seq<Item>)
    requires short <= long && Compatible(d, long)
    ensures Compatible(d, short)
    decreases |long|
  {
    if short == long {
    } else {
      var rest, last := long[..|long| - 1], long[|long| - 1];
      assert long == rest + [last];
      AgreeOnConcat("", GoogleOf(rest), GoogleIn(last.identities));
      PrefixAgrees(d, short, rest);
    }
  }

  /** The members after an item is taken in: one more for its app user, the same for the others. */
  lemma MembersJoined(items: seq<Item>, i: nat, app: string)
    requires i < |items| && ToImport(items[i])
    ensures Members(items[..i + 1], app) ==
            if app == items[i].resolvedAppUser then Members(items[..i], app) + [items[i]] else Members(items[..i], app)
  {
    MembersGrow(items, i, app);
  }

  lemma MembersSkipped(items: seq<Item>, i: nat, app: string)
    requires i < |items| && !ToImport(items[i])
    ensures Members(items[..i + 1], app) == Members(items[..i], app)
  {
    MembersGrow(items, i, app);
  }

  lemma OwnGroupFits(d: Directory, groups: map<string, Group>, items: seq<Item>, i: nat)
    requires i < |items| && ToImport(items[i])
    requires var app := items[i].resolvedAppUser;
             GroupSoFar(groups, d, app, Members(items[..i], app)) && Compatible(d, Members(items[..i], app))
    ensures FitsIn(GroupFor(groups, d, items[i]), d, items[i])
            <==> Compatible(d, Members(items[..i + 1], items[i].resolvedAppUser))
  {
    var app := items[i].resolvedAppUser;
    MembersJoined(items, i, app);
    FitsIffCompatible(GroupFor(groups, d, items[i]), d, app, Members(items[..i], app), items[i]);
  }

  lemma JoinedIsBuilt(g: Group, d: Directory, members: seq<Item>, item: Item)
    requires Built(g, d, item.resolvedAppUser, members) && g.email == EmailOf(d, item)
    ensures Built(Joined(g, item), d, item.resolvedAppUser, members + [item])
  {
  }

  lemma OwnGroupStep(d: Directory, groups: map<string, Group>, items: seq<Item>, i: nat)
    requires i < |items| && ToImport(items[i])
    requires var app := items[i].resolvedAppUser;
             GroupSoFar(groups, d, app, Members(items[..i], app)) && Compatible(d, Members(items[..i], app))
    ensures var app, g := items[i].resolvedAppUser, GroupFor(groups, d, items[i]);
            && (FitsIn(g, d, items[i]) <==> Compatible(d, Members(items[..i + 1], app)))
            && (FitsIn(g, d, items[i]) ==> Built(Joined(g, items[i]), d, app, Members(items[..i + 1], app)))
  {
    OwnGroupFits(d, groups, items, i);
    if FitsIn(GroupFor(groups, d, items[i]), d, items[i]) {
      var members := Members(items[..i], items[i].resolvedAppUser);
      MembersJoined(items, i, items[i].resolvedAppUser);
      JoinedIsBuilt(GroupFor(groups, d, items[i]), d, members, items[i]);
    }
  }

  lemma ItemStep(d: Directory, groups: map<string, Group>, items: seq<Item>, i: nat)
    requires i < |items| && ToImport(items[i])
    requires GroupsSoFar(groups, d, items[..i]) && Buildable(d, items[..i])
    ensures var g := GroupFor(groups, d, items[i]);
            && (ItemFine(d, items[i]) && FitsIn(g, d, items[i]) <==> Buildable(d, items[..i + 1]))
            && (FitsIn(g, d, items[i]) ==>
                GroupsSoFar(groups[items[i].resolvedAppUser := Joined(g, items[i])], d, items[..i + 1]))
  {
    var own, g := items[i].resolvedAppUser, GroupFor(groups, d, items[i]);
    assert items[..i + 1] == items[..i] + [items[i]];
    assert GroupSoFar(groups, d, own, Members(items[..i], own)) && Compatible(d, Members(items[..i], own));
    OwnGroupStep(d, groups, items, i);
    var next, first := groups[own := Joined(g, items[i])], items[..i + 1];
    forall app
      ensures app != own ==> Compatible(d, Members(first, app))
      ensures FitsIn(g, d, items[i]) ==> GroupSoFar(next, d, app, Members(first, app))
    {
      MembersJoined(items, i, app);
      assert GroupSoFar(groups, d, app, Members(items[..i], app)) && Compatible(d, Members(items[..i], app));
    }
  }

  lemma SkippedStep(d: Directory, groups: map<string, Group>, items: seq<Item>, i: nat)
    requires i < |items| && !ToImport(items[i])
    requires GroupsSoFar(groups, d, items[..i]) && Buildable(d, items[..i])
    ensures GroupsSoFar(groups, d, items[..i + 1]) && Buildable(d, items[..i + 1])
  {
    var first := items[..i + 1];
    assert first == items[..i] + [items[i]];
    forall app
      ensures Compatible(d, Members(first, app)) && GroupSoFar(groups, d, app, Members(first, app))
    {
      MembersSkipped(items, i, app);
      assert GroupSoFar(groups, d, app, Members(items[..i], app)) && Compatible(d, Members(items[..i], app));
    }
  }

  method GroupItems(d: Directory, items: seq<Item>) returns (ok: bool, groups: map<string, Group>)
    ensures ok <==> Buildable(d, items)
    ensures ok ==> GroupsSoFar(groups, d, items)
  {
    groups := map[];
    var i := 0;
    while i < |items|
      invariant 0 <= i <= |items|
      invariant GroupsSoFar(groups, d, items[..i]) && Buildable(d, items[..i])
    {
      if !ToImport(items[i]) {
        SkippedStep(d, groups, items, i);
      } else {
        ItemStep(d, groups, items, i);
        var fine, next := AddItem(d, groups, items[i]);
        if !fine {
          PrefixMisfit(d, items, i);
          return false, groups;
        }
        groups := next;
      }
      i := i + 1;
    }
    assert items[..i] == items;
    ok := true;
  }

  function AppKey(g: Group): string {
    g.appUser
  }

  /** A finished group lists its Auth0 users in order. */
  predicate Finished(g: Group, d: Directory, members: seq<Item>) {
    members != [] && Describes(g, d, g.appUser, members) && g.auth0Users == Sort(Ids(members), Itself)
  }

  ghost predicate OneGroupEach(result: seq<Group>, items: seq<Item>) {
    ListedApart(result) && forall app | Members(items, app) != [] :: HasGroup(result, app)
  }

  ghost predicate HasGroup(result: seq<Group>, app: string) {
    exists g :: g in result && g.appUser == app
  }

  ghost predicate ListedApart(result: seq<Group>) {
    forall i, j | 0 <= i < j < |result| :: result[i].appUser != result[j].appUser
  }

  ghost predicate AllFinished(result: seq<Group>, d: Directory, items: seq<Item>) {
    forall g | g in result :: Finished(g, d, Members(items, g.appUser))
  }

  method FinishGroups(ghost d: Directory, ghost items: seq<Item>, groups: map<string, Group>)
    returns (result: seq<Group>)
    requires GroupsSoFar(groups, d, items)
    ensures ListedApart(result) && AllFinished(result, d, items)
    ensures forall app | app in groups :: HasGroup(result, app)
  {
    result := [];
    var left := groups.Keys;
    while left != {}
      invariant left <= groups.Keys
      invariant ListedApart(result) && AllFinished(result, d, items)
      invariant forall g | g in result :: g.appUser !in left
      invariant forall app | app in groups && app !in left :: HasGroup(result, app)
      decreases |left|
    {
      var app :| app in left;
      left := left - {app};
      var g := groups[app].(auth0Users := Sort(groups[app].auth0Users, Itself));
      assert GroupSoFar(groups, d, app, Members(items, app));
      result := result + [g];
    }
  }

  method ListGroups(ghost d: Directory, ghost items: seq<Item>, groups: map<string, Group>) returns (result: seq<Group>)
    requires GroupsSoFar(groups, d, items)
    ensures OneGroupEach(result, items) && SortedBy(result, AppKey) && AllFinished(result, d, items)
  {
    result := FinishGroups(d, items, groups);
    assert forall app :: GroupSoFar(groups, d, app, Members(items, app));
    SortSorts(result, AppKey);
    SortKeepsGroups(result, items);
    result := Sort(result, AppKey);
  }

  lemma SortKeepsGroups(groups: seq<Group>, items: seq<Item>)
    requires OneGroupEach(groups, items)
    ensures OneGroupEach(Sort(groups, AppKey), items)
    ensures forall g :: g in Sort(groups, AppKey) <==> g in groups
  {
    var sorted := Sort(groups, AppKey);
    SortSorts(groups, AppKey);
    forall g
      ensures g in sorted <==> g in groups
    {
      assert g in sorted <==> g in multiset(sorted);
    }
    forall i, j | 0 <= i < j < |sorted|
      ensures sorted[i].appUser != sorted[j].appUser
    {
      TwiceInMultiset(sorted, i, j);
      if sorted[i].appUser == sorted[j].appUser {
        assert sorted[i] in groups && sorted[j] in groups;
        assert sorted[i] == sorted[j];
        OnceInSequence(groups, sorted[i]);
      }
    }
    forall app | Members(items, app) != []
      ensures HasGroup(sorted, app)
    {
      var g :| g in groups && g.appUser == app;
      assert g in sorted;
    }
  }

  lemma TwiceInMultiset(s: seq<Group>, i: nat, j: nat)
    requires i < j < |s|
    ensures s[i] == s[j] ==> multiset(s)[s[i]] > 1
  {
    assert s == s[..i] + [s[i]] + s[i + 1..j] + [s[j]] + s[j + 1..];
  }

  lemma {:induction false} OnceInSequence(s: seq<Group>, g: Group)
    requires ListedApart(s)
    ensures multiset(s)[g] <= 1
  {
    if s != [] {
      assert s == [s[0]] + s[1..];
      OnceInSequence(s[1..], g);
    }
  }

  /** None when the plan cannot be imported faithfully. */
  method BuildAuth0ImportGroups(plan: Content, users: seq<User>, allowUnresolved: bool)
    returns (result: Option<seq<Group>>)
    ensures result.Some? <==>
              (allowUnresolved || plan.reconciliation.unresolved == []) && Buildable(ById(users), plan.items)
    ensures result.Some? ==> OneGroupEach(result.value, plan.items) && SortedBy(result.value, AppKey)
    ensures result.Some? ==> AllFinished(result.value, ById(users), plan.items)
  {
    var d := IndexUsers(users);
    if |plan.reconciliation.unresolved| > 0 && !allowUnresolved {
      return None;
    }
    var ok, groups := GroupItems(d, plan.items);
    if !ok {
      return None;
    }
    var listed := ListGroups(d, plan.items, groups);
    result := Some(listed);
  }

  // ----- what the groups are -----

  lemma {:induction false} MembersAreItems(items: seq<Item>, app: string, item: Item)
    ensures item in Members(items, app) <==> item in items && ToImport(item) && item.resolvedAppUser == app
  {
    if items != [] {
      MembersAreItems(items[..|items| - 1], app, item);
      assert items == items[..|items| - 1] + [items[|items| - 1]];
    }
  }

  lemma SortedIds(members: seq<Item>, id: string)
    ensures id in Sort(Ids(members), Itself) <==> exists m :: m in members && m.auth0User == id
  {
    SortSorts(Ids(members), Itself);
    assert id in Sort(Ids(members), Itself) <==> id in multiset(Sort(Ids(members), Itself));
    if id in Ids(members) {
      var i :| 0 <= i < |members| && Ids(members)[i] == id;
      assert members[i] in members;
    }
    if exists m :: m in members && m.auth0User == id {
      var m :| m in members && m.auth0User == id;
      var i :| 0 <= i < |members| && members[i] == m;
      assert Ids(members)[i] == id;
    }
  }

  /**
   The groups partition the resolved Auth0 users by app user: each resolved user is in the group of the app
   user it was resolved to and in no other.
   */
  lemma GroupsPartition(result: seq<Group>, d: Directory, items: seq<Item>, item: Item)
    requires OneGroupEach(result, items) && AllFinished(result, d, items)
    requires Distinct(Ids(items)) && item in items && ToImport(item)
    ensures HasGroup(result, item.resolvedAppUser)
    ensures forall g | g in result :: item.auth0User in g.auth0Users <==> g.appUser == item.resolvedAppUser
    ensures forall g, id | g in result && id in g.auth0Users ::
              exists m :: m in items && ToImport(m) && m.auth0User == id && m.resolvedAppUser == g.appUser
  {
    MembersAreItems(items, item.resolvedAppUser, item);
    forall g | g in result
      ensures item.auth0User in g.auth0Users <==> g.appUser == item.resolvedAppUser
    {
      SortedIds(Members(items, g.appUser), item.auth0User);
      MembersAreItems(items, g.appUser, item);
      if item.auth0User in g.auth0Users {
        var m :| m in Members(items, g.appUser) && m.auth0User == item.auth0User;
        MembersAreItems(items, g.appUser, m);
        SameIdSameItem(items, m, item);
      }
    }
    forall g, id | g in result && id in g.auth0Users
      ensures exists m :: m in items && ToImport(m) && m.auth0User == id && m.resolvedAppUser == g.appUser
    {
      SortedIds(Members(items, g.appUser), id);
      var m :| m in Members(items, g.appUser) && m.auth0User == id;
      MembersAreItems(items, g.appUser, m);
    }
  }

  lemma SameIdSameItem(items: seq<Item>, m: Item, n: Item)
    requires Distinct(Ids(items)) && m in items && n in items && m.auth0User == n.auth0User
    ensures m == n
  {
    var i :| 0 <= i < |items| && items[i] == m;
    var j :| 0 <= j < |items| && items[j] == n;
    assert Ids(items)[i] == Ids(items)[j];
  }

  lemma {:induction false} GoogleAccountsOf(members: seq<Item>, m: Item, i: ProviderIdentity)
    requires m in members && i in m.identities && i.provider == GOOGLE
    ensures i.account in GoogleOf(members)
  {
    var rest, last := members[..|members| - 1], members[|members| - 1];
    assert members == rest + [last];
    if m in rest {
      GoogleAccountsOf(rest, m, i);
    } else {
      GoogleAccountIn(last.identities, i);
    }
  }

  lemma {:induction false} GoogleAccountIn(identities: seq<ProviderIdentity>, i: ProviderIdentity)
    requires i in identities && i.provider == GOOGLE
    ensures i.account in GoogleIn(identities)
  {
    if identities[0] != i {
      GoogleAccountIn(identities[1..], i);
    }
  }

  /** Named accounts that agree are all the last one. */
  lemma AgreeOnLast(accounts: seq<string>, account: string)
    requires Agree("", accounts) && "" !in accounts && account in accounts
    ensures account == LastOf("", accounts)
  {
    assert accounts == [accounts[0]] + accounts[1..];
    AgreeMeansOne(accounts[0], accounts[1..]);
    assert LastOf("", accounts) in accounts;
  }

  /** When accounts are named, a group has one e-mail and at most one Google account, its members' own. */
  lemma OneAccountPerGroup(result: seq<Group>, d: Directory, items: seq<Item>, g: Group, m: Item, i: ProviderIdentity)
    requires Buildable(d, items) && g in result && Finished(g, d, Members(items, g.appUser))
    requires "" !in GoogleOf(Members(items, g.appUser))
    requires m in Members(items, g.appUser) && i in m.identities && i.provider == GOOGLE
    ensures i.account == g.google && EmailOf(d, m) == g.email != ""
  {
    var members := Members(items, g.appUser);
    GoogleAccountsOf(members, m, i);
    assert Compatible(d, members);
    AgreeOnLast(GoogleOf(members), i.account);
    MembersAreItems(items, g.appUser, m);
    assert ItemFine(d, m);
  }
}
