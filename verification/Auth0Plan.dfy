/**
 The plan that links Auth0 users to app users. PlanOf gives the plan as a function of the inputs;
 PlanAuth0Import computes it with loops. A checksum is taken to be the checksummed content itself.
 */
module Auth0Plan {
  import opened Wrappers
  import opened StringOrder
  import I = Identity

  datatype ProviderIdentity = ProviderIdentity(provider: string, account: string)
  datatype User = User(id: string, email: string, emailVerified: bool, passwordHash: string, blocked: bool,
                       identities: seq<ProviderIdentity>)
  datatype Candidate = Candidate(appUser: string, email: string)
  datatype Resolution = Resolution(auth0User: string, appUser: string)

  datatype Status = Matched | RequiresResolution | PasswordResetRequired | Imported
  datatype Detail = BlockedUser | ResetNeeded | ExplicitlyResolved | AdvisoryCandidates | NoMapping

  /** An empty resolvedAppUser stands for none. */
  datatype Item = Item(auth0User: string, candidates: seq<string>, resolvedAppUser: string, status: Status,
                       emailVerified: bool, hashCompatible: bool, requiresReset: bool, blocked: bool,
                       identities: seq<ProviderIdentity>, detail: Detail)

  datatype Reconciliation = Reconciliation(
    users: nat, candidates: nat, resolutions: nat, identities: nat,
    accounts: seq<ProviderIdentity>, statusCounts: map<Status, nat>, unresolved: seq<string>)

  datatype Content = Content(createdAt: int, items: seq<Item>, reconciliation: Reconciliation)
  datatype Plan = Plan(content: Content, checksum: Option<Content>)

  const DATABASE := "auth0"

  function NormalizeEmail(email: string): string {
    I.Lower(I.Trim(email))
  }

  function IdentityKey(i: ProviderIdentity): string {
    i.provider + [0 as char] + i.account
  }

  function Itself(s: string): string {
    s
  }

  function ItemKey(i: Item): string {
    i.auth0User
  }

  // ----- which inputs are accepted -----

  function AllIdentities(users: seq<User>): seq<ProviderIdentity> {
    if users == [] then [] else AllIdentities(users[..|users| - 1]) + users[|users| - 1].identities
  }

  function Keys(identities: seq<ProviderIdentity>): seq<string> {
    seq(|identities|, i requires 0 <= i < |identities| => IdentityKey(identities[i]))
  }

  function UserIds(users: seq<User>): seq<string> {
    seq(|users|, i requires 0 <= i < |users| => users[i].id)
  }

  function AppUsers(candidates: seq<Candidate>): seq<string> {
    seq(|candidates|, i requires 0 <= i < |candidates| => candidates[i].appUser)
  }

  function ResolvedIds(resolutions: seq<Resolution>): seq<string> {
    seq(|resolutions|, i requires 0 <= i < |resolutions| => resolutions[i].auth0User)
  }

  predicate WellFormed(i: ProviderIdentity) {
    I.Trim(i.provider) != "" && I.Trim(i.account) != ""
  }

  ghost predicate GoodCandidates(candidates: seq<Candidate>) {
    Distinct(AppUsers(candidates)) && forall c | c in candidates :: c.appUser != ""
  }

  ghost predicate GoodUsers(users: seq<User>) {
    && Distinct(UserIds(users)) && Distinct(Keys(AllIdentities(users)))
    && (forall u | u in users :: u.id != "" && u.identities != [])
    && (forall i | i in AllIdentities(users) :: WellFormed(i))
  }

  ghost predicate HasCandidate(candidates: seq<Candidate>, appUser: string) {
    exists c :: c in candidates && c.appUser == appUser
  }

  ghost predicate HasUser(users: seq<User>, id: string, blocked: bool) {
    exists u :: u in users && u.id == id && u.blocked == blocked
  }

  ghost predicate GoodResolution(r: Resolution, users: seq<User>, candidates: seq<Candidate>) {
    && r.auth0User != "" && r.appUser != ""
    && HasCandidate(candidates, r.appUser) && HasUser(users, r.auth0User, false)
  }

  ghost predicate Accepts(users: seq<User>, candidates: seq<Candidate>, resolutions: seq<Resolution>) {
    GoodCandidates(candidates) && GoodUsers(users) && GoodResolutions(resolutions, users, candidates)
  }

  // ----- the plan -----

  function CandidatesFor(candidates: seq<Candidate>, email: string): seq<string> {
    if candidates == [] then []
    else
      var last := candidates[|candidates| - 1];
      CandidatesFor(candidates[..|candidates| - 1], email)
        + (if NormalizeEmail(last.email) == email then [last.appUser] else [])
  }

  function Mapped(resolutions: seq<Resolution>): map<string, string> {
    if resolutions == [] then map[]
    else
      var last := resolutions[|resolutions| - 1];
      Mapped(resolutions[..|resolutions| - 1])[last.auth0User := last.appUser]
  }

  function ResolutionOf(resolutions: seq<Resolution>, user: string): string {
    if user in Mapped(resolutions) then Mapped(resolutions)[user] else ""
  }

  predicate HasDatabase(identities: seq<ProviderIdentity>) {
    exists i | i in identities :: i.provider == DATABASE
  }

  function Ruling(blocked: bool, resolved: string, reset: bool, advisory: bool): (Status, Detail) {
    if blocked then (RequiresResolution, BlockedUser)
    else if resolved != "" then
      if reset then (PasswordResetRequired, ResetNeeded) else (Matched, ExplicitlyResolved)
    else if advisory then (RequiresResolution, AdvisoryCandidates)
    else (RequiresResolution, NoMapping)
  }

  /** The item of a user, given its candidates by e-mail and its resolution. */
  function ItemWith(u: User, advisory: seq<string>, resolution: string, compatible: string -> bool): Item {
    var identities := Sort(u.identities, IdentityKey);
    var candidates := if u.emailVerified then advisory else [];
    var hashOk := HasDatabase(identities) && u.passwordHash != "" && compatible(u.passwordHash);
    var reset := HasDatabase(identities) && !hashOk;
    var resolved := if u.blocked then "" else resolution;
    var ruling := Ruling(u.blocked, resolved, reset, candidates != []);
    Item(u.id, candidates, resolved, ruling.0, u.emailVerified, hashOk, reset, u.blocked, identities, ruling.1)
  }

  /** The candidates with an e-mail; a blank one has none. */
  function Advisory(candidates: seq<Candidate>, email: string): seq<string> {
    if NormalizeEmail(email) == "" then [] else Sort(CandidatesFor(candidates, NormalizeEmail(email)), Itself)
  }

  function ItemOf(u: User, candidates: seq<Candidate>, resolutions: seq<Resolution>, compatible: string -> bool): Item {
    ItemWith(u, Advisory(candidates, u.email), ResolutionOf(resolutions, u.id), compatible)
  }

  function ItemsOf(users: seq<User>, candidates: seq<Candidate>, resolutions: seq<Resolution>,
                   compatible: string -> bool): seq<Item> {
    seq(|users|, i requires 0 <= i < |users| => ItemOf(users[i], candidates, resolutions, compatible))
  }

  function CountOf(items: seq<Item>, status: Status): nat {
    if items == [] then 0
    else CountOf(items[..|items| - 1], status) + (if items[|items| - 1].status == status then 1 else 0)
  }

  function Counts(items: seq<Item>): map<Status, nat> {
    map[Matched := CountOf(items, Matched), RequiresResolution := CountOf(items, RequiresResolution),
        PasswordResetRequired := CountOf(items, PasswordResetRequired), Imported := CountOf(items, Imported)]
  }

  function UnresolvedIn(items: seq<Item>): seq<string> {
    if items == [] then []
    else
      UnresolvedIn(items[..|items| - 1]) +
      (if items[|items| - 1].status == RequiresResolution then [items[|items| - 1].auth0User] else [])
  }

  function ContentOf(users: seq<User>, candidates: seq<Candidate>, resolutions: seq<Resolution>, now: int,
                     compatible: string -> bool): Content {
    var items := Sort(ItemsOf(users, candidates, resolutions, compatible), ItemKey);
    var accounts := Sort(AllIdentities(users), IdentityKey);
    Content(now, items, Reconciliation(|users|, |candidates|, |resolutions|, |accounts|, accounts, Counts(items),
                                       UnresolvedIn(items)))
  }

  /** The plan, or None when the inputs are refused. */
  ghost function PlanOf(users: seq<User>, candidates: seq<Candidate>, resolutions: seq<Resolution>, now: int,
                        compatible: string -> bool): Option<Plan> {
    var content := ContentOf(users, candidates, resolutions, now, compatible);
    if Accepts(users, candidates, resolutions) then Some(Plan(content, Some(content))) else None
  }

  // ----- the loops -----

  ghost predicate GroupedByEmail(byEmail: map<string, seq<string>>, candidates: seq<Candidate>) {
    && "" !in byEmail
    && forall email | email != "" ::
       (if email in byEmail then byEmail[email] else []) == CandidatesFor(candidates, email)
  }

  method CheckCandidates(candidates: seq<Candidate>)
    returns (ok: bool, known: set<string>, byEmail: map<string, seq<string>>)
    ensures ok == GoodCandidates(candidates)
    ensures ok ==> (forall id :: id in known <==> HasCandidate(candidates, id)) && GroupedByEmail(byEmail, candidates)
  {
    known, byEmail := {}, map[];
    var i := 0;
    while i < |candidates|
      invariant 0 <= i <= |candidates|
      invariant Distinct(AppUsers(candidates[..i])) && "" !in AppUsers(candidates[..i])
      invariant forall id :: id in known <==> id in AppUsers(candidates[..i])
      invariant GroupedByEmail(byEmail, candidates[..i])
    {
      var c := candidates[i];
      if c.appUser == "" || c.appUser in known {
        PrefixRefused(candidates, i);
        return false, known, byEmail;
      }
      CandidatesGrow(candidates, i);
      DistinctSnoc(AppUsers(candidates[..i]), c.appUser);
      GroupingGrows(candidates, i, byEmail);
      known := known + {c.appUser};
      var email := NormalizeEmail(c.email);
      if email != "" {
        byEmail := byEmail[email := (if email in byEmail then byEmail[email] else []) + [c.appUser]];
      }
      i := i + 1;
    }
    assert candidates[..i] == candidates;
    CandidateIds(candidates);
    ok := true;
  }

  lemma CandidatesGrow(candidates: seq<Candidate>, i: nat)
    requires i < |candidates|
    ensures AppUsers(candidates[..i + 1]) == AppUsers(candidates[..i]) + [candidates[i].appUser]
  {
  }

  lemma GroupingGrows(candidates: seq<Candidate>, i: nat, byEmail: map<string, seq<string>>)
    requires i < |candidates| && GroupedByEmail(byEmail, candidates[..i])
    ensures var email := NormalizeEmail(candidates[i].email);
            var earlier := if email in byEmail then byEmail[email] else [];
            GroupedByEmail(if email == "" then byEmail else byEmail[email := earlier + [candidates[i].appUser]],
                           candidates[..i + 1])
  {
    assert candidates[..i + 1][..i] == candidates[..i];
  }

  lemma CandidateIds(candidates: seq<Candidate>)
    ensures forall id :: id in AppUsers(candidates) <==> HasCandidate(candidates, id)
    ensures GoodCandidates(candidates) <==> Distinct(AppUsers(candidates)) && "" !in AppUsers(candidates)
  {
    forall id
      ensures id in AppUsers(candidates) <==> HasCandidate(candidates, id)
    {
      if id in AppUsers(candidates) {
        var i :| 0 <= i < |candidates| && AppUsers(candidates)[i] == id;
        assert candidates[i] in candidates;
      }
      if HasCandidate(candidates, id) {
        var c :| c in candidates && c.appUser == id;
        var i :| 0 <= i < |candidates| && candidates[i] == c;
        assert AppUsers(candidates)[i] == id;
      }
    }
  }

  lemma PrefixRefused(candidates: seq<Candidate>, i: nat)
    requires i < |candidates| && (candidates[i].appUser == "" || candidates[i].appUser in AppUsers(candidates[..i]))
    ensures !GoodCandidates(candidates)
  {
    var shorter, all := AppUsers(candidates[..i]), AppUsers(candidates);
    if candidates[i].appUser in shorter {
      var j :| 0 <= j < i && shorter[j] == candidates[i].appUser;
      assert all[j] == all[i];
    }
  }

  /** The checks on one user's identities, continuing those on the users before it. */
  method CheckIdentities(identities: seq<ProviderIdentity>, before: seq<ProviderIdentity>, seen: set<string>)
    returns (ok: bool, after: set<string>)
    requires Distinct(Keys(before)) && forall k :: k in seen <==> k in Keys(before)
    ensures ok == (Distinct(Keys(before + identities)) && forall x | x in identities :: WellFormed(x))
    ensures ok ==> forall k :: k in after <==> k in Keys(before + identities)
  {
    after := seen;
    var i := 0;
    assert before + identities[..0] == before;
    while i < |identities|
      invariant 0 <= i <= |identities|
      invariant Distinct(Keys(before + identities[..i]))
      invariant forall x | x in identities[..i] :: WellFormed(x)
      invariant forall k :: k in after <==> k in Keys(before + identities[..i])
    {
      var x := identities[i];
      if I.Trim(x.provider) == "" || I.Trim(x.account) == "" {
        assert !WellFormed(identities[i]);
        return false, after;
      }
      var key := IdentityKey(x);
      KeysGrow(before, identities, i);
      if key in after {
        RepeatedKey(before, identities, i);
        return false, after;
      }
      after := after + {key};
      i := i + 1;
    }
    assert identities[..i] == identities;
    ok := true;
  }

  lemma KeysGrow(before: seq<ProviderIdentity>, identities: seq<ProviderIdentity>, i: nat)
    requires i < |identities|
    ensures Keys(before + identities[..i + 1]) == Keys(before + identities[..i]) + [IdentityKey(identities[i])]
  {
  }

  lemma RepeatedKey(before: seq<ProviderIdentity>, identities: seq<ProviderIdentity>, i: nat)
    requires i < |identities| && IdentityKey(identities[i]) in Keys(before + identities[..i])
    ensures !Distinct(Keys(before + identities))
  {
    var shorter, keys := Keys(before + identities[..i]), Keys(before + identities);
    var j :| 0 <= j < |shorter| && shorter[j] == IdentityKey(identities[i]);
    assert keys[j] == shorter[j] && keys[|before| + i] == IdentityKey(identities[i]);
  }

  ghost predicate BlockedAs(users: seq<User>, blocked: map<string, bool>) {
    && (forall u | u in users :: u.id in blocked && blocked[u.id] == u.blocked)
    && (forall id | id in blocked :: HasUser(users, id, blocked[id]))
  }

  method CheckUsers(users: seq<User>) returns (ok: bool, blocked: map<string, bool>, accounts: seq<ProviderIdentity>)
    ensures ok == GoodUsers(users)
    ensures ok ==> accounts == AllIdentities(users) && BlockedAs(users, blocked)
  {
    blocked, accounts := map[], [];
    var seen: set<string> := {};
    var i := 0;
    while i < |users|
      invariant 0 <= i <= |users|
      invariant GoodUsers(users[..i])
      invariant accounts == AllIdentities(users[..i])
      invariant forall k :: k in seen <==> k in Keys(accounts)
      invariant BlockedAs(users[..i], blocked)
    {
      var u := users[i];
      if u.id == "" || u.id in blocked || u.identities == [] {
        RepeatedUser(users, i, blocked);
        return false, blocked, accounts;
      }
      var fine;
      fine, seen := CheckIdentities(u.identities, accounts, seen);
      if !fine {
        UsersGrow(users, i);
        PrefixBad(users, i);
        return false, blocked, accounts;
      }
      GoodUsersGrow(users, i, blocked);
      blocked := blocked[u.id := u.blocked];
      accounts := accounts + u.identities;
      i := i + 1;
    }
    assert users[..i] == users;
    ok := true;
  }

  lemma GoodUsersGrow(users: seq<User>, i: nat, blocked: map<string, bool>)
    requires i < |users| && GoodUsers(users[..i]) && BlockedAs(users[..i], blocked)
    requires users[i].id != "" && users[i].id !in blocked && users[i].identities != []
    requires Distinct(Keys(AllIdentities(users[..i]) + users[i].identities))
    requires forall x | x in users[i].identities :: WellFormed(x)
    ensures GoodUsers(users[..i + 1])
            && AllIdentities(users[..i + 1]) == AllIdentities(users[..i]) + users[i].identities
    ensures BlockedAs(users[..i + 1], blocked[users[i].id := users[i].blocked])
  {
    UsersGrow(users, i);
    assert users[..i + 1] == users[..i] + [users[i]];
    assert users[i].id !in UserIds(users[..i]) by {
      assert forall j | 0 <= j < i :: users[..i][j] in users[..i];
    }
    DistinctSnoc(UserIds(users[..i]), users[i].id);
    BlockedGrows(users[..i], users[i], blocked);
  }

  lemma BlockedGrows(users: seq<User>, u: User, blocked: map<string, bool>)
    requires BlockedAs(users, blocked) && u.id !in blocked
    ensures BlockedAs(users + [u], blocked[u.id := u.blocked])
  {
  }

  lemma UsersGrow(users: seq<User>, i: nat)
    requires i < |users|
    ensures AllIdentities(users[..i + 1]) == AllIdentities(users[..i]) + users[i].identities
    ensures UserIds(users[..i + 1]) == UserIds(users[..i]) + [users[i].id]
  {
    assert users[..i + 1][..i] == users[..i];
  }

  lemma RepeatedUser(users: seq<User>, i: nat, blocked: map<string, bool>)
    requires i < |users| && BlockedAs(users[..i], blocked)
    requires users[i].id == "" || users[i].identities == [] || users[i].id in blocked
    ensures !GoodUsers(users)
  {
    if users[i].id in blocked {
      var u :| u in users[..i] && u.id == users[i].id;
      var j :| 0 <= j < i && users[j] == u;
      assert UserIds(users)[j] == UserIds(users)[i];
    }
    assert users[i] in users;
  }

  lemma {:induction false} IdentitiesPrefix(users: seq<User>, i: nat)
    requires i <= |users|
    ensures AllIdentities(users[..i]) <= AllIdentities(users)
    decreases |users| - i
  {
    if i == |users| {
      assert users[..i] == users;
    } else {
      UsersGrow(users, i);
      IdentitiesPrefix(users, i + 1);
    }
  }

  lemma PrefixBad(users: seq<User>, i: nat)
    requires i < |users|
    requires !Distinct(Keys(AllIdentities(users[..i + 1]))) || exists x :: x in users[i].identities && !WellFormed(x)
    ensures !GoodUsers(users)
  {
    UsersGrow(users, i);
    IdentitiesPrefix(users, i + 1);
    var shorter, all := AllIdentities(users[..i + 1]), AllIdentities(users);
    if Distinct(Keys(all)) {
      assert forall j | 0 <= j < |shorter| :: Keys(shorter)[j] == Keys(all)[j];
      var x :| x in users[i].identities && !WellFormed(x);
      assert x in shorter;
      assert x in all;
    }
  }

  ghost predicate GoodResolutions(resolutions: seq<Resolution>, users: seq<User>, candidates: seq<Candidate>) {
    Distinct(ResolvedIds(resolutions)) && forall r | r in resolutions :: GoodResolution(r, users, candidates)
  }

  method CheckResolutions(resolutions: seq<Resolution>, ghost users: seq<User>, ghost candidates: seq<Candidate>,
                          known: set<string>, blocked: map<string, bool>)
    returns (ok: bool, mapping: map<string, string>)
    requires GoodUsers(users) && BlockedAs(users, blocked) && forall id :: id in known <==> HasCandidate(candidates, id)
    ensures ok == GoodResolutions(resolutions, users, candidates)
    ensures ok ==> mapping == Mapped(resolutions)
  {
    mapping := map[];
    var i := 0;
    while i < |resolutions|
      invariant 0 <= i <= |resolutions|
      invariant GoodResolutions(resolutions[..i], users, candidates)
      invariant mapping == Mapped(resolutions[..i])
      invariant forall id :: id in mapping <==> id in ResolvedIds(resolutions[..i])
    {
      var r := resolutions[i];
      ResolutionsGrow(resolutions, i);
      if r.auth0User == "" || r.appUser == "" || r.appUser !in known || r.auth0User !in blocked
        || blocked[r.auth0User] {
        assert resolutions[i] in resolutions;
        return false, mapping;
      }
      if r.auth0User in mapping {
        RepeatedResolution(resolutions, i);
        return false, mapping;
      }
      DistinctSnoc(ResolvedIds(resolutions[..i]), r.auth0User);
      mapping := mapping[r.auth0User := r.appUser];
      i := i + 1;
    }
    assert resolutions[..i] == resolutions;
    ok := true;
  }

  lemma ResolutionsGrow(resolutions: seq<Resolution>, i: nat)
    requires i < |resolutions|
    ensures resolutions[..i + 1] == resolutions[..i] + [resolutions[i]]
    ensures ResolvedIds(resolutions[..i + 1]) == ResolvedIds(resolutions[..i]) + [resolutions[i].auth0User]
    ensures Mapped(resolutions[..i + 1]) == Mapped(resolutions[..i])[resolutions[i].auth0User := resolutions[i].appUser]
  {
  }

  lemma RepeatedResolution(resolutions: seq<Resolution>, i: nat)
    requires i < |resolutions| && resolutions[i].auth0User in ResolvedIds(resolutions[..i])
    ensures !Distinct(ResolvedIds(resolutions))
  {
    var shorter, all := ResolvedIds(resolutions[..i]), ResolvedIds(resolutions);
    var j :| 0 <= j < i && shorter[j] == resolutions[i].auth0User;
    assert all[j] == all[i];
  }

  method MakeItem(u: User, byEmail: map<string, seq<string>>, mapping: map<string, string>, compatible: string -> bool)
    returns (item: Item)
    ensures var found := if NormalizeEmail(u.email) in byEmail then byEmail[NormalizeEmail(u.email)] else [];
            item == ItemWith(u, Sort(found, Itself), if u.id in mapping then mapping[u.id] else "", compatible)
  {
    var identities := Sort(u.identities, IdentityKey);
    var candidates := [];
    if u.emailVerified {
      var email := NormalizeEmail(u.email);
      candidates := Sort(if email in byEmail then byEmail[email] else [], Itself);
    }
    var hasDatabase := false;
    var i := 0;
    while i < |identities| && !hasDatabase
      invariant 0 <= i <= |identities|
      invariant hasDatabase ==> HasDatabase(identities)
      invariant !hasDatabase ==> forall j | 0 <= j < i :: identities[j].provider != DATABASE
    {
      if identities[i].provider == DATABASE {
        hasDatabase := true;
      }
      i := i + 1;
    }
    assert hasDatabase == HasDatabase(identities);
    var hashOk := hasDatabase && u.passwordHash != "" && compatible(u.passwordHash);
    var reset := hasDatabase && !hashOk;
    var resolved, status, detail := "", RequiresResolution, NoMapping;
    if u.blocked {
      detail := BlockedUser;
    } else if u.id in mapping && mapping[u.id] != "" {
      resolved := mapping[u.id];
      if reset {
        status, detail := PasswordResetRequired, ResetNeeded;
      } else {
        status, detail := Matched, ExplicitlyResolved;
      }
    } else if |candidates| > 0 {
      detail := AdvisoryCandidates;
    }
    item := Item(u.id, candidates, resolved, status, u.emailVerified, hashOk, reset, u.blocked, identities, detail);
  }

  method Reconcile(items: seq<Item>) returns (counts: map<Status, nat>, unresolved: seq<string>)
    ensures counts == Counts(items) && unresolved == UnresolvedIn(items)
  {
    counts := map[Matched := 0, RequiresResolution := 0, PasswordResetRequired := 0, Imported := 0];
    unresolved := [];
    var i := 0;
    while i < |items|
      invariant 0 <= i <= |items|
      invariant counts == Counts(items[..i]) && unresolved == UnresolvedIn(items[..i])
    {
      assert items[..i + 1][..i] == items[..i];
      var status := items[i].status;
      assert status == Matched || status == RequiresResolution || status == PasswordResetRequired || status == Imported;
      counts := counts[status := counts[status] + 1];
      if items[i].status == RequiresResolution {
        unresolved := unresolved + [items[i].auth0User];
      }
      i := i + 1;
    }
    assert items[..i] == items;
  }

  method BuildItems(users: seq<User>, ghost candidates: seq<Candidate>, ghost resolutions: seq<Resolution>,
                    byEmail: map<string, seq<string>>, mapping: map<string, string>, compatible: string -> bool)
    returns (items: seq<Item>)
    requires GroupedByEmail(byEmail, candidates) && mapping == Mapped(resolutions)
    ensures items == ItemsOf(users, candidates, resolutions, compatible)
  {
    items := [];
    var i := 0;
    while i < |users|
      invariant 0 <= i <= |users| && |items| == i
      invariant forall j | 0 <= j < i :: items[j] == ItemOf(users[j], candidates, resolutions, compatible)
    {
      var item := MakeItem(users[i], byEmail, mapping, compatible);
      items := items + [item];
      i := i + 1;
    }
  }

  method PlanAuth0Import(users: seq<User>, candidates: seq<Candidate>, resolutions: seq<Resolution>, now: int,
                         compatible: string -> bool) returns (plan: Option<Plan>)
    ensures plan == PlanOf(users, candidates, resolutions, now, compatible)
  {
    var ok, known, byEmail := CheckCandidates(candidates);
    if !ok {
      return None;
    }
    var okUsers, blocked, accounts := CheckUsers(users);
    if !okUsers {
      return None;
    }
    var okResolutions, mapping := CheckResolutions(resolutions, users, candidates, known, blocked);
    if !okResolutions {
      return None;
    }
    var items := BuildItems(users, candidates, resolutions, byEmail, mapping, compatible);
    items := Sort(items, ItemKey);
    accounts := Sort(accounts, IdentityKey);
    var counts, unresolved := Reconcile(items);
    var content := Content(now, items,
      Reconciliation(|users|, |candidates|, |resolutions|, |accounts|, accounts, counts, unresolved));
    plan := Some(Plan(content, Some(content)));
  }
}
