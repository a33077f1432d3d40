/** The import groups of a plan: what the inputs of a plan guarantee about the groups built from it. */
module Auth0Import {
  import opened Wrappers
  import opened StringOrder
  import opened Auth0Plan
  import opened Auth0Order
  import opened Auth0Groups

  /** The items of the plan of accepted inputs. */
  function PlanItems(users: seq<User>, candidates: seq<Candidate>, resolutions: seq<Resolution>, now: int,
                     compatible: string -> bool): seq<Item> {
    ContentOf(users, candidates, resolutions, now, compatible).items
  }

  function IdOf(item: Item): string {
    item.auth0User
  }

  lemma IdsAreImages(items: seq<Item>)
    ensures Ids(items) == Images(IdOf, items)
  {
    var images := Images(IdOf, items);
    assert |Ids(items)| == |images|;
    assert forall i | 0 <= i < |items| :: Ids(items)[i] == images[i];
  }

  /** Each Auth0 user has one item. */
  lemma PlanItemsApart(users: seq<User>, candidates: seq<Candidate>, resolutions: seq<Resolution>, now: int,
                       compatible: string -> bool)
    requires Accepts(users, candidates, resolutions)
    ensures Distinct(Ids(PlanItems(users, candidates, resolutions, now, compatible)))
  {
    var unsorted := ItemsOf(users, candidates, resolutions, compatible);
    var items := PlanItems(users, candidates, resolutions, now, compatible);
    SortSorts(unsorted, ItemKey);
    assert Ids(unsorted) == UserIds(users);
    IdsAreImages(unsorted);
    IdsAreImages(items);
    ImagesPermute(IdOf, unsorted, items);
    DistinctPermutes(Ids(unsorted), Ids(items));
  }

  ghost predicate Named(items: seq<Item>) {
    forall item, i | item in items && i in item.identities :: i.account != ""
  }

  /** Every identity of a planned item has an account. */
  lemma PlanItemsNamed(users: seq<User>, candidates: seq<Candidate>, resolutions: seq<Resolution>, now: int,
                       compatible: string -> bool)
    requires Accepts(users, candidates, resolutions)
    ensures Named(PlanItems(users, candidates, resolutions, now, compatible))
  {
    var unsorted := ItemsOf(users, candidates, resolutions, compatible);
    var items := PlanItems(users, candidates, resolutions, now, compatible);
    SortSorts(unsorted, ItemKey);
    SameMembers(items, unsorted);
    forall item, i | item in items && i in item.identities
      ensures i.account != ""
    {
      var k :| 0 <= k < |unsorted| && unsorted[k] == item;
      SortSorts(users[k].identities, IdentityKey);
      SameMembers(item.identities, users[k].identities);
      PartOfAll(users, users[k]);
      assert WellFormed(i);
    }
  }

  lemma {:induction false} AccountsNamed(identities: seq<ProviderIdentity>)
    requires forall i | i in identities :: i.account != ""
    ensures "" !in GoogleIn(identities)
  {
    if identities != [] {
      assert identities[0] in identities;
      AccountsNamed(identities[1..]);
    }
  }

  lemma {:induction false} GoogleNamed(members: seq<Item>)
    requires Named(members)
    ensures "" !in GoogleOf(members)
  {
    if members != [] {
      var rest, last := members[..|members| - 1], members[|members| - 1];
      assert last in members && forall m | m in rest :: m in members;
      GoogleNamed(rest);
      AccountsNamed(last.identities);
    }
  }

  lemma MembersNamed(items: seq<Item>, app: string)
    requires Named(items)
    ensures Named(Members(items, app))
  {
    forall m | m in Members(items, app)
      ensures m in items
    {
      MembersAreItems(items, app, m);
    }
  }

  /**
   The groups built from a plan of accepted inputs partition its resolved users by app user, and each group has one
   e-mail and at most one Google account, its members' own.
   */
  lemma PlannedGroups(users: seq<User>, candidates: seq<Candidate>, resolutions: seq<Resolution>, now: int,
                      compatible: string -> bool, result: seq<Group>, item: Item)
    requires Accepts(users, candidates, resolutions)
    requires var items, d := PlanItems(users, candidates, resolutions, now, compatible), ById(users);
             && Buildable(d, items) && OneGroupEach(result, items) && AllFinished(result, d, items)
             && item in items && ToImport(item)
    ensures HasGroup(result, item.resolvedAppUser)
    ensures forall g | g in result :: item.auth0User in g.auth0Users <==> g.appUser == item.resolvedAppUser
    ensures forall g | g in result && g.appUser == item.resolvedAppUser ::
              && EmailOf(ById(users), item) == g.email != ""
              && forall i | i in item.identities && i.provider == GOOGLE :: i.account == g.google
  {
    var items, d := PlanItems(users, candidates, resolutions, now, compatible), ById(users);
    PlanItemsApart(users, candidates, resolutions, now, compatible);
    GroupsPartition(result, d, items, item);
    PlanItemsNamed(users, candidates, resolutions, now, compatible);
    forall g | g in result && g.appUser == item.resolvedAppUser
      ensures EmailOf(d, item) == g.email != ""
      ensures forall i | i in item.identities && i.provider == GOOGLE :: i.account == g.google
    {
      PlannedMember(result, d, items, g, item);
    }
  }

  lemma PlannedMember(result: seq<Group>, d: Directory, items: seq<Item>, g: Group, item: Item)
    requires Buildable(d, items) && g in result && Finished(g, d, Members(items, g.appUser)) && Named(items)
    requires item in items && ToImport(item) && item.resolvedAppUser == g.appUser
    ensures EmailOf(d, item) == g.email != ""
    ensures forall i | i in item.identities && i.provider == GOOGLE :: i.account == g.google
  {
    MembersAreItems(items, g.appUser, item);
    MembersNamed(items, g.appUser);
    GoogleNamed(Members(items, g.appUser));
    assert ItemFine(d, item);
    forall i | i in item.identities && i.provider == GOOGLE
      ensures i.account == g.google
    {
      OneAccountPerGroup(result, d, items, g, item, i);
    }
  }

  /** Planning, then grouping what was planned; none when either refuses. */
  method PlanAndGroup(users: seq<User>, candidates: seq<Candidate>, resolutions: seq<Resolution>, now: int,
                      compatible: string -> bool, allowUnresolved: bool) returns (groups: Option<seq<Group>>)
    ensures var content := ContentOf(users, candidates, resolutions, now, compatible);
            groups.Some? <==>
              && Accepts(users, candidates, resolutions)
              && (allowUnresolved || content.reconciliation.unresolved == []) && Buildable(ById(users), content.items)
    ensures groups.Some? ==>
              forall item | item in PlanItems(users, candidates, resolutions, now, compatible) && ToImport(item) ::
                && HasGroup(groups.value, item.resolvedAppUser)
                && forall g | g in groups.value :: item.auth0User in g.auth0Users <==> g.appUser == item.resolvedAppUser
  {
    var plan := PlanAuth0Import(users, candidates, resolutions, now, compatible);
    if plan.None? {
      return None;
    }
    groups := BuildAuth0ImportGroups(plan.value.content, users, allowUnresolved);
    if groups.Some? {
      forall item | item in PlanItems(users, candidates, resolutions, now, compatible) && ToImport(item)
        ensures HasGroup(groups.value, item.resolvedAppUser)
        ensures forall g | g in groups.value :: item.auth0User in g.auth0Users <==> g.appUser == item.resolvedAppUser
      {
        PlannedGroups(users, candidates, resolutions, now, compatible, groups.value, item);
      }
    }
  }
}
