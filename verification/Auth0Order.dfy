/** The Auth0 plan does not depend on the order of its inputs, and it links only what was resolved explicitly. */
module Auth0Order {
  import opened Wrappers
  import opened StringOrder
  import opened Auth0Plan

  // ----- permutations -----

  ghost function Images<T, U>(f: T -> U, s: seq<T>): seq<U> {
    seq(|s|, i requires 0 <= i < |s| => f(s[i]))
  }

  lemma Without<T(!new)>(s: seq<T>, x: T) returns (k: nat)
    requires x in multiset(s)
    ensures k < |s| && s[k] == x && multiset(s[..k] + s[k + 1..]) == multiset(s) - multiset{x}
  {
    k :| 0 <= k < |s| && s[k] == x;
    assert s == s[..k] + [x] + s[k + 1..];
  }

  /** The images of a permutation are a permutation of the images. */
  lemma {:induction false} ImagesPermute<T(!new), U(!new)>(f: T -> U, s: seq<T>, t: seq<T>)
    requires multiset(s) == multiset(t)
    ensures multiset(Images(f, s)) == multiset(Images(f, t))
    decreases s
  {
    assert |s| == |multiset(s)| == |multiset(t)| == |t|;
    if s != [] {
      assert s == [s[0]] + s[1..];
      var k := Without(t, s[0]);
      ImagesPermute(f, s[1..], t[..k] + t[k + 1..]);
      assert Images(f, s) == [f(s[0])] + Images(f, s[1..]);
      assert Images(f, t) == Images(f, t[..k]) + [f(t[k])] + Images(f, t[k + 1..]);
      assert Images(f, t[..k] + t[k + 1..]) == Images(f, t[..k]) + Images(f, t[k + 1..]);
    }
  }

  ghost function Union<T>(bags: seq<multiset<T>>): multiset<T> {
    if bags == [] then multiset{} else bags[0] + Union(bags[1..])
  }

  lemma {:induction false} UnionOfConcat<T(!new)>(a: seq<multiset<T>>, b: seq<multiset<T>>)
    ensures Union(a + b) == Union(a) + Union(b)
  {
    if a == [] {
      assert a + b == b;
    } else {
      UnionOfConcat(a[1..], b);
      assert (a + b)[1..] == a[1..] + b;
    }
  }

  lemma UnionOfImages<T(!new), U(!new)>(f: T -> multiset<U>, s: seq<T>)
    requires s != []
    ensures Union(Images(f, s)) == Union(Images(f, s[..|s| - 1])) + f(s[|s| - 1])
  {
    var last := f(s[|s| - 1]);
    assert Images(f, s) == Images(f, s[..|s| - 1]) + [last];
    UnionOfConcat(Images(f, s[..|s| - 1]), [last]);
    assert Union([last]) == last + Union([last][1..]);
  }

  lemma {:induction false} UnionPermutes<T(!new)>(s: seq<multiset<T>>, t: seq<multiset<T>>)
    requires multiset(s) == multiset(t)
    ensures Union(s) == Union(t)
    decreases s
  {
    assert |s| == |multiset(s)| == |multiset(t)| == |t|;
    if s != [] {
      assert s == [s[0]] + s[1..];
      var k := Without(t, s[0]);
      UnionPermutes(s[1..], t[..k] + t[k + 1..]);
      UnionOfConcat(t[..k], t[k + 1..]);
      UnionOfConcat(t[..k], t[k..]);
      assert t == t[..k] + t[k..] && t[k..][1..] == t[k + 1..];
    }
  }

  lemma SameMembers<T(!new)>(s: seq<T>, t: seq<T>)
    requires multiset(s) == multiset(t)
    ensures |s| == |t| && forall x :: x in s <==> x in t
  {
    assert |s| == |multiset(s)| == |multiset(t)| == |t|;
    assert forall x :: x in s <==> x in multiset(s);
    assert forall x :: x in t <==> x in multiset(t);
  }

  lemma {:induction false} DistinctIsOnce<T(!new)>(s: seq<T>)
    ensures Distinct(s) <==> forall x :: multiset(s)[x] <= 1
  {
    if s != [] {
      var rest, last := s[..|s| - 1], s[|s| - 1];
      assert s == rest + [last];
      DistinctIsOnce(rest);
      DistinctSnoc(rest, last);
      assert multiset(s) == multiset(rest) + multiset{last};
      assert last in rest <==> multiset(rest)[last] > 0;
      if Distinct(s) {
        assert forall x :: multiset(s)[x] == multiset(rest)[x] + if x == last then 1 else 0;
      } else if Distinct(rest) {
        assert multiset(s)[last] > 1;
      } else {
        var x :| multiset(rest)[x] > 1;
        assert multiset(s)[x] > 1;
      }
    }
  }

  lemma DistinctPermutes<T(!new)>(s: seq<T>, t: seq<T>)
    requires multiset(s) == multiset(t)
    ensures Distinct(s) == Distinct(t)
  {
    DistinctIsOnce(s);
    DistinctIsOnce(t);
  }

  // ----- inputs up to order -----

  /** A user with identities in no particular order. */
  datatype Bag = Bag(id: string, email: string, emailVerified: bool, passwordHash: string, blocked: bool,
                     identities: multiset<ProviderIdentity>)

  ghost function BagOf(u: User): Bag {
    Bag(u.id, u.email, u.emailVerified, u.passwordHash, u.blocked, multiset(u.identities))
  }

  ghost function Bags(users: seq<User>): seq<Bag> {
    seq(|users|, i requires 0 <= i < |users| => BagOf(users[i]))
  }

  /** The users are the same, in any order, each with the same identities in any order. */
  ghost predicate SameUsers(us: seq<User>, vs: seq<User>) {
    multiset(Bags(us)) == multiset(Bags(vs))
  }

  lemma UserHasTwin(us: seq<User>, vs: seq<User>, u: User) returns (v: User)
    requires SameUsers(us, vs) && u in us
    ensures v in vs && BagOf(v) == BagOf(u)
  {
    var i :| 0 <= i < |us| && us[i] == u;
    assert Bags(us)[i] == BagOf(u) && Bags(us)[i] in Bags(us);
    SameMembers(Bags(us), Bags(vs));
    var j :| 0 <= j < |vs| && Bags(vs)[j] == BagOf(u);
    v := vs[j];
  }

  lemma {:induction false} IdentitiesAreUnion(users: seq<User>)
    ensures multiset(AllIdentities(users)) == Union(Images((b: Bag) => b.identities, Bags(users)))
  {
    if users != [] {
      IdentitiesAreUnion(users[..|users| - 1]);
      assert Bags(users)[..|users| - 1] == Bags(users[..|users| - 1]);
      UnionOfImages((b: Bag) => b.identities, Bags(users));
    }
  }

  lemma SameIdentities(us: seq<User>, vs: seq<User>)
    requires SameUsers(us, vs)
    ensures multiset(AllIdentities(us)) == multiset(AllIdentities(vs))
  {
    IdentitiesAreUnion(us);
    IdentitiesAreUnion(vs);
    ImagesPermute((b: Bag) => b.identities, Bags(us), Bags(vs));
    UnionPermutes(Images((b: Bag) => b.identities, Bags(us)), Images((b: Bag) => b.identities, Bags(vs)));
  }

  lemma SameKeys(s: seq<ProviderIdentity>, t: seq<ProviderIdentity>)
    requires multiset(s) == multiset(t)
    ensures Distinct(Keys(s)) == Distinct(Keys(t))
  {
    ImagesPermute(IdentityKey, s, t);
    assert Images(IdentityKey, s) == Keys(s) && Images(IdentityKey, t) == Keys(t);
    DistinctPermutes(Keys(s), Keys(t));
  }

  lemma SameIds(us: seq<User>, vs: seq<User>)
    requires SameUsers(us, vs)
    ensures |us| == |vs| && Distinct(UserIds(us)) == Distinct(UserIds(vs))
  {
    ImagesPermute((b: Bag) => b.id, Bags(us), Bags(vs));
    assert Images((b: Bag) => b.id, Bags(us)) == UserIds(us);
    assert Images((b: Bag) => b.id, Bags(vs)) == UserIds(vs);
    DistinctPermutes(UserIds(us), UserIds(vs));
    SameMembers(Bags(us), Bags(vs));
  }

  lemma GoodUsersPermute(us: seq<User>, vs: seq<User>)
    requires SameUsers(us, vs) && GoodUsers(us)
    ensures GoodUsers(vs)
  {
    SameIds(us, vs);
    SameIdentities(us, vs);
    SameKeys(AllIdentities(us), AllIdentities(vs));
    SameMembers(AllIdentities(us), AllIdentities(vs));
    forall v | v in vs
      ensures v.id != "" && v.identities != []
    {
      var u := UserHasTwin(vs, us, v);
      assert |multiset(u.identities)| == |u.identities| && |multiset(v.identities)| == |v.identities|;
    }
  }

  lemma GoodCandidatesPermute(cs: seq<Candidate>, ds: seq<Candidate>)
    requires multiset(cs) == multiset(ds)
    ensures GoodCandidates(cs) == GoodCandidates(ds)
  {
    SameMembers(cs, ds);
    ImagesPermute((c: Candidate) => c.appUser, cs, ds);
    assert Images((c: Candidate) => c.appUser, cs) == AppUsers(cs);
    assert Images((c: Candidate) => c.appUser, ds) == AppUsers(ds);
    DistinctPermutes(AppUsers(cs), AppUsers(ds));
  }

  lemma HasUserPermutes(us: seq<User>, vs: seq<User>, id: string, blocked: bool)
    requires SameUsers(us, vs) && HasUser(us, id, blocked)
    ensures HasUser(vs, id, blocked)
  {
    var u :| u in us && u.id == id && u.blocked == blocked;
    var v := UserHasTwin(us, vs, u);
  }

  lemma GoodResolutionsPermute(rs: seq<Resolution>, qs: seq<Resolution>, us: seq<User>, vs: seq<User>,
                               cs: seq<Candidate>, ds: seq<Candidate>)
    requires SameUsers(us, vs) && multiset(cs) == multiset(ds) && multiset(rs) == multiset(qs)
    requires GoodResolutions(rs, us, cs)
    ensures GoodResolutions(qs, vs, ds)
  {
    SameMembers(rs, qs);
    SameMembers(cs, ds);
    ImagesPermute((r: Resolution) => r.auth0User, rs, qs);
    assert Images((r: Resolution) => r.auth0User, rs) == ResolvedIds(rs);
    assert Images((r: Resolution) => r.auth0User, qs) == ResolvedIds(qs);
    DistinctPermutes(ResolvedIds(rs), ResolvedIds(qs));
    forall r | r in qs
      ensures GoodResolution(r, vs, ds)
    {
      HasUserPermutes(us, vs, r.auth0User, false);
    }
  }

  /** Whether the inputs are accepted does not depend on their order. */
  lemma AcceptsPermutes(us: seq<User>, vs: seq<User>, cs: seq<Candidate>, ds: seq<Candidate>,
                        rs: seq<Resolution>, qs: seq<Resolution>)
    requires SameUsers(us, vs) && multiset(cs) == multiset(ds) && multiset(rs) == multiset(qs)
    requires Accepts(us, cs, rs)
    ensures Accepts(vs, ds, qs)
  {
    GoodUsersPermute(us, vs);
    GoodCandidatesPermute(cs, ds);
    GoodResolutionsPermute(rs, qs, us, vs, cs, ds);
  }

  // ----- items up to order -----

  ghost function Matching(email: string): Candidate -> multiset<string> {
    (c: Candidate) => if NormalizeEmail(c.email) == email then multiset{c.appUser} else multiset{}
  }

  lemma {:induction false} CandidatesAreUnion(candidates: seq<Candidate>, email: string)
    ensures multiset(CandidatesFor(candidates, email)) == Union(Images(Matching(email), candidates))
  {
    if candidates != [] {
      CandidatesAreUnion(candidates[..|candidates| - 1], email);
      UnionOfImages(Matching(email), candidates);
    }
  }

  lemma AdvisoryPermutes(cs: seq<Candidate>, ds: seq<Candidate>, email: string)
    requires multiset(cs) == multiset(ds)
    ensures Advisory(cs, email) == Advisory(ds, email)
  {
    var e := NormalizeEmail(email);
    CandidatesAreUnion(cs, e);
    CandidatesAreUnion(ds, e);
    ImagesPermute(Matching(e), cs, ds);
    UnionPermutes(Images(Matching(e), cs), Images(Matching(e), ds));
    SortOfPermutation(CandidatesFor(cs, e), CandidatesFor(ds, e), Itself);
  }

  lemma {:induction false} MappedIsExplicit(rs: seq<Resolution>, user: string, app: string)
    requires Distinct(ResolvedIds(rs))
    ensures user in Mapped(rs) && Mapped(rs)[user] == app <==> Resolution(user, app) in rs
  {
    if rs != [] {
      var rest, last := rs[..|rs| - 1], rs[|rs| - 1];
      assert rs == rest + [last] && ResolvedIds(rs) == ResolvedIds(rest) + [last.auth0User];
      DistinctSnoc(ResolvedIds(rest), last.auth0User);
      MappedIsExplicit(rest, user, app);
      if Resolution(user, app) in rest {
        var i :| 0 <= i < |rest| && rest[i] == Resolution(user, app);
        assert ResolvedIds(rest)[i] == user;
      }
    }
  }

  lemma ResolutionPermutes(rs: seq<Resolution>, qs: seq<Resolution>, user: string)
    requires multiset(rs) == multiset(qs) && Distinct(ResolvedIds(rs)) && Distinct(ResolvedIds(qs))
    ensures ResolutionOf(rs, user) == ResolutionOf(qs, user)
  {
    SameMembers(rs, qs);
    if user in Mapped(rs) {
      MappedIsExplicit(rs, user, Mapped(rs)[user]);
      MappedIsExplicit(qs, user, Mapped(rs)[user]);
    }
    if user in Mapped(qs) {
      MappedIsExplicit(rs, user, Mapped(qs)[user]);
      MappedIsExplicit(qs, user, Mapped(qs)[user]);
    }
  }

  lemma {:induction false} PartOfAll(users: seq<User>, u: User)
    requires u in users
    ensures forall x | x in u.identities :: x in AllIdentities(users)
  {
    var rest, last := users[..|users| - 1], users[|users| - 1];
    assert users == rest + [last];
    if u in rest {
      PartOfAll(rest, u);
    }
  }

  lemma DistinctKeysTellApart(s: seq<ProviderIdentity>)
    requires Distinct(Keys(s))
    ensures KeysTellApart(s, IdentityKey)
  {
    forall x, y | x in s && y in s && IdentityKey(x) == IdentityKey(y)
      ensures x == y
    {
      var i :| 0 <= i < |s| && s[i] == x;
      var j :| 0 <= j < |s| && s[j] == y;
      assert Keys(s)[i] == IdentityKey(x) && Keys(s)[j] == IdentityKey(y);
    }
  }

  lemma SameItem(us: seq<User>, u: User, v: User, cs: seq<Candidate>, ds: seq<Candidate>,
                 rs: seq<Resolution>, qs: seq<Resolution>, compatible: string -> bool)
    requires GoodUsers(us) && u in us && BagOf(u) == BagOf(v)
    requires multiset(cs) == multiset(ds) && multiset(rs) == multiset(qs)
    requires Distinct(ResolvedIds(rs)) && Distinct(ResolvedIds(qs))
    ensures ItemOf(u, cs, rs, compatible) == ItemOf(v, ds, qs, compatible)
  {
    PartOfAll(us, u);
    DistinctKeysTellApart(AllIdentities(us));
    SortOfPermutation(u.identities, v.identities, IdentityKey);
    AdvisoryPermutes(cs, ds, u.email);
    ResolutionPermutes(rs, qs, u.id);
  }

  /** The item of a bag: the item of whichever listed user it is the bag of. */
  ghost function ItemOfBag(us: seq<User>, cs: seq<Candidate>, rs: seq<Resolution>,
                           compatible: string -> bool): Bag -> Item
  {
    (b: Bag) =>
      if exists u :: u in us && BagOf(u) == b
      then (var u :| u in us && BagOf(u) == b; ItemOf(u, cs, rs, compatible))
                else ItemWith(User("", "", false, "", false, []), [], "", compatible)
  }

  lemma ItemsAreImages(us: seq<User>, vs: seq<User>, cs: seq<Candidate>, ds: seq<Candidate>,
                       rs: seq<Resolution>, qs: seq<Resolution>, compatible: string -> bool)
    requires SameUsers(us, vs) && multiset(cs) == multiset(ds) && multiset(rs) == multiset(qs)
    requires GoodUsers(us) && Distinct(ResolvedIds(rs)) && Distinct(ResolvedIds(qs))
    ensures ItemsOf(vs, ds, qs, compatible) == Images(ItemOfBag(us, cs, rs, compatible), Bags(vs))
  {
    var f := ItemOfBag(us, cs, rs, compatible);
    forall i | 0 <= i < |vs|
      ensures f(BagOf(vs[i])) == ItemOf(vs[i], ds, qs, compatible)
    {
      var twin := UserHasTwin(vs, us, vs[i]);
      var u :| u in us && BagOf(u) == BagOf(vs[i]) && f(BagOf(vs[i])) == ItemOf(u, cs, rs, compatible);
      SameItem(us, u, vs[i], cs, ds, rs, qs, compatible);
    }
  }

  lemma ItemsPermute(us: seq<User>, vs: seq<User>, cs: seq<Candidate>, ds: seq<Candidate>,
                     rs: seq<Resolution>, qs: seq<Resolution>, compatible: string -> bool)
    requires SameUsers(us, vs) && multiset(cs) == multiset(ds) && multiset(rs) == multiset(qs)
    requires GoodUsers(us) && Distinct(ResolvedIds(rs)) && Distinct(ResolvedIds(qs))
    ensures Sort(ItemsOf(us, cs, rs, compatible), ItemKey) == Sort(ItemsOf(vs, ds, qs, compatible), ItemKey)
  {
    var f := ItemOfBag(us, cs, rs, compatible);
    ItemsAreImages(us, us, cs, cs, rs, rs, compatible);
    ItemsAreImages(us, vs, cs, ds, rs, qs, compatible);
    ImagesPermute(f, Bags(us), Bags(vs));
    ItemIdsTellApart(us, cs, rs, compatible);
    SortOfPermutation(ItemsOf(us, cs, rs, compatible), ItemsOf(vs, ds, qs, compatible), ItemKey);
  }

  lemma SameIdSameUser(users: seq<User>, i: nat, j: nat)
    requires Distinct(UserIds(users)) && i < |users| && j < |users| && users[i].id == users[j].id
    ensures i == j
  {
    assert UserIds(users)[i] == UserIds(users)[j];
  }

  lemma ItemIdsTellApart(us: seq<User>, cs: seq<Candidate>, rs: seq<Resolution>, compatible: string -> bool)
    requires Distinct(UserIds(us))
    ensures KeysTellApart(ItemsOf(us, cs, rs, compatible), ItemKey)
  {
    var items := ItemsOf(us, cs, rs, compatible);
    forall i, j | 0 <= i < |items| && 0 <= j < |items| && ItemKey(items[i]) == ItemKey(items[j])
      ensures i == j
    {
      SameIdSameUser(us, i, j);
    }
  }

  /** Reordering users, their identities, candidates and resolutions yields an equal plan, or none alike. */
  lemma PlanIgnoresOrder(us: seq<User>, vs: seq<User>, cs: seq<Candidate>, ds: seq<Candidate>,
                         rs: seq<Resolution>, qs: seq<Resolution>, now: int, compatible: string -> bool)
    requires SameUsers(us, vs) && multiset(cs) == multiset(ds) && multiset(rs) == multiset(qs)
    ensures PlanOf(us, cs, rs, now, compatible) == PlanOf(vs, ds, qs, now, compatible)
  {
    if Accepts(us, cs, rs) {
      AcceptsPermutes(us, vs, cs, ds, rs, qs);
      ItemsPermute(us, vs, cs, ds, rs, qs, compatible);
      SameIdentities(us, vs);
      DistinctKeysTellApart(AllIdentities(us));
      SortOfPermutation(AllIdentities(us), AllIdentities(vs), IdentityKey);
      SameIds(us, vs);
      SameMembers(cs, ds);
      SameMembers(rs, qs);
    } else if Accepts(vs, ds, qs) {
      AcceptsPermutes(vs, us, ds, cs, qs, rs);
      assert false;
    }
  }

  // ----- binding -----

  function Never(hash: string): bool {
    false
  }

  /** The approved plan is intact and the inputs reproduce it at its own time, with no hash compatible. */
  method VerifyAuth0PlanBinding(plan: Plan, users: seq<User>, candidates: seq<Candidate>, resolutions: seq<Resolution>)
    returns (ok: bool)
    ensures ok <==> PlanOf(users, candidates, resolutions, plan.content.createdAt, Never) == Some(plan)
  {
    if plan.checksum != Some(plan.content) {
      return false;
    }
    var recomputed := PlanAuth0Import(users, candidates, resolutions, plan.content.createdAt, Never);
    if recomputed.None? {
      return false;
    }
    return recomputed.value.checksum == plan.checksum;
  }

  /** A plan made from some inputs is bound to every reordering of them. */
  lemma BindingAcceptsReordering(plan: Plan, us: seq<User>, vs: seq<User>, cs: seq<Candidate>, ds: seq<Candidate>,
                                 rs: seq<Resolution>, qs: seq<Resolution>)
    requires SameUsers(us, vs) && multiset(cs) == multiset(ds) && multiset(rs) == multiset(qs)
    ensures PlanOf(us, cs, rs, plan.content.createdAt, Never) == Some(plan) <==>
            PlanOf(vs, ds, qs, plan.content.createdAt, Never) == Some(plan)
  {
    PlanIgnoresOrder(us, vs, cs, ds, rs, qs, plan.content.createdAt, Never);
  }

  // ----- what is linked -----

  /** Every user has one item; it is resolved exactly as an explicit resolution says, never by e-mail. */
  lemma LinksAreExplicit(users: seq<User>, candidates: seq<Candidate>, resolutions: seq<Resolution>, now: int,
                         compatible: string -> bool, u: User)
    requires Accepts(users, candidates, resolutions) && u in users
    ensures var items := PlanOf(users, candidates, resolutions, now, compatible).value.content.items;
            && multiset(items) == multiset(ItemsOf(users, candidates, resolutions, compatible))
            && var item := ItemOf(u, candidates, resolutions, compatible);
               && item in items && item.auth0User == u.id
               && (item.status == RequiresResolution <==> item.resolvedAppUser == "")
               && (forall app | app != "" :: item.resolvedAppUser == app <==> Resolution(u.id, app) in resolutions)
               && multiset(item.identities) == multiset(u.identities)
  {
    var items, item :=
      ItemsOf(users, candidates, resolutions, compatible), ItemOf(u, candidates, resolutions, compatible);
    SortSorts(items, ItemKey);
    SortSorts(u.identities, IdentityKey);
    var i :| 0 <= i < |users| && users[i] == u;
    assert items[i] == item;
    assert item in multiset(Sort(items, ItemKey));
    forall app | app != ""
      ensures item.resolvedAppUser == app <==> Resolution(u.id, app) in resolutions
    {
      MappedIsExplicit(resolutions, u.id, app);
      if u.blocked && Resolution(u.id, app) in resolutions {
        BlockedNeverResolved(users, candidates, resolutions, u, app);
      }
    }
  }

  lemma BlockedNeverResolved(users: seq<User>, candidates: seq<Candidate>, resolutions: seq<Resolution>, u: User,
                             app: string)
    requires Accepts(users, candidates, resolutions) && u in users && u.blocked
    ensures Resolution(u.id, app) !in resolutions
  {
    if Resolution(u.id, app) in resolutions {
      assert GoodResolution(Resolution(u.id, app), users, candidates);
      var v :| v in users && v.id == u.id && !v.blocked;
      var i :| 0 <= i < |users| && users[i] == u;
      var j :| 0 <= j < |users| && users[j] == v;
      SameIdSameUser(users, i, j);
    }
  }
}
