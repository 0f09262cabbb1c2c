/**
 * The organisations below one, and everything an organisation has
 * (src/ptv/organisationContent.ts:32-80).
 */
module OrganisationScope {
  import opened Wrappers
  import opened WorkerPool
  import Paging

  type Id = string

  datatype Organization = Organization(id: Id, parentOrganizationId: Option<Id>, name: string)

  predicate ChildIn(catalogue: seq<Organization>, parent: Id, child: Id) {
    exists k :: 0 <= k < |catalogue| && catalogue[k].id == child && catalogue[k].parentOrganizationId == Some(parent)
  }

  /** A way down the catalogue: each id has an entry under the one before it. */
  ghost predicate Descends(catalogue: seq<Organization>, path: seq<Id>) {
    path != [] && forall k :: 0 < k < |path| ==> ChildIn(catalogue, path[k - 1], path[k])
  }

  ghost predicate LeadsTo(catalogue: seq<Organization>, root: Id, path: seq<Id>, id: Id) {
    Descends(catalogue, path) && path[0] == root && path[|path| - 1] == id
  }

  /** The id is the root's or lies somewhere below it. */
  ghost predicate Below(catalogue: seq<Organization>, root: Id, id: Id) {
    exists path :: LeadsTo(catalogue, root, path, id)
  }

  lemma RootBelow(catalogue: seq<Organization>, root: Id)
    ensures Below(catalogue, root, root)
  {
    assert LeadsTo(catalogue, root, [root], root);
  }

  lemma ChildBelow(catalogue: seq<Organization>, root: Id, parent: Id, child: Id)
    requires Below(catalogue, root, parent) && ChildIn(catalogue, parent, child)
    ensures Below(catalogue, root, child)
  {
    var path :| LeadsTo(catalogue, root, path, parent);
    var longer := path + [child];
    assert longer[..|path|] == path;
    forall k | 0 < k < |longer|
      ensures ChildIn(catalogue, longer[k - 1], longer[k])
    {
      assert k < |path| ==> longer[..|path|][k - 1] == path[k - 1] && longer[..|path|][k] == path[k];
    }
    assert LeadsTo(catalogue, root, longer, child);
  }

  /** A set with the root that is closed under children has everything below the root. */
  lemma {:induction false} ClosedHasAll(catalogue: seq<Organization>, ids: set<Id>, path: seq<Id>)
    requires Descends(catalogue, path) && path[0] in ids
    requires forall p, c :: p in ids && ChildIn(catalogue, p, c) ==> c in ids
    ensures path[|path| - 1] in ids
    decreases |path|
  {
    if |path| > 1 {
      var shorter := path[..|path| - 1];
      assert forall k :: 0 <= k < |shorter| ==> shorter[k] == path[k];
      ClosedHasAll(catalogue, ids, shorter);
    }
  }

  ghost predicate Named(organizations: seq<Organization>, id: Id) {
    exists k :: 0 <= k < |organizations| && organizations[k].id == id
  }

  function Ids(organizations: seq<Organization>): set<Id> {
    if organizations == [] then {}
    else Ids(organizations[..|organizations| - 1]) + {organizations[|organizations| - 1].id}
  }

  lemma {:induction false} IdsAreNamed(organizations: seq<Organization>, id: Id)
    ensures id in Ids(organizations) <==> Named(organizations, id)
    decreases |organizations|
  {
    if organizations != [] {
      var n := |organizations| - 1;
      IdsAreNamed(organizations[..n], id);
      NamedAppended(organizations[..n], organizations[n], id);
      assert organizations == organizations[..n] + [organizations[n]];
    }
  }

  lemma NamedAppended(organizations: seq<Organization>, org: Organization, id: Id)
    ensures Named(organizations + [org], id) <==> Named(organizations, id) || org.id == id
  {
    var more := organizations + [org];
    assert more[|organizations|] == org;
    if k :| 0 <= k < |organizations| && organizations[k].id == id {
      assert more[k] == organizations[k];
    }
  }

  /** Each organisation once. */
  ghost predicate Distinct(organizations: seq<Organization>) {
    forall i, j :: 0 <= i < j < |organizations| ==> organizations[i].id != organizations[j].id
  }

  /** Each organisation but the first comes from the catalogue, after its parent. */
  ghost predicate AfterParents(catalogue: seq<Organization>, organizations: seq<Organization>) {
    forall i :: 0 < i < |organizations| ==> organizations[i] in catalogue && ParentBefore(organizations, i)
  }

  ghost predicate ParentBefore(organizations: seq<Organization>, i: nat)
    requires i < |organizations|
  {
    exists j :: 0 <= j < i && organizations[i].parentOrganizationId == Some(organizations[j].id)
  }

  ghost predicate AllBelow(catalogue: seq<Organization>, root: Id, organizations: seq<Organization>) {
    forall i :: 0 <= i < |organizations| ==> Below(catalogue, root, organizations[i].id)
  }

  /** The children of an organisation that the first entries of the catalogue name have been found. */
  ghost predicate FoundChildren(catalogue: seq<Organization>, upTo: nat, parent: Id, seen: set<Id>)
    requires upTo <= |catalogue|
  {
    forall k :: 0 <= k < upTo && catalogue[k].parentOrganizationId == Some(parent) ==> catalogue[k].id in seen
  }

  lemma {:induction false} DistinctCount(organizations: seq<Organization>)
    requires Distinct(organizations)
    ensures |Ids(organizations)| == |organizations|
    decreases |organizations|
  {
    if organizations != [] {
      var n := |organizations| - 1;
      DistinctCount(organizations[..n]);
      IdsAreNamed(organizations[..n], organizations[n].id);
    }
  }

  lemma {:induction false} CountAtMost(organizations: seq<Organization>)
    ensures |Ids(organizations)| <= |organizations|
    decreases |organizations|
  {
    if organizations != [] {
      CountAtMost(organizations[..|organizations| - 1]);
    }
  }

  lemma Fits(root: Organization, catalogue: seq<Organization>, organizations: seq<Organization>)
    requires organizations != [] && organizations[0] == root
    requires Distinct(organizations) && AfterParents(catalogue, organizations)
    ensures |organizations| <= |catalogue| + 1
  {
    hide Ids, Named;
    var all := catalogue + [root];
    DistinctCount(organizations);
    CountAtMost(all);
    forall id | id in Ids(organizations)
      ensures id in Ids(all)
    {
      IdsAreNamed(organizations, id);
      IdsAreNamed(all, id);
      NamedInCatalogue(root, catalogue, organizations, id);
    }
    SubsetNoLarger(Ids(organizations), Ids(all));
  }

  lemma NamedInCatalogue(root: Organization, catalogue: seq<Organization>, organizations: seq<Organization>, id: Id)
    requires organizations != [] && organizations[0] == root && AfterParents(catalogue, organizations)
    requires Named(organizations, id)
    ensures Named(catalogue + [root], id)
  {
    NamedAppended(catalogue, root, id);
    var k :| 0 <= k < |organizations| && organizations[k].id == id;
    if k > 0 {
      assert organizations[k] in catalogue;
      var j :| 0 <= j < |catalogue| && catalogue[j] == organizations[k];
    }
  }

  lemma FoundAfterParent(catalogue: seq<Organization>, result: seq<Organization>, i: nat, found: Organization)
    requires i < |result| && AfterParents(catalogue, result) && found in catalogue
    requires found.parentOrganizationId == Some(result[i].id)
    ensures AfterParents(catalogue, result + [found])
  {
    var more := result + [found];
    forall n | 0 < n < |more|
      ensures more[n] in catalogue && ParentBefore(more, n)
    {
      if n < |result| {
        assert more[n] == result[n] && ParentBefore(result, n);
        var j :| 0 <= j < n && result[n].parentOrganizationId == Some(result[j].id);
        assert more[j] == result[j];
      } else {
        assert more[i] == result[i];
      }
    }
  }

  lemma Found(root: Organization, catalogue: seq<Organization>, result: seq<Organization>, i: nat, k: nat)
    requires i < |result| && k < |catalogue| && Distinct(result) && AfterParents(catalogue, result)
    requires AllBelow(catalogue, root.id, result)
    requires catalogue[k].parentOrganizationId == Some(result[i].id)
    requires !Named(result, catalogue[k].id)
    ensures Distinct(result + [catalogue[k]]) && AfterParents(catalogue, result + [catalogue[k]])
    ensures AllBelow(catalogue, root.id, result + [catalogue[k]])
  {
    hide Below, AfterParents;
    FoundAfterParent(catalogue, result, i, catalogue[k]);
    assert ChildIn(catalogue, result[i].id, catalogue[k].id);
    ChildBelow(catalogue, root.id, result[i].id, catalogue[k].id);
  }

  /** The root and everything below it: each id once, exactly those reachable downwards, each after a parent. */
  method DescendantsOf(root: Organization, catalogue: seq<Organization>) returns (result: seq<Organization>)
    ensures result != [] && result[0] == root
    ensures Distinct(result) && AfterParents(catalogue, result)
    ensures forall id :: Named(result, id) <==> Below(catalogue, root.id, id)
  {
    hide Below, AfterParents, AllBelow;
    result := [root];
    var seen := {root.id};
    RootBelow(catalogue, root.id);
    assert AfterParents(catalogue, result) && AllBelow(catalogue, root.id, result) by { JustRoot(root, catalogue); }
    var i := 0;
    while i < |result|
      invariant i <= |result| && result != [] && result[0] == root
      invariant Distinct(result) && AfterParents(catalogue, result) && AllBelow(catalogue, root.id, result)
      invariant forall id :: id in seen <==> Named(result, id)
      invariant forall k :: 0 <= k < i ==> FoundChildren(catalogue, |catalogue|, result[k].id, seen)
      decreases |catalogue| + 1 - i
    {
      Fits(root, catalogue, result);
      var parent := result[i].id;
      for k := 0 to |catalogue|
        invariant i < |result| && result[i].id == parent && result[0] == root
        invariant Distinct(result) && AfterParents(catalogue, result) && AllBelow(catalogue, root.id, result)
        invariant forall id :: id in seen <==> Named(result, id)
        invariant forall k :: 0 <= k < i ==> FoundChildren(catalogue, |catalogue|, result[k].id, seen)
        invariant FoundChildren(catalogue, k, parent, seen)
      {
        var org := catalogue[k];
        if org.parentOrganizationId == Some(parent) && org.id !in seen {
          Found(root, catalogue, result, i, k);
          SeenToo(result, seen, org);
          seen := seen + {org.id};
          result := result + [org];
        }
      }
      i := i + 1;
    }
    ExactlyBelow(root, catalogue, result, seen);
  }

  lemma JustRoot(root: Organization, catalogue: seq<Organization>)
    ensures AfterParents(catalogue, [root]) && AllBelow(catalogue, root.id, [root])
  {
    RootBelow(catalogue, root.id);
  }

  lemma SeenToo(result: seq<Organization>, seen: set<Id>, org: Organization)
    requires forall id :: id in seen <==> Named(result, id)
    ensures forall id :: id in seen + {org.id} <==> Named(result + [org], id)
  {
    hide Named;
    forall id
      ensures id in seen + {org.id} <==> Named(result + [org], id)
    {
      NamedAppended(result, org, id);
    }
  }

  lemma ExactlyBelow(root: Organization, catalogue: seq<Organization>, result: seq<Organization>, seen: set<Id>)
    requires result != [] && result[0] == root && AllBelow(catalogue, root.id, result)
    requires forall id :: id in seen <==> Named(result, id)
    requires forall k :: 0 <= k < |result| ==> FoundChildren(catalogue, |catalogue|, result[k].id, seen)
    ensures forall id :: id in seen <==> Below(catalogue, root.id, id)
  {
    assert root.id in seen;
    forall p, c | p in seen && ChildIn(catalogue, p, c)
      ensures c in seen
    {
      var k :| 0 <= k < |result| && result[k].id == p;
      assert FoundChildren(catalogue, |catalogue|, result[k].id, seen);
    }
    forall id | Below(catalogue, root.id, id)
      ensures id in seen
    {
      var path :| LeadsTo(catalogue, root.id, path, id);
      ClosedHasAll(catalogue, seen, path);
    }
  }

  lemma OnlyRoot(result: seq<Organization>, catalogue: seq<Organization>)
    requires result != [] && AfterParents(catalogue, result)
    ensures catalogue == [] ==> result == [result[0]]
  {
    assert |result| > 1 ==> result[1] in catalogue;
  }

  datatype Scope = Organisations(organisations: seq<Organization>) | OrganizationNotFound

  /** An unreadable catalogue counts as empty. */
  method OrganisationsInScope(root: Option<Organization>, catalogue: Option<seq<Organization>>, includeSubOrganisations: bool)
    returns (scope: Scope)
    ensures scope.OrganizationNotFound? <==> root.None?
    ensures root.Some? && (!includeSubOrganisations || catalogue.None?) ==> scope == Organisations([root.value])
    ensures root.Some? && includeSubOrganisations && catalogue.Some? ==>
              && scope.organisations != [] && scope.organisations[0] == root.value
              && Distinct(scope.organisations) && AfterParents(catalogue.value, scope.organisations)
              && forall id :: Named(scope.organisations, id) <==> Below(catalogue.value, root.value.id, id)
  {
    if root.None? { return OrganizationNotFound; }
    if !includeSubOrganisations { return Organisations([root.value]); }
    var entries := if catalogue.Some? then catalogue.value else [];
    var result := DescendantsOf(root.value, entries);
    OnlyRoot(result, entries);
    scope := Organisations(result);
  }

  // ----- Every page of an organisation's items -----

  const PAGE_SIZE := 200

  datatype PaginatedResult<+T> = PaginatedResult(items: seq<T>, totalCount: nat)

  /** A search that answers with its pages of the items and a total that is never too low. */
  ghost predicate Searches<T(!new)>(search: nat -> PaginatedResult<T>, all: seq<T>) {
    forall page: nat :: page >= 1 ==>
      search(page).items == Paging.Window(all, (page - 1) * PAGE_SIZE, PAGE_SIZE) && search(page).totalCount >= |all|
  }

  /** The first items, up to the limit, however far the reported total is above the true one. */
  method FetchAll<T(!new)>(search: nat -> PaginatedResult<T>, limit: nat, ghost all: seq<T>) returns (items: seq<T>)
    requires Searches(search, all)
    ensures items == Paging.Window(all, 0, limit)
  {
    items := [];
    var page := 1;
    while true
      invariant page >= 1 && |items| == (page - 1) * PAGE_SIZE && items <= all
      decreases |all| - |items|
    {
      var result := search(page);
      items := items + result.items;
      if |result.items| < PAGE_SIZE || |items| >= result.totalCount || |items| >= limit {
        return items[..Min(limit, |items|)];
      }
      page := page + 1;
    }
  }
}
