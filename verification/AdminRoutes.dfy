/** Which admin policy governs a path, and who may open it. */
module AdminRoutes {
  import opened Wrappers

  /** `exactRole` is empty when the policy names no role. */
  datatype Policy = Policy(
    id: string,
    href: string,
    exact: bool,
    requiredAny: seq<string>,
    requiredAll: seq<string>,
    exactRole: string,
    staffFallback: bool)

  type Table = seq<Policy>

  // ---------------------------------------------------------------- paths

  /** The part before the first `?` or `#`. */
  function BeforeQuery(path: string): string {
    if path == [] || path[0] == '?' || path[0] == '#' then [] else [path[0]] + BeforeQuery(path[1..])
  }

  function StripSlashes(path: string): string {
    if path != [] && path[|path| - 1] == '/' then StripSlashes(path[..|path| - 1]) else path
  }

  function Normalized(pathname: string): string {
    var bare := BeforeQuery(pathname);
    var path := if bare == [] then "/" else bare;
    if |path| > 1 then StripSlashes(path) else path
  }

  predicate Matches(policy: Policy, path: string) {
    path == policy.href || (!policy.exact && policy.href + "/" <= path)
  }

  // ---------------------------------------------------------------- resolution

  /** The sort's comparator: exact policies first, then the longer href. */
  function Compare(left: Policy, right: Policy): int {
    if left.exact != right.exact then (if left.exact then -1 else 1) else |right.href| - |left.href|
  }

  function Matching(table: Table, path: string): Table {
    if table == [] then []
    else if Matches(table[0], path) then [table[0]] + Matching(table[1..], path)
    else Matching(table[1..], path)
  }

  function Insert(p: Policy, sorted: Table): Table {
    if sorted == [] || Compare(p, sorted[0]) <= 0 then [p] + sorted
    else [sorted[0]] + Insert(p, sorted[1..])
  }

  /** A stable sort by the comparator. */
  function Sort(table: Table): Table {
    if table == [] then [] else Insert(table[0], Sort(table[1..]))
  }

  function Resolve(table: Table, pathname: string): Option<Policy> {
    var sorted := Sort(Matching(table, Normalized(pathname)));
    if sorted == [] then None else Some(sorted[0])
  }

  predicate IsActive(table: Table, policy: Policy, pathname: string) {
    Resolve(table, pathname).Some? && Resolve(table, pathname).value.id == policy.id
  }

  lemma {:induction false} MatchingIs(table: Table, path: string, p: Policy)
    ensures p in Matching(table, path) <==> p in table && Matches(p, path)
  {
    if table == [] {
    } else {
      MatchingIs(table[1..], path, p);
    }
  }

  ghost predicate LeadsAll(sorted: Table) {
    forall i, j :: 0 <= i < j < |sorted| ==> Compare(sorted[i], sorted[j]) <= 0
  }

  lemma {:induction false} InsertKeeps(p: Policy, sorted: Table)
    requires LeadsAll(sorted)
    ensures LeadsAll(Insert(p, sorted))
    ensures forall q :: q in Insert(p, sorted) <==> q == p || q in sorted
  {
    if sorted == [] || Compare(p, sorted[0]) <= 0 {
    } else {
      InsertKeeps(p, sorted[1..]);
      var tail := Insert(p, sorted[1..]);
      forall j | 0 <= j < |tail| ensures Compare(sorted[0], tail[j]) <= 0 { assert tail[j] in tail; }
    }
  }

  lemma {:induction false} SortKeeps(table: Table)
    ensures LeadsAll(Sort(table))
    ensures forall q :: q in Sort(table) <==> q in table
  {
    if table == [] {
    } else {
      SortKeeps(table[1..]);
      InsertKeeps(table[0], Sort(table[1..]));
    }
  }

  ghost predicate DistinctHrefs(table: Table) {
    forall i, j :: 0 <= i < j < |table| ==> table[i].href != table[j].href
  }

  /** `p` governs the path: it matches, and any other policy that matches is a shorter prefix. */
  ghost predicate Governs(table: Table, path: string, p: Policy) {
    && p in table
    && Matches(p, path)
    && forall q :: q in table && q != p && Matches(q, path) ==> !q.exact && |q.href| < |p.href|
  }

  lemma SameLengthSameHref(p: Policy, q: Policy, path: string)
    requires Matches(p, path) && Matches(q, path) && |p.href| == |q.href|
    ensures p.href == q.href
  {
    assert path[..|p.href|] == p.href && path[..|q.href|] == q.href;
  }

  lemma SameHrefSamePolicy(table: Table, p: Policy, q: Policy)
    requires DistinctHrefs(table) && p in table && q in table && p.href == q.href
    ensures p == q
  {
    var i :| 0 <= i < |table| && table[i] == p;
    var j :| 0 <= j < |table| && table[j] == q;
  }

  /** Filter, sort and take the first, or read off the only policy that governs: the same. */
  lemma ResolveGoverns(table: Table, pathname: string)
    requires DistinctHrefs(table)
    ensures Resolve(table, pathname).None? <==> forall p :: p in table ==> !Matches(p, Normalized(pathname))
    ensures forall p :: Resolve(table, pathname) == Some(p) <==> Governs(table, Normalized(pathname), p)
  {
    hide Normalized, Matches;
    var path := Normalized(pathname);
    var matching := Matching(table, path);
    SortKeeps(matching);
    forall p ensures p in matching <==> p in table && Matches(p, path) { MatchingIs(table, path, p); }
    var sorted := Sort(matching);
    if sorted == [] {
      forall p | p in table ensures !Matches(p, path) { assert p !in sorted; }
    } else {
      assert sorted[0] in sorted;
      forall q | q in table && q != sorted[0] && Matches(q, path)
        ensures !q.exact && |q.href| < |sorted[0].href|
      {
        assert q in sorted;
        assert Compare(sorted[0], q) <= 0;
        FirstIsBest(table, path, sorted[0], q);
      }
    }
  }

  lemma FirstIsBest(table: Table, path: string, first: Policy, q: Policy)
    requires DistinctHrefs(table) && first in table && q in table && q != first
    requires Matches(first, path) && Matches(q, path) && Compare(first, q) <= 0
    ensures !q.exact && |q.href| < |first.href|
  {
    if |first.href| == |q.href| {
      SameLengthSameHref(first, q, path);
      SameHrefSamePolicy(table, first, q);
    }
  }

  /** The order of the table does not matter. */
  lemma ResolveIgnoresOrder(table: Table, other: Table, pathname: string)
    requires DistinctHrefs(table) && DistinctHrefs(other)
    requires forall p :: p in table <==> p in other
    ensures Resolve(table, pathname) == Resolve(other, pathname)
  {
    hide Resolve, Matches, Normalized;
    ResolveGoverns(table, pathname);
    ResolveGoverns(other, pathname);
    if Resolve(table, pathname).Some? {
      assert Governs(table, Normalized(pathname), Resolve(table, pathname).value);
      assert Governs(other, Normalized(pathname), Resolve(table, pathname).value);
    }
  }

  // ---------------------------------------------------------------- well-formed tables

  predicate PlainHref(href: string) {
    && |href| > 1
    && href[0] == '/'
    && href[|href| - 1] != '/'
    && forall i :: 0 <= i < |href| ==> href[i] != '?' && href[i] != '#'
  }

  ghost predicate WellFormed(table: Table) {
    && DistinctHrefs(table)
    && (forall i, j :: 0 <= i < j < |table| ==> table[i].id != table[j].id)
    && (forall p :: p in table ==> PlainHref(p.href))
  }

  lemma {:induction false} BeforeQueryOf(path: string, rest: string)
    requires forall i :: 0 <= i < |path| ==> path[i] != '?' && path[i] != '#'
    ensures BeforeQuery(path + rest) == path + BeforeQuery(rest)
  {
    if path == [] {
      assert path + rest == rest;
    } else {
      BeforeQueryOf(path[1..], rest);
      assert (path + rest)[1..] == path[1..] + rest;
    }
  }

  /** Every policy's own href resolves back to that policy. */
  lemma EveryHrefResolvesToItself(table: Table, p: Policy)
    requires WellFormed(table) && p in table
    ensures Resolve(table, p.href) == Some(p)
  {
    hide Resolve;
    assert Normalized(p.href) == p.href by {
      BeforeQueryOf(p.href, "");
      assert p.href + "" == p.href;
    }
    ResolveGoverns(table, p.href);
    forall q | q in table && q != p && Matches(q, p.href) ensures !q.exact && |q.href| < |p.href| {
      if q.href == p.href { SameHrefSamePolicy(table, p, q); }
    }
    assert Governs(table, p.href, p);
  }

  lemma {:induction false} BeforeQueryStops(path: string, mark: char, rest: string)
    requires mark in {'?', '#'}
    ensures BeforeQuery(path + [mark] + rest) == BeforeQuery(path)
  {
    var whole := path + [mark] + rest;
    if path == [] || path[0] == '?' || path[0] == '#' {
    } else {
      BeforeQueryStops(path[1..], mark, rest);
      assert whole[1..] == path[1..] + [mark] + rest;
    }
  }

  lemma {:induction false} BeforeQuerySlash(path: string)
    ensures BeforeQuery(path + "/") == BeforeQuery(path) || BeforeQuery(path + "/") == BeforeQuery(path) + "/"
  {
    if path == [] || path[0] == '?' || path[0] == '#' {
    } else {
      BeforeQuerySlash(path[1..]);
      assert (path + "/")[1..] == path[1..] + "/";
      assert [path[0]] + (BeforeQuery(path[1..]) + "/") == BeforeQuery(path) + "/";
    }
  }

  lemma StripOneSlash(path: string)
    ensures StripSlashes(path + "/") == StripSlashes(path)
  {
    assert (path + "/")[..|path|] == path;
  }

  lemma StripNothing(path: string)
    requires path != [] && path[|path| - 1] != '/'
    ensures StripSlashes(path) == path
  {
  }

  /** A trailing slash changes a normalised path only between the two that no policy matches. */
  lemma SlashNormalizes(bare: string)
    requires bare != ""
    ensures StripSlashes(bare + "/") == (if |bare| > 1 then StripSlashes(bare) else if bare == "/" then "" else bare)
  {
    hide StripSlashes;
    StripOneSlash(bare);
    if |bare| == 1 {
      if bare == "/" { StripOneSlash(""); EmptyStrips(); } else { StripNothing(bare); }
    }
  }

  lemma EmptyStrips()
    ensures StripSlashes("") == "" && "" + "/" == "/"
  {
  }

  lemma TrailingSlash(pathname: string)
    ensures var a, b := Normalized(pathname + "/"), Normalized(pathname);
            a == b || (a in {"", "/"} && b in {"", "/"})
  {
    hide StripSlashes, BeforeQuery;
    BeforeQuerySlash(pathname);
    var bare := BeforeQuery(pathname);
    if bare != "" { SlashNormalizes(bare); }
  }

  lemma ShortPathsMatchNothing(p: Policy, path: string)
    requires PlainHref(p.href) && path in {"", "/"}
    ensures !Matches(p, path)
  {
  }

  /** Paths that normalise alike, or to paths that no policy matches, resolve alike. */
  lemma SameNormalized(table: Table, a: string, b: string)
    requires WellFormed(table)
    requires var x, y := Normalized(a), Normalized(b); x == y || (x in {"", "/"} && y in {"", "/"})
    ensures Resolve(table, a) == Resolve(table, b)
  {
    hide Matches, PlainHref, Sort, Matching, Normalized;
    if Normalized(a) != Normalized(b) {
      hide Resolve;
      forall p | p in table ensures !Matches(p, Normalized(a)) && !Matches(p, Normalized(b)) {
        ShortPathsMatchNothing(p, Normalized(a));
        ShortPathsMatchNothing(p, Normalized(b));
      }
      ResolveGoverns(table, a);
      ResolveGoverns(table, b);
    }
  }

  /** Queries, fragments and trailing slashes do not change the answer. */
  lemma ResolveIgnoresDecoration(table: Table, pathname: string, mark: char, rest: string)
    requires WellFormed(table) && mark in {'?', '#'}
    ensures Resolve(table, pathname + [mark] + rest) == Resolve(table, pathname)
    ensures Resolve(table, pathname + "/") == Resolve(table, pathname)
  {
    hide Resolve, StripSlashes, BeforeQuery, Matches, PlainHref, WellFormed;
    BeforeQueryStops(pathname, mark, rest);
    SameNormalized(table, pathname + [mark] + rest, pathname);
    TrailingSlash(pathname);
    SameNormalized(table, pathname + "/", pathname);
  }

  // ---------------------------------------------------------------- what resolves to what

  /** The path is the href, or goes on from it after a slash. */
  predicate Extends(path: string, href: string) {
    path == href || (|path| > |href| && path[..|href|] == href && path[|href|] == '/')
  }

  /** A path as it is, without query, fragment or trailing slash. */
  predicate PlainPath(path: string) {
    && |path| > 1 && path[|path| - 1] != '/'
    && forall i :: 0 <= i < |path| ==> path[i] != '?' && path[i] != '#'
  }

  lemma PlainStays(path: string)
    requires PlainPath(path)
    ensures Normalized(path) == path
  {
    BeforeQueryOf(path, "");
    assert path + "" == path;
  }

  lemma MatchesExtends(p: Policy, path: string)
    ensures Matches(p, path) <==> Extends(path, p.href) && (p.exact ==> path == p.href)
  {
    if p.href + "/" <= path { assert path[..|p.href|] == p.href && path[|p.href|] == '/'; }
    if Extends(path, p.href) && path != p.href {
      assert path[..|p.href| + 1] == path[..|p.href|] + [path[|p.href|]];
    }
  }

  /** A plain path resolves to the longest href that it is or goes on from, exact hrefs counting only for
      themselves; to none exactly when it goes on from no such href. */
  lemma PlainPathResolves(table: Table, path: string)
    requires WellFormed(table) && PlainPath(path)
    ensures var answer := Resolve(table, path);
            && (answer.None? <==> forall p :: p in table ==> !(Extends(path, p.href) && (p.exact ==> path == p.href)))
            && forall q :: answer == Some(q) ==>
                 && q in table && Extends(path, q.href) && (q.exact ==> path == q.href)
                 && forall p :: p in table && Extends(path, p.href) && (p.exact ==> path == p.href)
                      ==> |p.href| <= |q.href|
  {
    hide Resolve, Matches, Extends, PlainHref, PlainPath;
    PlainStays(path);
    ResolveGoverns(table, path);
    forall p ensures Matches(p, path) <==> Extends(path, p.href) && (p.exact ==> path == p.href) {
      MatchesExtends(p, path);
    }
    forall q | Resolve(table, path) == Some(q) ensures Governs(table, path, q) {}
  }

  /** An exact policy answers only for its own href, however decorated. */
  lemma ExactOnlyAtItself(table: Table, pathname: string, q: Policy)
    requires WellFormed(table) && Resolve(table, pathname) == Some(q) && q.exact
    ensures Normalized(pathname) == q.href
  {
    hide Resolve, Normalized;
    ResolveGoverns(table, pathname);
    assert Governs(table, Normalized(pathname), q);
  }

  /** A page below a prefix policy's href resolves: to its own policy, or to a prefix policy at least as
      long. */
  lemma PagesBelowResolve(table: Table, p: Policy, rest: string)
    requires WellFormed(table) && p in table && !p.exact
    requires rest != "" && rest[|rest| - 1] != '/' && forall i :: 0 <= i < |rest| ==> rest[i] != '?' && rest[i] != '#'
    ensures var path := p.href + "/" + rest;
            var answer := Resolve(table, path);
            && answer.Some?
            && Extends(path, answer.value.href)
            && |answer.value.href| >= |p.href|
            && (answer.value.exact ==> answer.value.href == path)
  {
    hide Resolve;
    var path := p.href + "/" + rest;
    assert path[..|p.href|] == p.href && path[|p.href|] == '/' && path[|path| - 1] == rest[|rest| - 1];
    forall i | 0 <= i < |path| ensures path[i] != '?' && path[i] != '#' {
      if i > |p.href| { assert path[i] == rest[i - |p.href| - 1]; }
    }
    PlainPathResolves(table, path);
  }

  /** At most one policy is active on any path, and one is exactly when the path resolves. */
  lemma AtMostOneActive(table: Table, pathname: string)
    requires WellFormed(table)
    ensures forall p, q :: p in table && IsActive(table, p, pathname)
                           ==> (q in table && IsActive(table, q, pathname) ==> p == q)
    ensures Resolve(table, pathname).Some? <==> exists p :: p in table && IsActive(table, p, pathname)
  {
    hide Resolve, Matches, PlainHref;
    ResolveGoverns(table, pathname);
    forall p, q | p in table && IsActive(table, p, pathname) && q in table && IsActive(table, q, pathname)
      ensures p == q
    {
      var i :| 0 <= i < |table| && table[i] == p;
      var j :| 0 <= j < |table| && table[j] == q;
    }
    if Resolve(table, pathname).Some? {
      var p := Resolve(table, pathname).value;
      assert Governs(table, Normalized(pathname), p);
      assert p in table && IsActive(table, p, pathname);
    }
  }

  // ---------------------------------------------------------------- access

  datatype Principal = Principal(roleName: string, permissions: Option<set<string>>)

  const SUPER_ADMIN := "Super Admin"
  const STAFF_ROLES: set<string> := {"Lawyer", "Secretary", "Office Admin", "Marketing Staff", "Super Admin"}

  /** `defaults` gives each role's configured permissions. */
  predicate HasPermission(defaults: string -> set<string>, principal: Principal, permission: string) {
    principal.roleName == SUPER_ADMIN ||
    var effective := if principal.permissions.Some? then principal.permissions.value else defaults(principal.roleName);
    "*" in effective || permission in effective
  }

  predicate CanAccessRoute(defaults: string -> set<string>, principal: Principal, policy: Policy) {
    && principal.roleName in STAFF_ROLES
    && (policy.exactRole != "" ==> policy.exactRole == principal.roleName)
    && var hasRequirements := policy.requiredAny != [] || policy.requiredAll != [];
       var anyOf, allOf := policy.requiredAny, policy.requiredAll;
       var hasAny := anyOf == [] || exists i :: 0 <= i < |anyOf| && HasPermission(defaults, principal, anyOf[i]);
       var hasAll := forall i :: 0 <= i < |allOf| ==> HasPermission(defaults, principal, allOf[i]);
       hasAll && if hasRequirements then hasAny else policy.staffFallback
  }

  predicate CanAccessPath(defaults: string -> set<string>, table: Table, principal: Principal, pathname: string) {
    var policy := Resolve(table, pathname);
    policy.Some? && CanAccessRoute(defaults, principal, policy.value)
  }

  function FilterPolicies(defaults: string -> set<string>, table: Table, principal: Principal): Table {
    if table == [] then []
    else (if CanAccessRoute(defaults, principal, table[0]) then [table[0]] else [])
         + FilterPolicies(defaults, table[1..], principal)
  }

  datatype NavItem = NavItem(title: string, href: string)

  /** The dashboard shell's filter: by path. */
  function AuthorizedNavItems(
      defaults: string -> set<string>, table: Table, items: seq<NavItem>, principal: Principal): seq<NavItem>
  {
    if items == [] then []
    else (if CanAccessPath(defaults, table, principal, items[0].href) then [items[0]] else [])
         + AuthorizedNavItems(defaults, table, items[1..], principal)
  }

  /** One navigation item per policy. */
  function NavItems(policies: Table): seq<NavItem> {
    if policies == [] then [] else [NavItem(policies[0].id, policies[0].href)] + NavItems(policies[1..])
  }

  /** Filtering navigation by path shows exactly the routes that filtering by policy allows,
      for any selection of the table's policies in any order. */
  lemma {:induction false} FilteringByPathIsByPolicy(
      defaults: string -> set<string>, table: Table, shown: Table, principal: Principal)
    requires WellFormed(table) && forall p :: p in shown ==> p in table
    ensures AuthorizedNavItems(defaults, table, NavItems(shown), principal)
            == NavItems(FilterPolicies(defaults, shown, principal))
  {
    hide Resolve, CanAccessRoute, WellFormed;
    if shown == [] {
    } else {
      var p, rest := shown[0], shown[1..];
      FilteringByPathIsByPolicy(defaults, table, rest, principal);
      EveryHrefResolvesToItself(table, p);
      assert NavItems(shown)[1..] == NavItems(rest);
      var kept := FilterPolicies(defaults, rest, principal);
      assert ([p] + kept)[1..] == kept && [] + kept == kept;
    }
  }

  /** With the role fixed, more permissions never take a route or a path away. */
  lemma AccessGrowsWithPermissions(
      defaults: string -> set<string>, table: Table, role: string, few: set<string>, many: set<string>,
      policy: Policy, pathname: string)
    requires few <= many
    ensures CanAccessRoute(defaults, Principal(role, Some(few)), policy)
            ==> CanAccessRoute(defaults, Principal(role, Some(many)), policy)
    ensures CanAccessPath(defaults, table, Principal(role, Some(few)), pathname)
            ==> CanAccessPath(defaults, table, Principal(role, Some(many)), pathname)
  {
    hide Resolve;
    var a, b := Principal(role, Some(few)), Principal(role, Some(many));
    assert forall x :: HasPermission(defaults, a, x) ==> HasPermission(defaults, b, x);
    RouteGrows(defaults, a, b, policy);
    if Resolve(table, pathname).Some? { RouteGrows(defaults, a, b, Resolve(table, pathname).value); }
  }

  lemma RouteGrows(defaults: string -> set<string>, a: Principal, b: Principal, policy: Policy)
    requires a.roleName == b.roleName
    requires forall x :: HasPermission(defaults, a, x) ==> HasPermission(defaults, b, x)
    ensures CanAccessRoute(defaults, a, policy) ==> CanAccessRoute(defaults, b, policy)
  {
    hide HasPermission;
  }
}
