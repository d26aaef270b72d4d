/** The table of admin policies, and the general results for it. */
module AdminRouteTable {
  import opened Wrappers
  import opened AdminRoutes

  const SERVICE_REQUESTS_LIST :=
    Policy("serviceRequests.list", "/admin/service-requests", false,
           ["case.read.any", "case.read.assigned"], [], "", false)
  const DASHBOARD_HOME := Policy("dashboard.home", "/admin", true, [], [], "", true)
  const CONSULTATIONS_AVAILABILITY :=
    Policy("consultations.availability", "/admin/consultation-availability", false,
           ["appointment.manage.any", "settings.manage.any"], [], "", false)
  const CONSULTATIONS_LIST :=
    Policy("consultations.list", "/admin/consultations", false,
           ["consultation.review.any", "consultation.review.assigned"], [], "", false)
  const CLIENTS_LIST :=
    Policy("clients.list", "/admin/clients", false,
           ["client.read.any", "client.read.assigned"], [], "", false)
  const MESSAGES_LIST :=
    Policy("messages.list", "/admin/messages", false,
           ["conversation.read.any", "conversation.manage.any"], [], "", false)
  const CASES_LIST :=
    Policy("cases.list", "/admin/cases", false,
           ["case.read.any", "case.read.assigned"], [], "", false)
  const CASES_CREATE := Policy("cases.create", "/admin/cases/new", true, ["case.create.any"], [], "", false)
  const CALENDAR_LIST :=
    Policy("calendar.list", "/admin/calendar", false,
           ["appointment.manage.any", "appointment.read.assigned"], [], "", false)
  const TASKS_LIST :=
    Policy("tasks.list", "/admin/tasks", false,
           ["task.manage.any", "task.manage.assigned", "task.read.assigned"], [], "", false)
  const DOCUMENTS_LIST :=
    Policy("documents.list", "/admin/documents", false,
           ["document.manage.any", "document.read.assigned"], [], "", false)
  const FINANCE_LIST :=
    Policy("finance.list", "/admin/finance", false,
           ["finance.read.any", "finance.manage.any"], [], "", false)
  const REPORTS_LIST := Policy("reports.list", "/admin/reports", false, ["report.read.any"], [], "", false)
  const CONTENT_HOME :=
    Policy("content.home", "/admin/content", false,
           ["content.create.any", "content.approve.any", "caseStudy.create.any", "caseStudy.approve.any",
            "socialDraft.create.any", "socialDraft.approve.any"], [], "", false)
  const CONTACTS_LIST :=
    Policy("contacts.list", "/admin/contact-messages", false,
           ["contact.read.any", "contact.manage.any"], [], "", false)
  const NOTIFICATIONS_LIST :=
    Policy("notifications.list", "/admin/notifications", false,
           ["notification.read.self"], [], "", false)
  const USERS_LIST := Policy("users.list", "/admin/users", false, ["user.manage.any"], [], "", false)
  const ROLES_LIST :=
    Policy("roles.list", "/admin/roles", false,
           [], ["role.manage.any", "permission.manage.any"], "Super Admin", false)
  const SETTINGS_HOME := Policy("settings.home", "/admin/settings", false, ["settings.manage.any"], [], "", false)
  const AUDIT_LIST := Policy("audit.list", "/admin/audit-log", false, ["audit.read.any"], [], "", false)

  const ADMIN_ROUTE_POLICIES: Table := [
    SERVICE_REQUESTS_LIST, DASHBOARD_HOME, CONSULTATIONS_AVAILABILITY, CONSULTATIONS_LIST, CLIENTS_LIST,
    MESSAGES_LIST, CASES_LIST, CASES_CREATE, CALENDAR_LIST, TASKS_LIST, DOCUMENTS_LIST, FINANCE_LIST, REPORTS_LIST,
    CONTENT_HOME, CONTACTS_LIST, NOTIFICATIONS_LIST, USERS_LIST, ROLES_LIST, SETTINGS_HOME, AUDIT_LIST
  ]

  /** The policy asks for one of its permissions and for nothing else. */
  predicate AsksForOne(p: Policy) {
    p.requiredAny != [] && p.requiredAll == [] && p.exactRole == ""
  }

  lemma Plain(href: string)
    requires |href| > 1 && href[0] == '/' && href[|href| - 1] != '/' && '?' !in href && '#' !in href
    ensures PlainHref(href)
  {
  }

  lemma PlainHrefs0()
    ensures PlainHref(SERVICE_REQUESTS_LIST.href) && PlainHref(DASHBOARD_HOME.href)
  {
    hide PlainHref;
    Plain(SERVICE_REQUESTS_LIST.href);
    Plain(DASHBOARD_HOME.href);
  }

  lemma PlainHrefs1()
    ensures PlainHref(CONSULTATIONS_AVAILABILITY.href)
  {
  }

  lemma PlainHrefs2()
    ensures PlainHref(CONSULTATIONS_LIST.href) && PlainHref(CLIENTS_LIST.href) && PlainHref(MESSAGES_LIST.href) &&
            PlainHref(CASES_LIST.href) && PlainHref(CASES_CREATE.href) && PlainHref(CALENDAR_LIST.href)
  {
    hide PlainHref;
    Plain(CONSULTATIONS_LIST.href);
    Plain(CLIENTS_LIST.href);
    Plain(MESSAGES_LIST.href);
    Plain(CASES_LIST.href);
    Plain(CASES_CREATE.href);
    Plain(CALENDAR_LIST.href);
  }

  lemma PlainHrefs3()
    ensures PlainHref(TASKS_LIST.href) && PlainHref(DOCUMENTS_LIST.href) && PlainHref(FINANCE_LIST.href) &&
            PlainHref(REPORTS_LIST.href) && PlainHref(CONTENT_HOME.href) && PlainHref(CONTACTS_LIST.href)
  {
    hide PlainHref;
    Plain(TASKS_LIST.href);
    Plain(DOCUMENTS_LIST.href);
    Plain(FINANCE_LIST.href);
    Plain(REPORTS_LIST.href);
    Plain(CONTENT_HOME.href);
    Plain(CONTACTS_LIST.href);
  }

  lemma PlainHrefs4()
    ensures PlainHref(NOTIFICATIONS_LIST.href) && PlainHref(USERS_LIST.href) && PlainHref(ROLES_LIST.href) &&
            PlainHref(SETTINGS_HOME.href) && PlainHref(AUDIT_LIST.href)
  {
    hide PlainHref;
    Plain(NOTIFICATIONS_LIST.href);
    Plain(USERS_LIST.href);
    Plain(ROLES_LIST.href);
    Plain(SETTINGS_HOME.href);
    Plain(AUDIT_LIST.href);
  }

  lemma MostAskForOne()
    ensures AsksForOne(SERVICE_REQUESTS_LIST) && AsksForOne(CONSULTATIONS_AVAILABILITY) &&
            AsksForOne(CONSULTATIONS_LIST) && AsksForOne(CLIENTS_LIST) && AsksForOne(MESSAGES_LIST) &&
            AsksForOne(CASES_LIST) && AsksForOne(CASES_CREATE) && AsksForOne(CALENDAR_LIST) &&
            AsksForOne(TASKS_LIST) && AsksForOne(DOCUMENTS_LIST) && AsksForOne(FINANCE_LIST) &&
            AsksForOne(REPORTS_LIST) && AsksForOne(CONTENT_HOME) && AsksForOne(CONTACTS_LIST) &&
            AsksForOne(NOTIFICATIONS_LIST) && AsksForOne(USERS_LIST) && AsksForOne(SETTINGS_HOME) &&
            AsksForOne(AUDIT_LIST)
  {
  }

  lemma Rows(p: Policy)
    requires p in ADMIN_ROUTE_POLICIES
    ensures PlainHref(p.href)
    ensures p == DASHBOARD_HOME || p == ROLES_LIST || AsksForOne(p)
  {
    hide PlainHref, AsksForOne;
    PlainHrefs0();
    PlainHrefs1();
    PlainHrefs2();
    PlainHrefs3();
    PlainHrefs4();
    MostAskForOne();
  }

  lemma HrefsDiffer(i: nat, j: nat)
    requires i < j < |ADMIN_ROUTE_POLICIES|
    ensures ADMIN_ROUTE_POLICIES[i].href != ADMIN_ROUTE_POLICIES[j].href
  {
  }

  lemma IdsDiffer(i: nat, j: nat)
    requires i < j < |ADMIN_ROUTE_POLICIES|
    ensures ADMIN_ROUTE_POLICIES[i].id != ADMIN_ROUTE_POLICIES[j].id
  {
  }

  /** The table has distinct identifiers and distinct plain hrefs, so every general result holds
      of it: each href resolves to its policy, and navigation filtered by path is navigation
      filtered by policy. */
  lemma TheTableIsWellFormed(defaults: string -> set<string>, principal: Principal)
    ensures WellFormed(ADMIN_ROUTE_POLICIES)
    ensures forall p :: p in ADMIN_ROUTE_POLICIES ==> Resolve(ADMIN_ROUTE_POLICIES, p.href) == Some(p)
    ensures AuthorizedNavItems(defaults, ADMIN_ROUTE_POLICIES, NavItems(ADMIN_ROUTE_POLICIES), principal)
            == NavItems(FilterPolicies(defaults, ADMIN_ROUTE_POLICIES, principal))
  {
    hide Resolve, AuthorizedNavItems, FilterPolicies, PlainHref, NavItems, ADMIN_ROUTE_POLICIES, AsksForOne;
    forall i, j | 0 <= i < j < |ADMIN_ROUTE_POLICIES|
      ensures ADMIN_ROUTE_POLICIES[i].href != ADMIN_ROUTE_POLICIES[j].href
      ensures ADMIN_ROUTE_POLICIES[i].id != ADMIN_ROUTE_POLICIES[j].id
    {
      HrefsDiffer(i, j);
      IdsDiffer(i, j);
    }
    forall p | p in ADMIN_ROUTE_POLICIES ensures PlainHref(p.href) { Rows(p); }
    forall p | p in ADMIN_ROUTE_POLICIES ensures Resolve(ADMIN_ROUTE_POLICIES, p.href) == Some(p) {
      EveryHrefResolvesToItself(ADMIN_ROUTE_POLICIES, p);
    }
    FilteringByPathIsByPolicy(defaults, ADMIN_ROUTE_POLICIES, ADMIN_ROUTE_POLICIES, principal);
  }

  // ---------------------------------------------------------------- the pages of the cases

  /** No other policy's href is, begins or goes on from the href of the cases. */
  predicate ApartFromCases(p: Policy) {
    |p.href| >= 12 && (p.href[7] != 'c' || p.href[8] != 'a' || p.href[9] != 's')
  }

  lemma ApartRows0()
    ensures ApartFromCases(SERVICE_REQUESTS_LIST) && ApartFromCases(CONSULTATIONS_AVAILABILITY) &&
            ApartFromCases(CONSULTATIONS_LIST) && ApartFromCases(CLIENTS_LIST) && ApartFromCases(MESSAGES_LIST) &&
            ApartFromCases(CALENDAR_LIST) && ApartFromCases(TASKS_LIST) && ApartFromCases(DOCUMENTS_LIST)
  {
  }

  lemma ApartRows1()
    ensures ApartFromCases(FINANCE_LIST) && ApartFromCases(REPORTS_LIST) && ApartFromCases(CONTENT_HOME) &&
            ApartFromCases(CONTACTS_LIST) && ApartFromCases(NOTIFICATIONS_LIST) && ApartFromCases(USERS_LIST) &&
            ApartFromCases(ROLES_LIST) && ApartFromCases(SETTINGS_HOME) && ApartFromCases(AUDIT_LIST)
  {
  }

  lemma RowsApartFromCases(p: Policy)
    requires p in ADMIN_ROUTE_POLICIES
    ensures p == DASHBOARD_HOME || p == CASES_LIST || p == CASES_CREATE || ApartFromCases(p)
  {
    hide ApartFromCases;
    ApartRows0();
    ApartRows1();
  }

  /** Every plain path below "/admin/cases" but "new" belongs to the cases' list, and that one to the
      creation of a case. */
  lemma CasePagesResolve(rest: string)
    requires rest != "" && rest[|rest| - 1] != '/' && forall i :: 0 <= i < |rest| ==> rest[i] != '?' && rest[i] != '#'
    ensures Resolve(ADMIN_ROUTE_POLICIES, "/admin/cases/" + rest)
            == Some(if rest == "new" then CASES_CREATE else CASES_LIST)
  {
    hide Resolve, ADMIN_ROUTE_POLICIES, WellFormed, ApartFromCases;
    CasePolicies();
    assert WellFormed(ADMIN_ROUTE_POLICIES) by { TheTableIsWellFormed(_ => {}, Principal("", None)); }
    var path := "/admin/cases/" + rest;
    assert CASES_LIST.href + "/" + rest == path;
    if rest == "new" {
      assert path == CASES_CREATE.href;
      EveryHrefResolvesToItself(ADMIN_ROUTE_POLICIES, CASES_CREATE);
    } else {
      PagesBelowResolve(ADMIN_ROUTE_POLICIES, CASES_LIST, rest);
      var q := Resolve(ADMIN_ROUTE_POLICIES, path).value;
      assert q in ADMIN_ROUTE_POLICIES by { ResolvesInTable(path); }
      RowsApartFromCases(q);
      assert path[7] == 'c' && path[8] == 'a' && path[9] == 's';
      if ApartFromCases(q) { ApartDiffers(q, path); }
      OnlyNewIsNew(rest);
    }
  }

  lemma OnlyNewIsNew(rest: string)
    ensures "/admin/cases/" + rest == CASES_CREATE.href ==> rest == "new"
  {
    assert ("/admin/cases/" + rest)[13..] == rest && CASES_CREATE.href[13..] == "new";
  }

  lemma CasePolicies()
    ensures CASES_LIST in ADMIN_ROUTE_POLICIES && CASES_CREATE in ADMIN_ROUTE_POLICIES
  {
    assert ADMIN_ROUTE_POLICIES[6] == CASES_LIST && ADMIN_ROUTE_POLICIES[7] == CASES_CREATE;
  }

  lemma ResolvesInTable(path: string)
    requires WellFormed(ADMIN_ROUTE_POLICIES) && Resolve(ADMIN_ROUTE_POLICIES, path).Some?
    ensures Resolve(ADMIN_ROUTE_POLICIES, path).value in ADMIN_ROUTE_POLICIES
  {
    hide Resolve, ADMIN_ROUTE_POLICIES;
    ResolveGoverns(ADMIN_ROUTE_POLICIES, path);
    assert Governs(ADMIN_ROUTE_POLICIES, Normalized(path), Resolve(ADMIN_ROUTE_POLICIES, path).value);
  }

  lemma ApartDiffers(q: Policy, path: string)
    requires ApartFromCases(q) && |path| > 12 && path[7] == 'c' && path[8] == 'a' && path[9] == 's'
    ensures !Extends(path, q.href)
  {
    if |path| >= |q.href| { assert forall i :: 0 <= i < |q.href| ==> path[..|q.href|][i] == path[i]; }
  }

  // ---------------------------------------------------------------- who opens what

  /** The permissions a principal acts with: its own if it has any set, else its role's. */
  function Effective(defaults: string -> set<string>, principal: Principal): set<string> {
    match principal.permissions
    case Some(own) => own
    case None => defaults(principal.roleName)
  }

  /** Holds one of the policy's alternative permissions, or all there are. */
  predicate HoldsOne(defaults: string -> set<string>, principal: Principal, p: Policy) {
    "*" in Effective(defaults, principal)
    || exists k :: 0 <= k < |p.requiredAny| && p.requiredAny[k] in Effective(defaults, principal)
  }

  lemma AccessByOne(defaults: string -> set<string>, principal: Principal, p: Policy)
    requires AsksForOne(p)
    ensures CanAccessRoute(defaults, principal, p)
            <==> principal.roleName in STAFF_ROLES
                 && (principal.roleName == SUPER_ADMIN || HoldsOne(defaults, principal, p))
  {
    hide STAFF_ROLES;
    if principal.roleName == SUPER_ADMIN || "*" in Effective(defaults, principal) {
      assert HasPermission(defaults, principal, p.requiredAny[0]);
    } else if k :| 0 <= k < |p.requiredAny| && p.requiredAny[k] in Effective(defaults, principal) {
      assert HasPermission(defaults, principal, p.requiredAny[k]);
    }
  }

  lemma IdDecides(p: Policy, q: Policy)
    requires p in ADMIN_ROUTE_POLICIES && q in ADMIN_ROUTE_POLICIES && p.id == q.id
    ensures p == q
  {
    hide ADMIN_ROUTE_POLICIES;
    var i :| 0 <= i < |ADMIN_ROUTE_POLICIES| && ADMIN_ROUTE_POLICIES[i] == p;
    var j :| 0 <= j < |ADMIN_ROUTE_POLICIES| && ADMIN_ROUTE_POLICIES[j] == q;
    if i < j { IdsDiffer(i, j); }
    if j < i { IdsDiffer(j, i); }
  }

  lemma SpecialPolicies()
    ensures DASHBOARD_HOME in ADMIN_ROUTE_POLICIES && ROLES_LIST in ADMIN_ROUTE_POLICIES
  {
    assert ADMIN_ROUTE_POLICIES[1] == DASHBOARD_HOME && ADMIN_ROUTE_POLICIES[17] == ROLES_LIST;
  }

  lemma SuperAdminHoldsAll(defaults: string -> set<string>, principal: Principal, permissions: seq<string>)
    requires principal.roleName == SUPER_ADMIN
    ensures forall k :: 0 <= k < |permissions| ==> HasPermission(defaults, principal, permissions[k])
  {
  }

  /** Who opens which route: staff only; the super administrator opens every route, all staff the
      dashboard, nobody else the roles, and any other route whoever holds one of its permissions. */
  lemma WhoOpensWhat(defaults: string -> set<string>, principal: Principal, p: Policy)
    requires p in ADMIN_ROUTE_POLICIES
    ensures CanAccessRoute(defaults, principal, p)
            <==> principal.roleName in STAFF_ROLES
                 && (principal.roleName == SUPER_ADMIN
                     || p.id == DASHBOARD_HOME.id
                     || (p.id != ROLES_LIST.id && HoldsOne(defaults, principal, p)))
  {
    hide ADMIN_ROUTE_POLICIES, PlainHref, HasPermission, AsksForOne, STAFF_ROLES;
    SpecialPolicies();
    Rows(p);
    if p.id == DASHBOARD_HOME.id { IdDecides(p, DASHBOARD_HOME); }
    if p.id == ROLES_LIST.id { IdDecides(p, ROLES_LIST); }
    if principal.roleName == SUPER_ADMIN { SuperAdminHoldsAll(defaults, principal, p.requiredAll); }
    if p != DASHBOARD_HOME && p != ROLES_LIST { AccessByOne(defaults, principal, p); }
  }
}
