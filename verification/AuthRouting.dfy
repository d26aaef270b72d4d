/** Where a signed-in user is sent, and how the path asked for survives the detour by the login page. */
module AuthRouting {
  import opened Wrappers

  const STAFF_ROLES: set<string> := {"Lawyer", "Secretary", "Office Admin", "Marketing Staff", "Super Admin"}

  predicate IsSafeInternal(path: Option<string>) {
    path.Some? && "/" <= path.value && !("//" <= path.value) && !("/api/" <= path.value)
  }

  function SanitizeNext(path: Option<string>, fallback: string): string {
    if IsSafeInternal(path) then path.value else fallback
  }

  function DefaultPath(role: string): string {
    if role == "Client" then "/client" else if role in STAFF_ROLES then "/admin" else "/"
  }

  predicate UnderPath(path: string, root: string) {
    path == root || root + "/" <= path
  }

  predicate CanOpen(role: string, path: string) {
    if !IsSafeInternal(Some(path)) then false
    else if path == "/business-ai" || path == "/ar/business-ai" then true
    else if path == "/" || "/login" <= path then true
    else if role == "Client" then UnderPath(path, "/client")
    else if role in STAFF_ROLES then UnderPath(path, "/admin")
    else false
  }

  function Redirect(role: string, requested: Option<string>): string {
    var fallback := DefaultPath(role);
    var next := SanitizeNext(requested, fallback);
    if next == "/" || "/login" <= next then fallback
    else if CanOpen(role, next) then next
    else fallback
  }

  predicate IsProtected(path: string) {
    UnderPath(path, "/admin") || UnderPath(path, "/client")
  }

  /** The login URL: its path, and the decoded value of its `next` parameter. */
  datatype LoginUrl = LoginUrl(path: string, params: map<string, string>)

  function LoginUrlFor(pathname: string, search: string): LoginUrl {
    LoginUrl("/login", map["next" := SanitizeNext(Some(pathname + search), "/")])
  }

  /** The `next` parameter is always a safe path of this site.  It is the path and query asked for exactly
      when those are safe, as they are for every protected path, and the home path otherwise. */
  method LoginUrlForProtectedPath(pathname: string, search: string) returns (url: LoginUrl)
    ensures url == LoginUrlFor(pathname, search)
    ensures url.path == "/login" && url.params.Keys == {"next"}
    ensures IsSafeInternal(Some(url.params["next"]))
    ensures IsSafeInternal(Some(pathname + search)) <==> url.params["next"] == pathname + search
    ensures !IsSafeInternal(Some(pathname + search)) ==> url.params["next"] == "/"
    ensures IsProtected(pathname) ==> url.params["next"] == pathname + search
  {
    if IsProtected(pathname) { ProtectedIsSafe(pathname, search); }
    url := LoginUrl("/login", map[]);
    url := url.(params := url.params["next" := SanitizeNext(Some(pathname + search), "/")]);
  }

  lemma ProtectedIsSafe(pathname: string, search: string)
    requires IsProtected(pathname)
    ensures IsSafeInternal(Some(pathname + search))
  {
    var target := pathname + search;
    var root := if UnderPath(pathname, "/admin") then "/admin" else "/client";
    assert pathname[..|root|] == root;
    assert target[..|root|] == root;
    NotOther(target, root);
    assert target[0] == '/';
  }

  lemma DefaultIsOpen(role: string)
    ensures CanOpen(role, DefaultPath(role)) && !("/login" <= DefaultPath(role))
  {
    RoleIsOne(role);
    assert "/client"[1] == 'c' && "/admin"[1] == 'a' && |"/"| == 1;
    assert "/api/"[1] == 'a' && "/api/"[2] == 'p' && "/admin"[2] == 'd';
    assert UnderPath("/client", "/client") && UnderPath("/admin", "/admin");
  }

  /** Every request, however hostile, ends on a page the role may open and never on the login
      page; asking again for the answer gives it back. */
  lemma RedirectIsSafe(role: string, requested: Option<string>)
    ensures CanOpen(role, Redirect(role, requested))
    ensures !("/login" <= Redirect(role, requested))
    ensures Redirect(role, Some(Redirect(role, requested))) == Redirect(role, requested)
  {
    hide CanOpen, DefaultPath;
    DefaultIsOpen(role);
    OpenIsSafe(role, Redirect(role, requested));
  }

  lemma OpenIsSafe(role: string, path: string)
    requires CanOpen(role, path)
    ensures IsSafeInternal(Some(path))
  {
  }

  /** A path is kept exactly when the role may open it and it is neither the home nor a login page. */
  lemma RedirectKeepsExactly(role: string, path: string)
    ensures Redirect(role, Some(path)) == path
            <==> path == DefaultPath(role) || (CanOpen(role, path) && path != "/" && !("/login" <= path))
  {
    hide CanOpen, DefaultPath;
    DefaultIsOpen(role);
    if CanOpen(role, path) { OpenIsSafe(role, path); }
  }

  /** Under a root: the root itself, or what goes on from it after a slash. */
  lemma UnderMeans(path: string, root: string)
    ensures UnderPath(path, root)
            <==> |path| >= |root| && path[..|root|] == root && (|path| > |root| ==> path[|root|] == '/')
  {
    if root + "/" <= path { assert path[..|root|] == root && path[|root|] == '/'; }
    if |path| > |root| && path[..|root|] == root && path[|root|] == '/' {
      assert path[..|root| + 1] == path[..|root|] + [path[|root|]];
    }
  }

  /** Which paths are safe: those that begin with one slash and are not of the API. */
  lemma SafeExactly(path: string)
    ensures IsSafeInternal(Some(path))
            <==> && path != "" && path[0] == '/' && (|path| > 1 ==> path[1] != '/')
                 && !(|path| >= 5 && path[..5] == "/api/")
    ensures !IsSafeInternal(None)
  {
    if "//" <= path { assert path[1] == '/'; }
    if |path| > 1 && path[0] == '/' && path[1] == '/' { assert path[..2] == "//"; }
  }

  /** Where a requested path leads, role by role: the two AI pages are for everybody; a client keeps the
      paths of the client area and staff those of the admin area; anything else leads home. */
  lemma RedirectExactly(role: string, path: string)
    ensures Redirect(role, Some(path))
            == if path in {"/business-ai", "/ar/business-ai"} then path
               else if role == "Client" then (if UnderPath(path, "/client") then path else "/client")
               else if role in STAFF_ROLES then (if UnderPath(path, "/admin") then path else "/admin")
               else "/"
  {
    RoleIsOne(role);
    assert path + "" == path;
    if UnderPath(path, "/client") {
      RootPrefix(path, "", "/client");
      NotOther(path, "/client");
    }
    if UnderPath(path, "/admin") {
      RootPrefix(path, "", "/admin");
      NotOther(path, "/admin");
    }
    AiPagesAreSafe();
  }

  lemma AiPagesAreSafe()
    ensures forall path :: path in {"/business-ai", "/ar/business-ai"} ==>
              IsSafeInternal(Some(path)) && path != "/" && !("/login" <= path)
  {
    assert "/business-ai"[1] == 'b' && "/ar/business-ai"[2] == 'r' && "/ar/business-ai"[1] == 'a';
  }

  /** After signing in, a user whom a protected page sent to the login page returns to that page with the
      query intact exactly when it lies in the area of their role, unless it is the bare root of the area
      and has a query; otherwise they arrive at that root. */
  lemma LoginReturnsExactly(role: string, pathname: string, search: string)
    requires IsProtected(pathname)
    requires search == "" || search[0] == '?'
    ensures var home := DefaultPath(role);
            Redirect(role, Some(LoginUrlFor(pathname, search).params["next"]))
            == if UnderPath(pathname, home) && (pathname == home ==> search == "") then pathname + search else home
  {
    hide IsSafeInternal, CanOpen;
    ProtectedIsSafe(pathname, search);
    var target := pathname + search;
    var root := if UnderPath(pathname, "/admin") then "/admin" else "/client";
    assert pathname[..|root|] == root;
    assert target[..|root|] == root;
    NotOther(target, root);
    OpenProtected(role, pathname, search);
  }

  /** A client sent to sign in from "/client?tab=files" arrives at "/client". */
  lemma BareRootLosesItsQuery()
    ensures Redirect("Client", Some(LoginUrlFor("/client", "?tab=files").params["next"])) == "/client"
  {
    hide Redirect, LoginUrlFor;
    LoginReturnsExactly("Client", "/client", "?tab=files");
  }

  /** Which protected pages a role may open: those of its own area, seen with their query. */
  lemma OpenProtected(role: string, pathname: string, search: string)
    requires IsProtected(pathname)
    requires search == "" || search[0] == '?'
    ensures CanOpen(role, pathname + search)
            <==> UnderPath(pathname, DefaultPath(role)) && (pathname == DefaultPath(role) ==> search == "")
  {
    hide UnderPath;
    var target := pathname + search;
    ProtectedIsSafe(pathname, search);
    RoleIsOne(role);
    var root := if UnderPath(pathname, "/admin") then "/admin" else "/client";
    Inside(pathname, search, root, "/admin");
    Inside(pathname, search, root, "/client");
    Inside(pathname, search, root, "/");
    RootPrefix(pathname, search, root);
    NotOther(target, root);
  }

  lemma RootPrefix(pathname: string, search: string, root: string)
    requires UnderPath(pathname, root)
    ensures |pathname + search| >= |root| && (pathname + search)[..|root|] == root
  {
    assert pathname[..|root|] == root;
  }

  /** A path of one area is in no other area, and its query takes only the bare root out of its own. */
  lemma Inside(pathname: string, search: string, root: string, area: string)
    requires root in {"/client", "/admin"} && area in {"/client", "/admin", "/"}
    requires UnderPath(pathname, root)
    requires search == "" || search[0] == '?'
    ensures UnderPath(pathname, area) <==> root == area
    ensures UnderPath(pathname + search, area) <==> root == area && (pathname == root ==> search == "")
  {
    var target := pathname + search;
    RootPrefix(pathname, search, root);
    assert target[1] == pathname[1] == root[1];
    assert area + "/" <= target ==> target[..|area| + 1] == area + "/";
    assert area + "/" <= pathname ==> pathname[..|area| + 1] == area + "/";
    if pathname == root {
      assert search != "" ==> target[|root|] == '?';
    } else {
      assert pathname[..|root| + 1] == root + "/";
      assert target[..|root| + 1] == root + "/";
    }
  }

  lemma RoleIsOne(role: string)
    ensures !(role == "Client" && role in STAFF_ROLES)
  {
    assert "Client"[0] == 'C';
  }

  lemma NotOther(target: string, root: string)
    requires root in {"/client", "/admin"} && |target| >= |root| && target[..|root|] == root
    ensures target != "/" && !("/login" <= target) && !("//" <= target) && !("/api/" <= target)
    ensures target != "/business-ai" && target != "/ar/business-ai"
  {
    assert target[1] == root[1] && target[2] == root[2];
    assert "/api/"[2] == 'p' && "/ar/business-ai"[2] == 'r' && "/business-ai"[1] == 'b';
  }
}
