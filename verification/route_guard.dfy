/** The per-request route guard: a decision function over (path, token) and
    the `authorized` callback the authentication framework consults. Paths are
    classified by raw string prefix, with no segment-boundary check. */
module RouteGuard {

  import opened Optional

  /** The closed set of user roles. */
  datatype Role = Customer | Admin | Manager | Editor | Support

  /** A session token; its `role` claim may be missing. */
  datatype Token = Token(role: Option<Role>)

  datatype PathClass = AuthPath | AdminPath | AccountPath | PublicPath

  /** Let the request through, or redirect it to `/` or to `/auth/signin`. */
  datatype Decision = Allow | RedirectHome | RedirectSignIn

  const AuthPrefix := "/auth"
  const AdminPrefix := "/admin"
  const AccountPrefix := "/account"

  /** JavaScript's `path.startsWith(prefix)`. */
  predicate StartsWith(path: string, prefix: string)
  {
    prefix <= path
  }

  /** The role check of the admin area: ADMIN or MANAGER. */
  predicate IsStaff(token: Option<Token>)
  {
    token.Some? && (token.value.role == Some(Admin) || token.value.role == Some(Manager))
  }

  /** The path class, testing `/auth`, `/admin` and `/account` in that order. */
  function Classify(path: string): (c: PathClass)
    ensures c == AuthPath <==> StartsWith(path, AuthPrefix)
    ensures c == AdminPath <==> StartsWith(path, AdminPrefix)
    ensures c == AccountPath <==> StartsWith(path, AccountPrefix)
  {
    PrefixesExclusive(path);
    if StartsWith(path, AuthPrefix) then AuthPath
    else if StartsWith(path, AdminPrefix) then AdminPath
    else if StartsWith(path, AccountPrefix) then AccountPath
    else PublicPath
  }

  /** No path starts with two of the three prefixes, so the order in which
      they are checked does not matter. */
  lemma PrefixesExclusive(path: string)
    ensures !(StartsWith(path, AuthPrefix) && StartsWith(path, AdminPrefix))
    ensures !(StartsWith(path, AuthPrefix) && StartsWith(path, AccountPrefix))
    ensures !(StartsWith(path, AdminPrefix) && StartsWith(path, AccountPrefix))
  {
    if StartsWith(path, AuthPrefix) {
      assert path[2] == AuthPrefix[2] == 'u';
    }
    if StartsWith(path, AdminPrefix) {
      assert path[2] == AdminPrefix[2] == 'd';
    }
  }

  /** The `middleware` function, branch for branch: an auth page redirects a
      signed-in user home; an admin page sends an anonymous user to sign-in
      and a non-staff user home; an account page sends an anonymous user to
      sign-in; everything else passes. */
  function Middleware(path: string, token: Option<Token>): (d: Decision)
    ensures token.None? ==> d != RedirectHome
    ensures token.Some? ==> d != RedirectSignIn
    ensures d == RedirectSignIn ==> StartsWith(path, AdminPrefix) || StartsWith(path, AccountPrefix)
    ensures d == RedirectHome ==> StartsWith(path, AuthPrefix) || StartsWith(path, AdminPrefix)
  {
    var isAuth := token.Some?;
    var isAuthPage := StartsWith(path, AuthPrefix);
    var isAdminPage := StartsWith(path, AdminPrefix);
    var isAccountPage := StartsWith(path, AccountPrefix);
    if isAuthPage then
      if isAuth then RedirectHome else Allow
    else if isAdminPage && !isAuth then RedirectSignIn
    else if isAdminPage && !IsStaff(token) then RedirectHome
    else if isAccountPage && !isAuth then RedirectSignIn
    else Allow
  }

  /** The `authorized` callback. */
  function Authorized(path: string, token: Option<Token>): (b: bool)
    ensures StartsWith(path, AuthPrefix) ==> b
    ensures token.None? ==> (b <==> !StartsWith(path, AdminPrefix) && !StartsWith(path, AccountPrefix))
    ensures IsStaff(token) ==> b
  {
    PrefixesExclusive(path);
    if StartsWith(path, AuthPrefix) then true
    else if StartsWith(path, AdminPrefix) then token.Some? && IsStaff(token)
    else if StartsWith(path, AccountPrefix) then token.Some?
    else true
  }

  /** The decision table, one row per (path class, signed in, role). */
  function DecisionTable(c: PathClass, token: Option<Token>): Decision
  {
    match c
    case AuthPath => if token.Some? then RedirectHome else Allow
    case AdminPath => if token.None? then RedirectSignIn else if IsStaff(token) then Allow else RedirectHome
    case AccountPath => if token.None? then RedirectSignIn else Allow
    case PublicPath => Allow
  }

  // ---------------------------------------------------------------------------
  // Lemmas

  /** The nested conditionals of `middleware` implement the decision table. */
  lemma MiddlewareFollowsTable(path: string, token: Option<Token>)
    ensures Middleware(path, token) == DecisionTable(Classify(path), token)
  {
    PrefixesExclusive(path);
  }

  /** Off the auth pages the callback and the decision agree exactly. */
  lemma AgreementOffAuthPages(path: string, token: Option<Token>)
    requires Classify(path) != AuthPath
    ensures Authorized(path, token) <==> Middleware(path, token) == Allow
  {
    PrefixesExclusive(path);
  }

  /** On the auth pages the callback always says yes, and the decision lets
      exactly the anonymous users through. */
  lemma AuthPagesDisagree(path: string, token: Option<Token>)
    requires Classify(path) == AuthPath
    ensures Authorized(path, token)
    ensures Middleware(path, token) == Allow <==> token.None?
  {
  }

  /** A refusal by the callback always comes with a redirect from the
      decision, but not the other way round. */
  lemma RefusalImpliesRedirect(path: string, token: Option<Token>)
    ensures !Authorized(path, token) ==> Middleware(path, token) != Allow
  {
    if Classify(path) != AuthPath {
      AgreementOffAuthPages(path, token);
    }
  }

  lemma RedirectWithoutRefusal()
    ensures Authorized("/auth/signin", Some(Token(Some(Customer))))
    ensures Middleware("/auth/signin", Some(Token(Some(Customer)))) == RedirectHome
  {
    assert StartsWith("/auth/signin", AuthPrefix) by {
      assert "/auth/signin"[..5] == AuthPrefix;
    }
  }

  /** The decision function itself has no segment-boundary check: given
      `/authors` it sees an auth page, and given `/administrator` an admin
      page. The deployed route matcher (`/auth/:path*` and the like) never
      hands it those paths, so this describes the function, not the site. */
  lemma RawPrefixMatch()
    ensures Classify("/authors") == AuthPath
    ensures Classify("/administrator") == AdminPath
    ensures Middleware("/authors", Some(Token(None))) == RedirectHome
  {
    assert "/authors"[..5] == AuthPrefix;
    assert "/administrator"[..6] == AdminPrefix;
  }

  /** The documented scenarios. */
  lemma Scenarios()
    ensures Middleware("/admin/orders", None) == RedirectSignIn
    ensures Middleware("/admin/orders", Some(Token(Some(Customer)))) == RedirectHome
    ensures Middleware("/admin/orders", Some(Token(Some(Manager)))) == Allow
    ensures Middleware("/admin/orders", Some(Token(None))) == RedirectHome
    ensures Middleware("/account/profile", None) == RedirectSignIn
    ensures Middleware("/products", None) == Allow
  {
    assert "/admin/orders"[..6] == AdminPrefix;
    PrefixesExclusive("/admin/orders");
    assert "/account/profile"[..8] == AccountPrefix;
    PrefixesExclusive("/account/profile");
    assert !StartsWith("/products", AuthPrefix) && !StartsWith("/products", AdminPrefix)
        && !StartsWith("/products", AccountPrefix) by {
      assert "/products"[1] == 'p';
    }
  }
}
