// The URL authorization rules of `securityFilterChain`, as an ordered table of
// request matchers that the framework checks top to bottom, the first match
// deciding. A subtree pattern such as `/api/apod/**` is read as the framework
// reads it: the path `/api/apod` itself or any path that starts with
// `/api/apod/`. The decision stops at Permit / NeedsAuthentication / Forbidden;
// turning it into a 401, a 403 or a redirect to the login page is the
// framework's business.
module SecurityConfiguration {
  import opened Wrappers

  datatype HttpMethod = GET | HEAD | POST | PUT | PATCH | DELETE | OPTIONS | TRACE

  /** The caller as the filter chain sees it: anonymous, or authenticated with its granted authorities. */
  datatype Caller = Anonymous | Authenticated(authorities: set<string>)

  datatype Decision = Permit | NeedsAuthentication | Forbidden

  datatype PathPattern =
    | Exact(path: string)    // "/api/apod"
    | Subtree(root: string)  // "/api/apod/**"
    | AnyPath                // anyRequest()

  datatype Access = PermitAll | HasAnyAuthority(any: seq<string>) | IsAuthenticated

  /**
   * One row of the table: an optional HTTP method, a path pattern, and what the
   * row requires. A `requestMatchers` call with several patterns becomes one
   * row per pattern, consecutive and with the same access, which decides the
   * same way.
   */
  datatype Rule = Rule(verb: Option<HttpMethod>, pattern: PathPattern, access: Access)

  // The path is `root` or lies below it: how the framework reads `root` followed by `/**`.
  predicate Under(path: string, root: string)
  {
    path == root || root + "/" <= path
  }

  predicate PatternMatches(p: PathPattern, path: string)
  {
    match p
    case Exact(s) => path == s
    case Subtree(root) => Under(path, root)
    case AnyPath => true
  }

  predicate RuleMatches(rule: Rule, verb: HttpMethod, path: string)
  {
    (rule.verb.None? || rule.verb.value == verb) && PatternMatches(rule.pattern, path)
  }

  const EmployeeAuthorities: seq<string> := ["SCOPE_ROLE_EMPLOYEE", "ROLE_EMPLOYEE"]
  const AdminAuthorities: seq<string> := ["SCOPE_ROLE_ADMIN", "ROLE_ADMIN"]

  // The table in the order the framework checks it, in blocks of consecutive
  // rows. The login block holds the login page, the login processing URL and
  // the logout URL, which `formLogin(...).permitAll()` and
  // `logout(...permitAll())` put ahead of the declared rows. CSRF protection
  // stays on, and with it the logout URL is matched for POST only.
  const LoginRules: seq<Rule> := [
    Rule(None, Exact("/show-login-page"), PermitAll),
    Rule(None, Exact("/authenticateTheUser"), PermitAll),
    Rule(Some(POST), Exact("/logout"), PermitAll)
  ]

  const StaticRules: seq<Rule> := [
    Rule(None, Subtree("/images"), PermitAll),
    Rule(None, Subtree("/resources"), PermitAll),
    Rule(None, Subtree("/static"), PermitAll),
    Rule(None, Subtree("/public"), PermitAll),
    Rule(None, Subtree("/webui"), PermitAll)
  ]

  const TokenRules: seq<Rule> := [
    Rule(Some(POST), Exact("/authenticate"), PermitAll)
  ]

  const DocRules: seq<Rule> := [
    Rule(None, Subtree("/v3/api-docs"), PermitAll),
    Rule(None, Subtree("/swagger-ui"), PermitAll),
    Rule(None, Subtree("/swagger-resources"), PermitAll),
    Rule(None, Exact("/swagger-ui.html"), PermitAll),
    Rule(None, Exact("/swaggerdoc.html"), PermitAll),
    Rule(None, Subtree("/webjars"), PermitAll)
  ]

  const EmployeeRules: seq<Rule> := [
    Rule(Some(GET), Exact("/nasa/home-page"), HasAnyAuthority(EmployeeAuthorities)),
    Rule(Some(GET), Exact("/api/apod"), HasAnyAuthority(EmployeeAuthorities)),
    Rule(Some(GET), Exact("/api/apods"), HasAnyAuthority(EmployeeAuthorities)),
    Rule(Some(GET), Exact("/api/save-apod"), HasAnyAuthority(EmployeeAuthorities)),
    Rule(Some(GET), Subtree("/api/apod"), HasAnyAuthority(EmployeeAuthorities))
  ]

  const AdminRules: seq<Rule> := [
    Rule(Some(DELETE), Subtree("/api/apod"), HasAnyAuthority(AdminAuthorities)),
    Rule(Some(PUT), Subtree("/api/apod"), HasAnyAuthority(AdminAuthorities))
  ]

  const FallbackRules: seq<Rule> := [
    Rule(None, AnyPath, IsAuthenticated)
  ]

  const Rules: seq<Rule> :=
    LoginRules + (StaticRules + (TokenRules + (DocRules + (EmployeeRules + (AdminRules + FallbackRules)))))

  /** The first row of `rules` that matches the request, if any. */
  function FirstMatch(rules: seq<Rule>, verb: HttpMethod, path: string): (r: Option<Rule>)
    ensures r.Some? ==> r.value in rules && RuleMatches(r.value, verb, path)
    ensures r.Some? ==> exists i :: 0 <= i < |rules| && rules[i] == r.value &&
                                   forall j :: 0 <= j < i ==> !RuleMatches(rules[j], verb, path)
    ensures r.None? ==> forall j :: 0 <= j < |rules| ==> !RuleMatches(rules[j], verb, path)
  {
    if |rules| == 0 then None
    else if RuleMatches(rules[0], verb, path) then Some(rules[0])
    else
      var r := FirstMatch(rules[1..], verb, path);
      assert r.Some? ==> exists i :: 0 <= i < |rules| && rules[i] == r.value &&
                                     forall j :: 0 <= j < i ==> !RuleMatches(rules[j], verb, path) by {
        if r.Some? {
          var i :| 0 <= i < |rules[1..]| && rules[1..][i] == r.value &&
            forall j :: 0 <= j < i ==> !RuleMatches(rules[1..][j], verb, path);
          assert forall j :: 0 <= j < i + 1 ==> !RuleMatches(rules[j], verb, path) by {
            forall j | 0 <= j < i + 1 ensures !RuleMatches(rules[j], verb, path) {
              if j > 0 { assert rules[j] == rules[1..][j - 1]; }
            }
          }
        }
      }
      assert r.None? ==> forall j :: 0 <= j < |rules| ==> !RuleMatches(rules[j], verb, path) by {
        if r.None? {
          forall j | 0 <= j < |rules| ensures !RuleMatches(rules[j], verb, path) {
            if j > 0 { assert rules[j] == rules[1..][j - 1]; }
          }
        }
      }
      r
  }

  /** What a row's access rule makes of the caller. */
  function Grant(access: Access, caller: Caller): Decision
  {
    match access
    case PermitAll => Permit
    case IsAuthenticated => if caller.Anonymous? then NeedsAuthentication else Permit
    case HasAnyAuthority(any) =>
      if caller.Anonymous? then NeedsAuthentication
      else if exists i :: 0 <= i < |any| && any[i] in caller.authorities then Permit
      else Forbidden
  }

  /**
   * The decision of the first matching row; no row matching is denied. Since
   * every request matches a row, an anonymous caller is never forbidden: it is
   * either let through or sent to authenticate.
   */
  function Decide(verb: HttpMethod, path: string, caller: Caller): (d: Decision)
    ensures d == Forbidden ==> caller.Authenticated?
  {
    EveryRequestMatchesARow(verb, path);
    match FirstMatch(Rules, verb, path)
    case Some(rule) => Grant(rule.access, caller)
    case None => Forbidden
  }

  // ----- The same policy, grouped by what a route requires -----

  predicate IsLoginRoute(verb: HttpMethod, path: string)
  {
    path == "/show-login-page" || path == "/authenticateTheUser" || (verb == POST && path == "/logout")
  }

  predicate IsStaticResource(path: string)
  {
    Under(path, "/images") || Under(path, "/resources") || Under(path, "/static") ||
    Under(path, "/public") || Under(path, "/webui")
  }

  predicate IsTokenRequest(verb: HttpMethod, path: string)
  {
    verb == POST && path == "/authenticate"
  }

  predicate IsDocRoute(path: string)
  {
    Under(path, "/v3/api-docs") || Under(path, "/swagger-ui") || Under(path, "/swagger-resources") ||
    path == "/swagger-ui.html" || path == "/swaggerdoc.html" || Under(path, "/webjars")
  }

  predicate IsPublic(verb: HttpMethod, path: string)
  {
    IsLoginRoute(verb, path) || IsStaticResource(path) || IsTokenRequest(verb, path) || IsDocRoute(path)
  }

  predicate IsEmployeeRoute(verb: HttpMethod, path: string)
  {
    verb == GET &&
    (path == "/nasa/home-page" || path == "/api/apod" || path == "/api/apods" ||
     path == "/api/save-apod" || Under(path, "/api/apod"))
  }

  predicate IsAdminRoute(verb: HttpMethod, path: string)
  {
    (verb == DELETE || verb == PUT) && Under(path, "/api/apod")
  }

  predicate EmployeeAuthorized(authorities: set<string>)
  {
    "SCOPE_ROLE_EMPLOYEE" in authorities || "ROLE_EMPLOYEE" in authorities
  }

  predicate AdminAuthorized(authorities: set<string>)
  {
    "SCOPE_ROLE_ADMIN" in authorities || "ROLE_ADMIN" in authorities
  }

  /** The policy without the table: public routes, then the two gated groups, then "authenticated". */
  function Reference(verb: HttpMethod, path: string, caller: Caller): Decision
  {
    if IsPublic(verb, path) then Permit
    else if caller.Anonymous? then NeedsAuthentication
    else if IsEmployeeRoute(verb, path) then
      (if EmployeeAuthorized(caller.authorities) then Permit else Forbidden)
    else if IsAdminRoute(verb, path) then
      (if AdminAuthorized(caller.authorities) then Permit else Forbidden)
    else Permit
  }

  /** First match over two consecutive blocks: the first block's match, else the second's. */
  lemma {:induction false} FirstMatchAppend(a: seq<Rule>, b: seq<Rule>, verb: HttpMethod, path: string)
    ensures FirstMatch(a + b, verb, path) ==
      if FirstMatch(a, verb, path).Some? then FirstMatch(a, verb, path) else FirstMatch(b, verb, path)
  {
    if |a| > 0 {
      assert (a + b)[0] == a[0];
      assert (a + b)[1..] == a[1..] + b;
      FirstMatchAppend(a[1..], b, verb, path);
    } else {
      assert a + b == b;
    }
  }

  /** The row a block yields, given what the block matches and the access all its rows share. */
  predicate BlockYields(block: seq<Rule>, matches: bool, access: Access, verb: HttpMethod, path: string)
  {
    var r := FirstMatch(block, verb, path);
    (r.Some? <==> matches) && (r.Some? ==> r.value.access == access)
  }

  /**
   * A block whose rows all carry `access`, where `matches` holds exactly when
   * some row matches, yields that access exactly when `matches` holds.
   */
  lemma UniformBlock(block: seq<Rule>, matches: bool, access: Access, verb: HttpMethod, path: string)
    requires forall j :: 0 <= j < |block| ==> block[j].access == access
    requires forall j :: 0 <= j < |block| && RuleMatches(block[j], verb, path) ==> matches
    requires matches ==> exists j :: 0 <= j < |block| && RuleMatches(block[j], verb, path)
    ensures BlockYields(block, matches, access, verb, path)
  {
  }

  lemma LoginBlock(verb: HttpMethod, path: string)
    ensures BlockYields(LoginRules, IsLoginRoute(verb, path), PermitAll, verb, path)
  {
    forall j | 0 <= j < |LoginRules| && RuleMatches(LoginRules[j], verb, path)
      ensures IsLoginRoute(verb, path)
    {
      if j == 0 {} else if j == 1 {} else {}
    }
    if IsLoginRoute(verb, path) {
      var j := if path == "/show-login-page" then 0 else if path == "/authenticateTheUser" then 1 else 2;
      assert RuleMatches(LoginRules[j], verb, path);
    }
    UniformBlock(LoginRules, IsLoginRoute(verb, path), PermitAll, verb, path);
  }

  lemma StaticBlock(verb: HttpMethod, path: string)
    ensures BlockYields(StaticRules, IsStaticResource(path), PermitAll, verb, path)
  {
    forall j | 0 <= j < |StaticRules| && RuleMatches(StaticRules[j], verb, path)
      ensures IsStaticResource(path)
    {
      if j == 0 {} else if j == 1 {} else if j == 2 {} else if j == 3 {} else {}
    }
    if IsStaticResource(path) {
      var j := if Under(path, "/images") then 0 else if Under(path, "/resources") then 1
        else if Under(path, "/static") then 2 else if Under(path, "/public") then 3 else 4;
      assert RuleMatches(StaticRules[j], verb, path);
    }
    UniformBlock(StaticRules, IsStaticResource(path), PermitAll, verb, path);
  }

  lemma TokenBlock(verb: HttpMethod, path: string)
    ensures BlockYields(TokenRules, IsTokenRequest(verb, path), PermitAll, verb, path)
  {
    if IsTokenRequest(verb, path) {
      assert RuleMatches(TokenRules[0], verb, path);
    }
    UniformBlock(TokenRules, IsTokenRequest(verb, path), PermitAll, verb, path);
  }

  lemma DocBlock(verb: HttpMethod, path: string)
    ensures BlockYields(DocRules, IsDocRoute(path), PermitAll, verb, path)
  {
    forall j | 0 <= j < |DocRules| && RuleMatches(DocRules[j], verb, path)
      ensures IsDocRoute(path)
    {
      if j == 0 {} else if j == 1 {} else if j == 2 {} else if j == 3 {} else if j == 4 {} else {}
    }
    if IsDocRoute(path) {
      var j := if Under(path, "/v3/api-docs") then 0 else if Under(path, "/swagger-ui") then 1
        else if Under(path, "/swagger-resources") then 2 else if path == "/swagger-ui.html" then 3
        else if path == "/swaggerdoc.html" then 4 else 5;
      assert RuleMatches(DocRules[j], verb, path);
    }
    UniformBlock(DocRules, IsDocRoute(path), PermitAll, verb, path);
  }

  lemma EmployeeBlock(verb: HttpMethod, path: string)
    ensures BlockYields(EmployeeRules, IsEmployeeRoute(verb, path), HasAnyAuthority(EmployeeAuthorities), verb, path)
  {
    forall j | 0 <= j < |EmployeeRules| && RuleMatches(EmployeeRules[j], verb, path)
      ensures IsEmployeeRoute(verb, path)
    {
      if j == 0 {} else if j == 1 {} else if j == 2 {} else if j == 3 {} else {}
    }
    if IsEmployeeRoute(verb, path) {
      var j := if path == "/nasa/home-page" then 0 else if path == "/api/apod" then 1
        else if path == "/api/apods" then 2 else if path == "/api/save-apod" then 3 else 4;
      assert RuleMatches(EmployeeRules[j], verb, path);
    }
    UniformBlock(EmployeeRules, IsEmployeeRoute(verb, path), HasAnyAuthority(EmployeeAuthorities), verb, path);
  }

  lemma AdminBlock(verb: HttpMethod, path: string)
    ensures BlockYields(AdminRules, IsAdminRoute(verb, path), HasAnyAuthority(AdminAuthorities), verb, path)
  {
    forall j | 0 <= j < |AdminRules| && RuleMatches(AdminRules[j], verb, path)
      ensures IsAdminRoute(verb, path)
    {
      if j == 0 {} else {}
    }
    if IsAdminRoute(verb, path) {
      var j := if verb == DELETE then 0 else 1;
      assert RuleMatches(AdminRules[j], verb, path);
    }
    UniformBlock(AdminRules, IsAdminRoute(verb, path), HasAnyAuthority(AdminAuthorities), verb, path);
  }

  lemma FallbackBlock(verb: HttpMethod, path: string)
    ensures BlockYields(FallbackRules, true, IsAuthenticated, verb, path)
  {
    assert RuleMatches(FallbackRules[0], verb, path);
    UniformBlock(FallbackRules, true, IsAuthenticated, verb, path);
  }

  lemma GrantAny(any: seq<string>, caller: Caller)
    requires |any| == 2 && caller.Authenticated?
    ensures Grant(HasAnyAuthority(any), caller) ==
      if any[0] in caller.authorities || any[1] in caller.authorities then Permit else Forbidden
  {
    if any[0] in caller.authorities || any[1] in caller.authorities {
      var i := if any[0] in caller.authorities then 0 else 1;
      assert any[i] in caller.authorities;
    }
  }

  /** The access of the first matching row, if any. */
  function FirstAccess(rules: seq<Rule>, verb: HttpMethod, path: string): Option<Access>
  {
    match FirstMatch(rules, verb, path)
    case Some(rule) => Some(rule.access)
    case None => None
  }

  /** A block in front of a tail: the block's access where it matches, else the tail's. */
  lemma BlockThen(block: seq<Rule>, tail: seq<Rule>, matches: bool, access: Access, verb: HttpMethod, path: string)
    requires BlockYields(block, matches, access, verb, path)
    ensures FirstAccess(block + tail, verb, path) == if matches then Some(access) else FirstAccess(tail, verb, path)
  {
    FirstMatchAppend(block, tail, verb, path);
  }

  /** The access the table assigns a request, read off the groups in table order. */
  function TableAccess(verb: HttpMethod, path: string): Access
  {
    if IsPublic(verb, path) then PermitAll
    else if IsEmployeeRoute(verb, path) then HasAnyAuthority(EmployeeAuthorities)
    else if IsAdminRoute(verb, path) then HasAnyAuthority(AdminAuthorities)
    else IsAuthenticated
  }

  /** Every request's first matching row carries the access of its group. */
  lemma FirstAccessIsTableAccess(verb: HttpMethod, path: string)
    ensures FirstAccess(Rules, verb, path) == Some(TableAccess(verb, path))
  {
    var tail6 := AdminRules + FallbackRules;
    var tail5 := EmployeeRules + tail6;
    var tail4 := DocRules + tail5;
    var tail3 := TokenRules + tail4;
    var tail2 := StaticRules + tail3;
    var gated := if IsEmployeeRoute(verb, path) then HasAnyAuthority(EmployeeAuthorities)
      else if IsAdminRoute(verb, path) then HasAnyAuthority(AdminAuthorities) else IsAuthenticated;
    assert FirstAccess(tail6, verb, path) ==
        Some(if IsAdminRoute(verb, path) then HasAnyAuthority(AdminAuthorities) else IsAuthenticated) by {
      AdminBlock(verb, path);
      BlockThen(AdminRules, FallbackRules, IsAdminRoute(verb, path), HasAnyAuthority(AdminAuthorities), verb, path);
      FallbackBlock(verb, path);
      assert FallbackRules + [] == FallbackRules;
      BlockThen(FallbackRules, [], true, IsAuthenticated, verb, path);
    }
    assert FirstAccess(tail5, verb, path) == Some(gated) by {
      EmployeeBlock(verb, path);
      BlockThen(EmployeeRules, tail6, IsEmployeeRoute(verb, path), HasAnyAuthority(EmployeeAuthorities), verb, path);
    }
    assert FirstAccess(tail4, verb, path) == if IsDocRoute(path) then Some(PermitAll) else Some(gated) by {
      DocBlock(verb, path);
      BlockThen(DocRules, tail5, IsDocRoute(path), PermitAll, verb, path);
    }
    assert FirstAccess(tail3, verb, path) ==
        if IsTokenRequest(verb, path) || IsDocRoute(path) then Some(PermitAll) else Some(gated) by {
      TokenBlock(verb, path);
      BlockThen(TokenRules, tail4, IsTokenRequest(verb, path), PermitAll, verb, path);
    }
    assert FirstAccess(tail2, verb, path) ==
        if IsStaticResource(path) || IsTokenRequest(verb, path) || IsDocRoute(path) then Some(PermitAll)
        else Some(gated) by {
      StaticBlock(verb, path);
      BlockThen(StaticRules, tail3, IsStaticResource(path), PermitAll, verb, path);
    }
    assert FirstAccess(LoginRules + tail2, verb, path) == Some(TableAccess(verb, path)) by {
      LoginBlock(verb, path);
      BlockThen(LoginRules, tail2, IsLoginRoute(verb, path), PermitAll, verb, path);
    }
  }

  /** The ordered table decides every request exactly as the grouped reference policy. */
  lemma DecideIsReference(verb: HttpMethod, path: string, caller: Caller)
    ensures Decide(verb, path, caller) == Reference(verb, path, caller)
  {
    FirstAccessIsTableAccess(verb, path);
    if caller.Authenticated? {
      GrantAny(EmployeeAuthorities, caller);
      GrantAny(AdminAuthorities, caller);
    }
  }

  // ----- Route properties, each derived from the reference policy -----

  /** Every request matches some row, so the "no row matched" answer is never given. */
  lemma EveryRequestMatchesARow(verb: HttpMethod, path: string)
    ensures FirstMatch(Rules, verb, path).Some?
  {
    assert Rules[|Rules| - 1] == FallbackRules[0];
    assert RuleMatches(Rules[|Rules| - 1], verb, path);
  }

  /** A path under `root` agrees with `root` on every position of `root`. */
  lemma UnderAgrees(path: string, root: string, k: nat)
    requires Under(path, root) && k < |root|
    ensures k < |path| && path[k] == root[k]
  {
    if path != root {
      assert path[..|root| + 1] == root + "/";
      assert path[k] == path[..|root| + 1][k];
    }
  }

  /** A path strictly under `root` continues it with a '/'. */
  lemma StrictlyUnder(path: string, root: string)
    requires Under(path, root) && path != root
    ensures |path| > |root| && path[|root|] == '/'
  {
    assert path[..|root| + 1] == root + "/";
    assert path[|root|] == path[..|root| + 1][|root|];
  }

  /** A path under `root` starts with the root's second and third characters. */
  lemma UnderLeading(path: string, root: string)
    requires Under(path, root) && |root| > 2
    ensures |path| > 2 && path[1] == root[1] && path[2] == root[2]
  {
    UnderAgrees(path, root, 1);
    UnderAgrees(path, root, 2);
  }

  /** What the public paths all share at their second and third characters. */
  predicate PublicLeading(path: string)
  {
    |path| > 2 && path[2] != 'p' && path[2] != 'a' &&
    (path[1] == 'i' || path[1] == 'r' || path[1] == 's' || path[1] == 'p' ||
     path[1] == 'w' || path[1] == 'a' || path[1] == 'v' || path[1] == 'l')
  }

  lemma LoginLeading(verb: HttpMethod, path: string)
    requires IsLoginRoute(verb, path)
    ensures PublicLeading(path)
  {
    if path == "/show-login-page" { assert path[1] == 's' && path[2] == 'h'; }
    else if path == "/authenticateTheUser" { assert path[1] == 'a' && path[2] == 'u'; }
    else { assert path[1] == 'l' && path[2] == 'o'; }
  }

  lemma StaticLeading(path: string)
    requires IsStaticResource(path)
    ensures PublicLeading(path) && path[1] != 'l'
  {
    if Under(path, "/images") { UnderLeading(path, "/images"); }
    else if Under(path, "/resources") { UnderLeading(path, "/resources"); }
    else if Under(path, "/static") { UnderLeading(path, "/static"); }
    else if Under(path, "/public") { UnderLeading(path, "/public"); }
    else { UnderLeading(path, "/webui"); }
  }

  lemma DocLeading(path: string)
    requires IsDocRoute(path)
    ensures PublicLeading(path) && path[1] != 'l'
  {
    if Under(path, "/v3/api-docs") { UnderLeading(path, "/v3/api-docs"); }
    else if Under(path, "/swagger-ui") { UnderLeading(path, "/swagger-ui"); }
    else if Under(path, "/swagger-resources") { UnderLeading(path, "/swagger-resources"); }
    else if Under(path, "/webjars") { UnderLeading(path, "/webjars"); }
    else if path == "/swagger-ui.html" { assert path[1] == 's' && path[2] == 'w'; }
    else { assert path == "/swaggerdoc.html" && path[1] == 's' && path[2] == 'w'; }
  }

  /**
   * Every public path has at least three characters, its second is the first
   * letter of one of the public roots, and its third is neither 'p' nor 'a'.
   */
  lemma PublicLeadingChars(verb: HttpMethod, path: string)
    requires IsPublic(verb, path)
    ensures PublicLeading(path)
  {
    if IsLoginRoute(verb, path) { LoginLeading(verb, path); }
    else if IsStaticResource(path) { StaticLeading(path); }
    else if IsDocRoute(path) { DocLeading(path); }
    else { assert path == "/authenticate" && path[1] == 'a' && path[2] == 'u'; }
  }

  /** The gated API routes and the public routes do not overlap. */
  lemma GatedRoutesAreNotPublic(verb: HttpMethod, path: string)
    requires IsEmployeeRoute(verb, path) || IsAdminRoute(verb, path)
    ensures !IsPublic(verb, path)
  {
    if Under(path, "/api/apod") {
      UnderAgrees(path, "/api/apod", 2);
    }
    if IsPublic(verb, path) {
      PublicLeadingChars(verb, path);
    }
  }

  /** Static resources, the token endpoint, the docs and the login routes are open to anyone, with any method where no method is named. */
  lemma PublicRoutesArePermitted(verb: HttpMethod, path: string, caller: Caller)
    requires IsPublic(verb, path)
    ensures Decide(verb, path, caller) == Permit
  {
    DecideIsReference(verb, path, caller);
  }

  /** An anonymous caller is let through exactly on the public routes and otherwise sent to authenticate. */
  lemma AnonymousCallers(verb: HttpMethod, path: string)
    ensures Decide(verb, path, Anonymous) == if IsPublic(verb, path) then Permit else NeedsAuthentication
  {
    DecideIsReference(verb, path, Anonymous);
  }

  /** The employee-gated routes admit an authenticated caller iff it holds an EMPLOYEE authority, and forbid it otherwise. */
  lemma EmployeeRoutesGate(verb: HttpMethod, path: string, authorities: set<string>)
    requires IsEmployeeRoute(verb, path)
    ensures Decide(verb, path, Authenticated(authorities)) ==
      if EmployeeAuthorized(authorities) then Permit else Forbidden
  {
    GatedRoutesAreNotPublic(verb, path);
    DecideIsReference(verb, path, Authenticated(authorities));
  }

  /** DELETE and PUT on the APOD subtree admit an authenticated caller iff it holds an ADMIN authority. */
  lemma AdminRoutesGate(verb: HttpMethod, path: string, authorities: set<string>)
    requires IsAdminRoute(verb, path)
    ensures Decide(verb, path, Authenticated(authorities)) ==
      if AdminAuthorized(authorities) then Permit else Forbidden
  {
    GatedRoutesAreNotPublic(verb, path);
    DecideIsReference(verb, path, Authenticated(authorities));
  }

  /** An administrator without an EMPLOYEE authority cannot read through the employee-gated routes. */
  lemma AdminAloneCannotRead(path: string)
    requires IsEmployeeRoute(GET, path)
    ensures Decide(GET, path, Authenticated({"ROLE_ADMIN"})) == Forbidden
    ensures Decide(GET, path, Authenticated({"SCOPE_ROLE_ADMIN"})) == Forbidden
  {
    EmployeeRoutesGate(GET, path, {"ROLE_ADMIN"});
    EmployeeRoutesGate(GET, path, {"SCOPE_ROLE_ADMIN"});
  }

  /** An employee without an ADMIN authority cannot delete or replace an APOD. */
  lemma EmployeeAloneCannotModify(verb: HttpMethod, path: string)
    requires IsAdminRoute(verb, path)
    ensures Decide(verb, path, Authenticated({"ROLE_EMPLOYEE"})) == Forbidden
    ensures Decide(verb, path, Authenticated({"SCOPE_ROLE_EMPLOYEE"})) == Forbidden
  {
    AdminRoutesGate(verb, path, {"ROLE_EMPLOYEE"});
    AdminRoutesGate(verb, path, {"SCOPE_ROLE_EMPLOYEE"});
  }

  /** A request outside all named rows needs an authenticated caller, whatever its authorities. */
  lemma FallbackNeedsOnlyAuthentication(verb: HttpMethod, path: string, caller: Caller)
    requires !IsPublic(verb, path) && !IsEmployeeRoute(verb, path) && !IsAdminRoute(verb, path)
    ensures Decide(verb, path, caller) == if caller.Anonymous? then NeedsAuthentication else Permit
  {
    DecideIsReference(verb, path, caller);
  }

  /** The rover photo route has no row of its own: any authenticated caller may use it. */
  lemma RoverRouteNeedsOnlyAuthentication(caller: Caller, rest: string)
    ensures Decide(GET, "/api/rover" + rest, caller) == if caller.Anonymous? then NeedsAuthentication else Permit
  {
    var rover := "/api/rover" + rest;
    assert rover[2] == 'p' && rover[5] == 'r';
    if IsPublic(GET, rover) { PublicLeadingChars(GET, rover); }
    if Under(rover, "/api/apod") { UnderAgrees(rover, "/api/apod", 5); }
    FallbackNeedsOnlyAuthentication(GET, rover, caller);
  }

  /** Only the POST to `/logout` is public; any other verb on it needs a login like an unlisted route. */
  lemma LogoutNeedsPost(verb: HttpMethod, caller: Caller)
    ensures Decide(POST, "/logout", caller) == Permit
    ensures verb != POST ==>
      Decide(verb, "/logout", caller) == if caller.Anonymous? then NeedsAuthentication else Permit
  {
    PublicRoutesArePermitted(POST, "/logout", caller);
    if verb != POST {
      LogoutIsUnlistedForOtherVerbs(verb);
      FallbackNeedsOnlyAuthentication(verb, "/logout", caller);
    }
  }

  /** `/logout` with a verb other than POST matches none of the public, employee or admin rows. */
  lemma LogoutIsUnlistedForOtherVerbs(verb: HttpMethod)
    requires verb != POST
    ensures !IsPublic(verb, "/logout") && !IsEmployeeRoute(verb, "/logout") && !IsAdminRoute(verb, "/logout")
  {
    var logout := "/logout";
    assert logout[1] == 'l';
    assert !IsPublic(verb, logout) by {
      if IsStaticResource(logout) { StaticLeading(logout); }
      if IsDocRoute(logout) { DocLeading(logout); }
    }
    if Under(logout, "/api/apod") { UnderLeading(logout, "/api/apod"); }
  }

  /** Only the POST to `/authenticate` is public; reading the token back with GET `/get-token` needs a login. */
  lemma GetTokenNeedsAuthentication(caller: Caller)
    ensures Decide(POST, "/authenticate", caller) == Permit
    ensures Decide(GET, "/get-token", caller) == if caller.Anonymous? then NeedsAuthentication else Permit
  {
    PublicRoutesArePermitted(POST, "/authenticate", caller);
    GetTokenIsNotPublic();
    FallbackNeedsOnlyAuthentication(GET, "/get-token", caller);
  }

  /** `/get-token` lies outside every public and every gated row. */
  lemma GetTokenIsNotPublic()
    ensures !IsPublic(GET, "/get-token") && !IsEmployeeRoute(GET, "/get-token") && !IsAdminRoute(GET, "/get-token")
  {
    var token := "/get-token";
    assert token[1] == 'g' && token[2] == 'e';
    assert !IsPublic(GET, token) by {
      if IsPublic(GET, token) { PublicLeadingChars(GET, token); }
    }
    assert !IsEmployeeRoute(GET, token) by {
      if Under(token, "/api/apod") { UnderLeading(token, "/api/apod"); }
    }
  }

  /** DELETE on the list route `/api/apods` lies outside the `/api/apod` subtree and needs no ADMIN authority. */
  lemma DeleteOnListRouteNeedsOnlyAuthentication(caller: Caller)
    ensures Decide(DELETE, "/api/apods", caller) == if caller.Anonymous? then NeedsAuthentication else Permit
  {
    if Under("/api/apods", "/api/apod") { StrictlyUnder("/api/apods", "/api/apod"); }
    if IsPublic(DELETE, "/api/apods") { PublicLeadingChars(DELETE, "/api/apods"); }
    FallbackNeedsOnlyAuthentication(DELETE, "/api/apods", caller);
  }
}
