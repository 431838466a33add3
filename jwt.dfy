// Token issue at POST /authenticate and GET /get-token: the claim set built
// for an authenticated user, and the authorities a bearer of that token is
// granted when it comes back. Instants are counted in nanoseconds since the
// epoch; the two clock readings the issuer takes and the signing step are
// parameters.
module JwtAuthentication {
  import opened Strings
  import SecurityConfiguration

  /** A point in time: nanoseconds since the epoch. */
  type Instant = int

  const NanosPerSecond: int := 1_000_000_000
  const TokenLifetimeSeconds: int := 60 * 30
  const Issuer: string := "self"

  /** The authenticated principal: its name and its granted authorities in iteration order. */
  datatype Authentication = Authentication(name: string, authorities: seq<string>)

  datatype ClaimValue = Text(text: string) | Time(instant: Instant)

  type Claims = map<string, ClaimValue>

  /** The JSON body `{"token": ...}` of POST /authenticate. */
  datatype JwtResponse = JwtResponse(token: string)

  function PlusSeconds(t: Instant, seconds: int): Instant
  {
    t + seconds * NanosPerSecond
  }

  /** The authority strings joined by a single space, in iteration order. */
  function CreateScope(authentication: Authentication): (scope: string)
    ensures |authentication.authorities| == 0 ==> scope == ""
    ensures |authentication.authorities| == 1 ==> scope == authentication.authorities[0]
  {
    Join(" ", authentication.authorities)
  }

  /** Splitting the scope on spaces gives back the authorities, when none of them contains a space. */
  lemma ScopeRoundTrip(authentication: Authentication)
    requires |authentication.authorities| >= 1
    requires forall i :: 0 <= i < |authentication.authorities| ==> ' ' !in authentication.authorities[i]
    ensures SplitOn(CreateScope(authentication), ' ') == authentication.authorities
  {
    SplitOnJoin(authentication.authorities, ' ');
  }

  /**
   * The claim set of a new token. `issuedAtReading` and `expiryReading` are the
   * two clock readings the issuer takes, one for `iat` and one for `exp`.
   */
  function CreateClaims(authentication: Authentication, issuedAtReading: Instant, expiryReading: Instant): (claims: Claims)
    ensures claims.Keys == {"iss", "iat", "exp", "sub", "scope"}
    ensures claims["iss"] == Text(Issuer)
    ensures claims["sub"] == Text(authentication.name)
    ensures claims["scope"] == Text(CreateScope(authentication))
    ensures claims["iat"] == Time(issuedAtReading)
    ensures claims["exp"] == Time(expiryReading + TokenLifetimeSeconds * NanosPerSecond)
  {
    map[
      "iss" := Text(Issuer),
      "iat" := Time(issuedAtReading),
      "exp" := Time(PlusSeconds(expiryReading, TokenLifetimeSeconds)),
      "sub" := Text(authentication.name),
      "scope" := Text(CreateScope(authentication))
    ]
  }

  /**
   * The token lives 30 minutes from issue: exactly when the two clock readings
   * coincide, and at least that long when the clock does not run backwards.
   */
  lemma TokenLifetime(authentication: Authentication, issuedAtReading: Instant, expiryReading: Instant)
    requires issuedAtReading <= expiryReading
    ensures var claims := CreateClaims(authentication, issuedAtReading, expiryReading);
      claims["exp"].instant - claims["iat"].instant >= 1800 * NanosPerSecond &&
      (issuedAtReading == expiryReading ==> claims["exp"].instant - claims["iat"].instant == 1800 * NanosPerSecond)
  {
  }

  /**
   * GET /get-token: the signed token as a plain string. `getToken` only returns
   * what the private `createToken` builds, so the two are one function here;
   * `encode` stands for the signing encoder.
   */
  function GetToken(authentication: Authentication, issuedAtReading: Instant, expiryReading: Instant,
                    encode: Claims -> string): (token: string)
    ensures token == encode(CreateClaims(authentication, issuedAtReading, expiryReading))
  {
    encode(CreateClaims(authentication, issuedAtReading, expiryReading))
  }

  /** POST /authenticate: the same token, wrapped in the response record. */
  function Authenticate(authentication: Authentication, issuedAtReading: Instant, expiryReading: Instant,
                        encode: Claims -> string): (r: JwtResponse)
    ensures r.token == GetToken(authentication, issuedAtReading, expiryReading, encode)
  {
    JwtResponse(GetToken(authentication, issuedAtReading, expiryReading, encode))
  }

  /**
   * The authorities a valid bearer token confers, as the resource server
   * derives them: each space-separated entry of the `scope` claim with
   * `SCOPE_` in front, and none for an empty scope.
   */
  function BearerAuthorities(claims: Claims): (authorities: set<string>)
    ensures forall a :: a in authorities ==> "SCOPE_" <= a
  {
    if "scope" in claims && claims["scope"].Text? && claims["scope"].text != "" then
      var entries := SplitOn(claims["scope"].text, ' ');
      set i | 0 <= i < |entries| :: "SCOPE_" + entries[i]
    else {}
  }

  /** Authority names the scope can carry through: non-empty and without spaces. */
  predicate ScopeSafe(authorities: seq<string>)
  {
    forall i :: 0 <= i < |authorities| ==> authorities[i] != "" && ' ' !in authorities[i]
  }

  lemma {:induction false} JoinNonEmpty(xs: seq<string>)
    requires |xs| >= 1 && xs[0] != ""
    ensures Join(" ", xs) != ""
  {
    if |xs| > 1 {
      assert Join(" ", xs) == xs[0] + " " + Join(" ", xs[1..]);
      assert Join(" ", xs)[0] == xs[0][0];
    }
  }

  /** A token issued to a user grants its bearer each of the user's authorities, prefixed with `SCOPE_`. */
  lemma BearerOfIssuedToken(authentication: Authentication, issuedAtReading: Instant, expiryReading: Instant)
    requires |authentication.authorities| >= 1 && ScopeSafe(authentication.authorities)
    ensures BearerAuthorities(CreateClaims(authentication, issuedAtReading, expiryReading)) ==
      set i | 0 <= i < |authentication.authorities| :: "SCOPE_" + authentication.authorities[i]
  {
    JoinNonEmpty(authentication.authorities);
    ScopeRoundTrip(authentication);
  }

  /** A token issued to a user without authorities grants its bearer none. */
  lemma BearerOfTokenWithoutAuthorities(authentication: Authentication, issuedAtReading: Instant, expiryReading: Instant)
    requires |authentication.authorities| == 0
    ensures BearerAuthorities(CreateClaims(authentication, issuedAtReading, expiryReading)) == {}
  {
  }

  /** The bearer of an issued token holds `SCOPE_` + role exactly when the user held role. */
  lemma BearerHoldsRole(authentication: Authentication, issuedAtReading: Instant, expiryReading: Instant,
                        role: string)
    requires |authentication.authorities| >= 1 && ScopeSafe(authentication.authorities)
    ensures "SCOPE_" + role in BearerAuthorities(CreateClaims(authentication, issuedAtReading, expiryReading))
      <==> role in authentication.authorities
  {
    BearerOfIssuedToken(authentication, issuedAtReading, expiryReading);
    var authorities := authentication.authorities;
    if "SCOPE_" + role in BearerAuthorities(CreateClaims(authentication, issuedAtReading, expiryReading)) {
      var i :| 0 <= i < |authorities| && "SCOPE_" + authorities[i] == "SCOPE_" + role;
      assert authorities[i] == ("SCOPE_" + authorities[i])[6..];
      assert role == ("SCOPE_" + role)[6..];
    }
    if role in authorities {
      var i :| 0 <= i < |authorities| && authorities[i] == role;
      assert "SCOPE_" + authorities[i] in BearerAuthorities(CreateClaims(authentication, issuedAtReading, expiryReading));
    }
  }

  /** The bearer of an employee's token passes every employee-gated route. */
  lemma EmployeeTokenPassesEmployeeRoutes(authentication: Authentication, issuedAtReading: Instant,
                                          expiryReading: Instant, path: string)
    requires ScopeSafe(authentication.authorities) && "ROLE_EMPLOYEE" in authentication.authorities
    requires SecurityConfiguration.IsEmployeeRoute(SecurityConfiguration.GET, path)
    ensures SecurityConfiguration.Decide(SecurityConfiguration.GET, path,
      SecurityConfiguration.Authenticated(BearerAuthorities(CreateClaims(authentication, issuedAtReading, expiryReading))))
      == SecurityConfiguration.Permit
  {
    BearerHoldsRole(authentication, issuedAtReading, expiryReading, "ROLE_EMPLOYEE");
    assert "SCOPE_" + "ROLE_EMPLOYEE" == "SCOPE_ROLE_EMPLOYEE";
    var authorities := BearerAuthorities(CreateClaims(authentication, issuedAtReading, expiryReading));
    SecurityConfiguration.EmployeeRoutesGate(SecurityConfiguration.GET, path, authorities);
  }

  /**
   * The bearer of a token issued to an administrator who is not also an
   * employee may delete an APOD, but is refused reading it.
   */
  lemma AdminOnlyToken(authentication: Authentication, issuedAtReading: Instant, expiryReading: Instant,
                       path: string)
    requires ScopeSafe(authentication.authorities)
    requires "ROLE_ADMIN" in authentication.authorities && "ROLE_EMPLOYEE" !in authentication.authorities
    requires SecurityConfiguration.Under(path, "/api/apod")
    ensures var authorities := BearerAuthorities(CreateClaims(authentication, issuedAtReading, expiryReading));
      SecurityConfiguration.Decide(SecurityConfiguration.DELETE, path, SecurityConfiguration.Authenticated(authorities))
        == SecurityConfiguration.Permit &&
      SecurityConfiguration.Decide(SecurityConfiguration.GET, path, SecurityConfiguration.Authenticated(authorities))
        == SecurityConfiguration.Forbidden
  {
    var authorities := BearerAuthorities(CreateClaims(authentication, issuedAtReading, expiryReading));
    BearerHoldsRole(authentication, issuedAtReading, expiryReading, "ROLE_ADMIN");
    BearerHoldsRole(authentication, issuedAtReading, expiryReading, "ROLE_EMPLOYEE");
    assert "SCOPE_" + "ROLE_ADMIN" == "SCOPE_ROLE_ADMIN";
    assert "SCOPE_" + "ROLE_EMPLOYEE" == "SCOPE_ROLE_EMPLOYEE";
    assert "ROLE_EMPLOYEE" !in authorities by {
      assert !("SCOPE_" <= "ROLE_EMPLOYEE") by { assert "ROLE_EMPLOYEE"[0] == 'R'; }
    }
    SecurityConfiguration.AdminRoutesGate(SecurityConfiguration.DELETE, path, authorities);
    SecurityConfiguration.EmployeeRoutesGate(SecurityConfiguration.GET, path, authorities);
  }
}
