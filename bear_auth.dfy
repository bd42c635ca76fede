/** The admission decision of the bearer-token middleware
    (src/middlewares/bearAuth.ts). Token verification (a JWT library) is a
    parameter `verify` that gives the decoded token, or None whenever the
    library throws. */
module BearAuth {
  import opened Common

  datatype DecodedToken = DecodedToken(userId: string, regNo: string, role: string, name: string, exp: int)

  datatype AllowedRoles = AnyRole | Only(roles: seq<string>)

  datatype AuthOutcome =
    | Unauthorized(message: string)   // 401
    | Forbidden(message: string)      // 403
    | Admitted(user: DecodedToken)    // req.user set, next() called

  const TokenMissing: string := "Authorization token is missing"
  const TokenInvalid: string := "Invalid or expired token"
  const NoPermission: string := "Forbidden: You do not have permission to access this resource"
  const Scheme: string := "Bearer "

  /** `pattern` occurs in `s` starting at position `j`. */
  predicate OccursAt(s: string, pattern: string, j: int) {
    0 <= j && j + |pattern| <= |s| && s[j..j + |pattern|] == pattern
  }

  /** The first position at which `pattern` occurs in `s`. */
  function FindFirst(s: string, pattern: string): (r: Option<nat>)
    requires |pattern| > 0
    ensures r.Some? ==> OccursAt(s, pattern, r.value)
    ensures r.Some? ==> forall j :: 0 <= j < r.value ==> !OccursAt(s, pattern, j)
    ensures r.None? ==> forall j :: !OccursAt(s, pattern, j)
    decreases |s|
  {
    if |s| < |pattern| then None
    else if s[..|pattern|] == pattern then Some(0)
    else
      var rest := FindFirst(s[1..], pattern);
      forall j | 1 <= j ensures OccursAt(s, pattern, j) == OccursAt(s[1..], pattern, j - 1) {
        if j + |pattern| <= |s| {
          var here := s[j..j + |pattern|];
          var there := s[1..][j - 1..j - 1 + |pattern|];
          forall k | 0 <= k < |pattern| ensures here[k] == there[k] {
            assert s[1..][j - 1 + k] == s[j + k];
          }
          assert here == there;
        }
      }
      assert !OccursAt(s, pattern, 0);
      if rest.None? then None else Some(rest.value + 1)
  }

  /** `s.replace(pattern, "")` with a string pattern: only the first
      occurrence, wherever it is, is removed. */
  function RemoveFirst(s: string, pattern: string): (r: string)
    requires |pattern| > 0
    ensures FindFirst(s, pattern).None? ==> r == s
    ensures FindFirst(s, pattern).Some? ==>
      var k := FindFirst(s, pattern).value;
      r == s[..k] + s[k + |pattern|..] && |r| == |s| - |pattern|
  {
    var k := FindFirst(s, pattern);
    if k.None? then s else s[..k.value] + s[k.value + |pattern|..]
  }

  /** The token the middleware reads from the Authorization header. */
  function TokenOf(header: Option<string>): Option<string> {
    if header.None? then None else Some(RemoveFirst(header.value, Scheme))
  }

  /** `authMiddleware(allowedRoles)` applied to one request. */
  function Admission(allowed: AllowedRoles, header: Option<string>, verify: string -> Option<DecodedToken>): (r: AuthOutcome)
    ensures r == Unauthorized(TokenMissing) <==> TokenOf(header).None? || TokenOf(header).value == ""
    ensures r == Unauthorized(TokenInvalid) <==> TokenOf(header).Some? && TokenOf(header).value != "" && verify(TokenOf(header).value).None?
    ensures r.Admitted? <==>
      && TokenOf(header).Some? && TokenOf(header).value != ""
      && verify(TokenOf(header).value).Some?
      && (allowed.AnyRole? || verify(TokenOf(header).value).value.role in allowed.roles)
    ensures r.Admitted? ==> r.user == verify(TokenOf(header).value).value
    ensures r == Forbidden(NoPermission) <==>
      && TokenOf(header).Some? && TokenOf(header).value != ""
      && verify(TokenOf(header).value).Some?
      && allowed.Only? && verify(TokenOf(header).value).value.role !in allowed.roles
    ensures r.Unauthorized? || r.Forbidden? ==> r == Unauthorized(TokenMissing) || r == Unauthorized(TokenInvalid) || r == Forbidden(NoPermission)
  {
    var token := TokenOf(header);
    if token.None? || token.value == "" then Unauthorized(TokenMissing)
    else
      var decoded := verify(token.value);
      if decoded.None? then Unauthorized(TokenInvalid)
      else if allowed.AnyRole? || decoded.value.role in allowed.roles then Admitted(decoded.value)
      else Forbidden(NoPermission)
  }

  const AdminAuth: AllowedRoles := Only(["admin"])
  const VoterAuth: AllowedRoles := Only(["voter"])
  const DeanAuth: AllowedRoles := Only([
    "Dean_of_Science", "Dean_of_Education", "Dean_of_Business",
    "Dean_of_Humanities_and_Developmental_Studies", "Dean_of_TVET", "Dean_of_Students"])
  const AnyAuthenticatedUser: AllowedRoles := AnyRole

  /** A header "Bearer <token>" yields the token itself. */
  lemma BearerPrefixStripped(token: string)
    ensures TokenOf(Some(Scheme + token)) == Some(token)
  {
    var h := Scheme + token;
    assert h[..|Scheme|] == Scheme;
    assert FindFirst(h, Scheme) == Some(0);
    assert h[..0] + h[|Scheme|..] == token;
    assert RemoveFirst(h, Scheme) == token;
  }

  /** A header that never mentions the scheme is taken whole as the token. */
  lemma RawTokenAccepted(token: string)
    requires forall j :: !OccursAt(token, Scheme, j)
    ensures TokenOf(Some(token)) == Some(token)
  {
  }

  /** The scheme is removed wherever it first occurs, not only in front:
      "x" + "Bearer " + "y" yields the token "xy". */
  lemma SchemeRemovedAnywhere(a: string, b: string)
    requires forall j :: 0 <= j < |a| ==> !OccursAt(a + Scheme + b, Scheme, j)
    ensures TokenOf(Some(a + Scheme + b)) == Some(a + b)
  {
    var h := a + Scheme + b;
    assert h[|a|..|a| + |Scheme|] == Scheme;
    assert OccursAt(h, Scheme, |a|);
    var k := FindFirst(h, Scheme);
    assert k == Some(|a|);
    assert h[..|a|] == a && h[|a| + |Scheme|..] == b;
  }

  /** The scheme with nothing after it counts as a missing token. */
  lemma EmptyBearerIsMissing(allowed: AllowedRoles, verify: string -> Option<DecodedToken>)
    ensures Admission(allowed, Some(Scheme), verify) == Unauthorized(TokenMissing)
  {
    BearerPrefixStripped("");
  }

  /** With a role list, a verified token is let through exactly when its role
      is listed; the role sets of the three guards. */
  lemma RoleGuards(header: Option<string>, verify: string -> Option<DecodedToken>, role: string)
    requires TokenOf(header).Some? && TokenOf(header).value != ""
    requires verify(TokenOf(header).value).Some? && verify(TokenOf(header).value).value.role == role
    ensures Admission(AdminAuth, header, verify).Admitted? <==> role == "admin"
    ensures Admission(VoterAuth, header, verify).Admitted? <==> role == "voter"
    ensures Admission(DeanAuth, header, verify).Admitted? <==> role in DeanAuth.roles
    ensures Admission(AnyAuthenticatedUser, header, verify).Admitted?
    ensures !Admission(DeanAuth, header, verify).Admitted? ==> Admission(DeanAuth, header, verify) == Forbidden(NoPermission)
  {
  }

  /** The request as the middleware sees it; `user` is what it attaches. */
  class Request {
    const authorization: Option<string>
    var user: Option<DecodedToken>

    constructor (header: Option<string>)
      ensures authorization == header && user == None
    {
      authorization := header;
      user := None;
    }

    /** Runs the middleware: on admission the decoded token is attached and
        the next handler runs; otherwise the request is answered with the
        outcome and left as it was. */
    method Authenticate(allowed: AllowedRoles, verify: string -> Option<DecodedToken>)
      returns (outcome: AuthOutcome, callsNext: bool)
      modifies this
      ensures outcome == Admission(allowed, authorization, verify)
      ensures callsNext <==> outcome.Admitted?
      ensures outcome.Admitted? ==> user == Some(outcome.user)
      ensures !outcome.Admitted? ==> user == old(user)
    {
      outcome := Admission(allowed, authorization, verify);
      callsNext := outcome.Admitted?;
      if callsNext {
        user := Some(outcome.user);
      }
    }
  }
}
