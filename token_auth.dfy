/**
 * The server's bearer-token filter. A request whose `Authorization` header
 * is `Bearer <token>` (section 2.1 of RFC 6750) is authenticated when the
 * token is configured: a read-write token gets the read-write authorities
 * even if it is also listed as read-only, a read-only token the read-only
 * ones. The request always continues down the filter chain.
 */
module TokenAuth {
  import opened Wrappers
  import opened Text
  import AccessControl

  const BearerPrefix: string := "Bearer "

  /** The token after `Bearer `, when the header is present and starts with it. */
  function BearerToken(header: Option<string>): (r: Option<string>)
    ensures r.Some? <==> header.Some? && StartsWith(header.value, BearerPrefix)
    ensures r.Some? ==> header.value == BearerPrefix + r.value
  {
    if header.Some? && StartsWith(header.value, BearerPrefix) then
      assert header.value == header.value[..7] + header.value[7..];
      Some(header.value[7..])
    else None
  }

  /** A `Bearer` header built from a token yields that token. */
  lemma BearerRoundTrip(token: string)
    ensures BearerToken(Some(BearerPrefix + token)) == Some(token)
  {
    assert (BearerPrefix + token)[..7] == BearerPrefix;
  }

  /** The principal and the authorities of an authenticated request. */
  datatype Authentication = Authentication(principal: string, authorities: set<string>)

  /** `auth(token, rwTokens, …) ?: auth(token, roTokens, …)`. */
  function Authenticate(token: string, roTokens: set<string>, rwTokens: set<string>): (r: Option<Authentication>)
    ensures r.Some? <==> token in rwTokens || token in roTokens
    ensures r.Some? ==> r.value.principal == token
    ensures token in rwTokens ==> r.value.authorities == AccessControl.ReadWriteAuthorities
    ensures token !in rwTokens && token in roTokens ==> r.value.authorities == AccessControl.ReadOnlyAuthorities
  {
    if token in rwTokens then Some(Authentication(token, AccessControl.ReadWriteAuthorities))
    else if token in roTokens then Some(Authentication(token, AccessControl.ReadOnlyAuthorities))
    else None
  }

  /**
   * The authorities a header earns: a `Bearer` header whose token is
   * configured earns the read-write authorities when the token is read-write,
   * and the read-only ones otherwise; any other header earns none.
   */
  function Granted(header: Option<string>, roTokens: set<string>, rwTokens: set<string>): (r: Option<set<string>>)
    ensures r.Some? <==>
      (header.Some? && StartsWith(header.value, BearerPrefix) &&
       (header.value[7..] in rwTokens || header.value[7..] in roTokens))
    ensures r.Some? && header.value[7..] in rwTokens ==> r.value == AccessControl.ReadWriteAuthorities
    ensures r.Some? && header.value[7..] !in rwTokens ==> r.value == AccessControl.ReadOnlyAuthorities
  {
    match BearerToken(header)
    case None => None
    case Some(token) =>
      match Authenticate(token, roTokens, rwTokens)
      case None => None
      case Some(a) => Some(a.authorities)
  }

  /**
   * End to end with the configured lists: a read-write token may send, a
   * token listed read-only and not read-write may not, and a token written
   * with extra whitespace after `Bearer ` is never accepted, because the
   * configured tokens are trimmed.
   */
  lemma TokenAccess(token: string, roCsv: string, rwCsv: string, path: string)
    ensures token in AccessControl.TokensFromCsv(rwCsv) ==>
      AccessControl.Permitted(path, Granted(Some(BearerPrefix + token), AccessControl.TokensFromCsv(roCsv), AccessControl.TokensFromCsv(rwCsv)))
    ensures token !in AccessControl.TokensFromCsv(rwCsv) && token in AccessControl.TokensFromCsv(roCsv) ==>
      !AccessControl.Permitted("/send/meshPacket", Granted(Some(BearerPrefix + token), AccessControl.TokensFromCsv(roCsv), AccessControl.TokensFromCsv(rwCsv)))
    ensures token != [] && IsWhitespace(token[0]) ==>
      Granted(Some(BearerPrefix + token), AccessControl.TokensFromCsv(roCsv), AccessControl.TokensFromCsv(rwCsv)) == None
  {
    var ro, rw := AccessControl.TokensFromCsv(roCsv), AccessControl.TokensFromCsv(rwCsv);
    var header := BearerPrefix + token;
    assert header[7..] == token;
    var g := Granted(Some(header), ro, rw);
    AccessControl.PathAccess(path);
    AccessControl.PathAccess("/send/meshPacket");
    if token != [] && IsWhitespace(token[0]) {
      assert token !in rw && token !in ro;
    }
  }

  /** The security context the filter writes. */
  class SecurityContext {
    var authentication: Option<Authentication>

    constructor()
      ensures authentication == None
    {
      authentication := None;
    }
  }

  class TokenAuthFilter {
    const roTokens: set<string>
    const rwTokens: set<string>

    constructor(roTokens: set<string>, rwTokens: set<string>)
      ensures this.roTokens == roTokens && this.rwTokens == rwTokens
    {
      this.roTokens := roTokens;
      this.rwTokens := rwTokens;
    }

    /**
     * `doFilterInternal`: a recognised bearer token's authentication is saved
     * in the context; otherwise the context is left as it was. The chain
     * always continues.
     */
    method DoFilterInternal(context: SecurityContext, header: Option<string>) returns (proceed: bool)
      modifies context
      ensures proceed
      ensures var token := BearerToken(header);
        var a := if token.Some? then Authenticate(token.value, roTokens, rwTokens) else None;
        context.authentication == (if a.Some? then a else old(context.authentication))
    {
      if header.Some? && StartsWith(header.value, BearerPrefix) {
        var token := header.value[7..];
        var authentication := Authenticate(token, roTokens, rwTokens);
        if authentication.Some? {
          context.authentication := authentication;
        }
      }
      proceed := true;
    }
  }
}
