/**
 * The older bearer-token filter: the configuration maps each token to its
 * own list of authorities, and a recognised token gets exactly that list.
 */
module LegacyTokenAuth {
  import opened Wrappers
  import opened Text
  import AccessControl
  import TokenAuth

  /** The authorities a configured token is granted: its own list, as the set the authority checks see. */
  function Authenticate(token: string, tokens: map<string, seq<string>>): (r: Option<TokenAuth.Authentication>)
    ensures r.Some? <==> token in tokens
    ensures r.Some? ==> r.value.principal == token && forall a :: a in r.value.authorities <==> a in tokens[token]
  {
    if token in tokens then Some(TokenAuth.Authentication(token, set a | a in tokens[token])) else None
  }

  /**
   * The two filters agree when the map gives every read-write token the
   * read-write authorities and every other read-only token the read-only
   * ones.
   */
  lemma AgreesWithServer(token: string, tokens: map<string, seq<string>>, roTokens: set<string>, rwTokens: set<string>)
    requires tokens.Keys == roTokens + rwTokens
    requires forall t :: t in rwTokens ==> (set a | a in tokens[t]) == AccessControl.ReadWriteAuthorities
    requires forall t :: t in roTokens && t !in rwTokens ==> (set a | a in tokens[t]) == AccessControl.ReadOnlyAuthorities
    ensures Authenticate(token, tokens) == TokenAuth.Authenticate(token, roTokens, rwTokens)
  {
  }

  class TokenAuthFilter {
    const tokens: map<string, seq<string>>

    constructor(tokens: map<string, seq<string>>)
      ensures this.tokens == tokens
    {
      this.tokens := tokens;
    }

    /**
     * `doFilterInternal`: a recognised bearer token's authentication is saved
     * both in the request's attribute store and in the context; otherwise
     * neither changes. The chain always continues.
     */
    method DoFilterInternal(context: TokenAuth.SecurityContext, requestContext: TokenAuth.SecurityContext,
                            header: Option<string>) returns (proceed: bool)
      modifies context, requestContext
      ensures proceed
      ensures var token := TokenAuth.BearerToken(header);
        var a := if token.Some? then Authenticate(token.value, tokens) else None;
        context.authentication == (if a.Some? then a else old(context.authentication)) &&
        requestContext.authentication == (if a.Some? then a else old(requestContext.authentication))
    {
      if header.Some? && StartsWith(header.value, TokenAuth.BearerPrefix) {
        var token := header.value[7..];
        if token in tokens {
          var authentication := Authenticate(token, tokens);
          requestContext.authentication := authentication;
          context.authentication := authentication;
        }
      }
      proceed := true;
    }
  }
}
