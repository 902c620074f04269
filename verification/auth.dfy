/**
 * recordion/auth.py: the bearer-token check that sets the caller's namespace,
 * and `check_auth`, which decides whether that namespace may manage a domain.
 */
module Auth {
  import opened Wrappers
  import opened Text

  // ---------------------------------------------------------------------
  // check_auth
  // ---------------------------------------------------------------------

  /** `labels[-k:]` for `k >= 1`: the last `k` labels, or all of them when there are fewer. */
  function LastLabels(labels: seq<string>, k: nat): (r: seq<string>)
    requires k >= 1
    ensures |r| == if k < |labels| then k else |labels|
    ensures r == labels[|labels| - |r|..]
  {
    if k >= |labels| then labels else labels[|labels| - k..]
  }

  /**
   * `check_auth`: the wildcard namespace may manage anything; otherwise the
   * namespace must equal the domain's last k labels joined by dots, where k
   * is the namespace's own label count. Comparison is plain string equality.
   */
  predicate CheckAuth(namespace: string, domain: string)
  {
    || namespace == "*"
    || namespace == Join(LastLabels(Split(domain, '.'), Count(namespace, '.') + 1), '.')
  }

  /** The `HTTPException` raised on a denial, and the two the token check raises. */
  datatype AuthError =
    | MissingJwt      // 401 "Missing JWT"
    | InvalidJwt      // 403 "Invalid JWT"
    | DomainForbidden // 403 "Authorization for this domain invalid"

  function StatusCode(e: AuthError): (code: int)
    ensures code == 401 <==> e == MissingJwt
    ensures code == 401 || code == 403
  {
    match e
    case MissingJwt => 401
    case InvalidJwt => 403
    case DomainForbidden => 403
  }

  /** `check_auth(request, domain, do_raise)`: True on a grant; on a denial False, or the 403 when `do_raise`. */
  function CheckAuthOrRaise(namespace: string, domain: string, doRaise: bool): (r: Result<bool, AuthError>)
    ensures r == Ok(true) <==> CheckAuth(namespace, domain)
    ensures r == Ok(false) <==> !CheckAuth(namespace, domain) && !doRaise
    ensures r == Err(DomainForbidden) <==> !CheckAuth(namespace, domain) && doRaise
  {
    if CheckAuth(namespace, domain) then Ok(true)
    else if doRaise then Err(DomainForbidden)
    else Ok(false)
  }

  /** Every namespace may manage the domain of the same name. */
  lemma AuthOfItself(namespace: string)
    ensures CheckAuth(namespace, namespace)
  {
    SplitCount(namespace, '.');
    JoinSplit(namespace, '.');
    assert LastLabels(Split(namespace, '.'), Count(namespace, '.') + 1) == Split(namespace, '.');
  }

  /** Every namespace may manage the names below it. */
  lemma AuthOfSubdomain(rest: string, namespace: string)
    ensures CheckAuth(namespace, rest + ['.'] + namespace)
  {
    var labels := Split(rest + ['.'] + namespace, '.');
    SplitCount(namespace, '.');
    JoinSplit(namespace, '.');
    SplitAppend(rest, namespace, '.');
    assert labels == Split(rest, '.') + Split(namespace, '.');
    assert LastLabels(labels, Count(namespace, '.') + 1) == Split(namespace, '.');
  }

  /** A grant to a namespace other than the wildcard is a grant to the domain itself or to a name below it. */
  lemma GrantIsItselfOrBelow(namespace: string, domain: string)
    requires namespace != "*" && CheckAuth(namespace, domain)
    ensures domain == namespace || EndsWith(domain, "." + namespace)
  {
    var labels := Split(domain, '.');
    var tail := LastLabels(labels, Count(namespace, '.') + 1);
    assert namespace == Join(tail, '.');
    JoinSplit(domain, '.');
    if |tail| < |labels| {
      var head := labels[..|labels| - |tail|];
      assert labels == head + tail;
      JoinAppend(head, tail, '.');
      EndsWithAppend(Join(head, '.'), "." + namespace);
      assert domain == Join(head, '.') + ("." + namespace);
    }
  }

  /**
   * The authorisation respects label boundaries: a namespace other than the
   * wildcard grants exactly the domain itself and the names that end in a dot
   * followed by the namespace.
   */
  lemma CheckAuthIsLabelSuffix(namespace: string, domain: string)
    ensures CheckAuth(namespace, domain) <==> namespace == "*" || domain == namespace || EndsWith(domain, "." + namespace)
  {
    if namespace != "*" && CheckAuth(namespace, domain) {
      GrantIsItselfOrBelow(namespace, domain);
    }
    if domain == namespace {
      AuthOfItself(namespace);
    } else if EndsWith(domain, "." + namespace) {
      var rest := domain[..|domain| - |namespace| - 1];
      assert domain == rest + ['.'] + namespace;
      AuthOfSubdomain(rest, namespace);
    }
  }

  /** A namespace with more labels than the domain never authorises it (other than the wildcard). */
  lemma LongerNamespaceDenied(namespace: string, domain: string)
    requires namespace != "*"
    requires Count(namespace, '.') > Count(domain, '.')
    ensures !CheckAuth(namespace, domain)
  {
    SplitCount(domain, '.');
    JoinSplit(domain, '.');
  }

  /** `example.com` grants `a.example.com`. */
  lemma CheckAuthGrantExample(namespace: string, domain: string)
    requires namespace == "example.com" && domain == "a.example.com"
    ensures CheckAuth(namespace, domain)
  {
    assert domain == "a" + ['.'] + namespace;
    AuthOfSubdomain("a", namespace);
  }

  /** `example.com` does not grant `notexample.com`: the suffix must start at a label. */
  lemma CheckAuthDenyExamples(namespace: string, domain: string)
    requires namespace == "example.com" && domain == "notexample.com"
    ensures !CheckAuth(namespace, domain)
  {
    CheckAuthIsLabelSuffix(namespace, domain);
    assert domain[2] != ("." + namespace)[0];
  }

  /** Case matters: `Example.com` does not grant `example.com`. */
  lemma CheckAuthIsCaseSensitive(namespace: string, domain: string)
    requires namespace == "Example.com" && domain == "example.com"
    ensures !CheckAuth(namespace, domain)
  {
    CheckAuthIsLabelSuffix(namespace, domain);
    assert domain[0] != namespace[0];
  }

  // ---------------------------------------------------------------------
  // JWTBearer.__call__
  // ---------------------------------------------------------------------

  /** The claims of a decoded token. */
  type Claims = map<string, string>

  /**
   * What the token check makes of a bearer token, given what decoding it
   * yields (None where the signature or format is refused): the caller's
   * namespace, the `"n"` claim.
   */
  function TokenNamespace(token: string, decoded: Option<Claims>): (r: Result<string, AuthError>)
    ensures r == Err(MissingJwt) <==> token == ""
    ensures r == Err(InvalidJwt) <==> token != "" && (decoded.None? || "n" !in decoded.value)
    ensures r.Ok? <==> token != "" && decoded.Some? && "n" in decoded.value
    ensures r.Ok? ==> r.value == decoded.value["n"]
  {
    if token == "" then Err(MissingJwt)
    else match decoded
      case None => Err(InvalidJwt)
      case Some(claims) =>
        if "n" !in claims then Err(InvalidJwt) else Ok(claims["n"])
  }

  /** `request.state`: the namespace the token check stores for the handlers. */
  class RequestState {
    var authNamespace: Option<string>

    constructor ()
      ensures authNamespace == None
    {
      authNamespace := None;
    }

    /**
     * `JWTBearer.__call__`: returns the token; the namespace is stored only
     * when the token is accepted. `decode` stands for `jwt.decode` with the
     * server's key and HS256.
     */
    method Authorize(token: string, decode: string -> Option<Claims>) returns (r: Result<string, AuthError>)
      modifies this
      ensures r.Ok? <==> TokenNamespace(token, decode(token)).Ok?
      ensures r.Ok? ==> r.value == token && authNamespace == Some(TokenNamespace(token, decode(token)).value)
      ensures r.Err? ==> r.error == TokenNamespace(token, decode(token)).error && authNamespace == old(authNamespace)
    {
      if token == "" {
        return Err(MissingJwt);
      }
      var decoded := decode(token);
      if decoded.None? {
        return Err(InvalidJwt);
      }
      if "n" !in decoded.value {
        return Err(InvalidJwt);
      }
      authNamespace := Some(decoded.value["n"]);
      r := Ok(token);
    }
  }
}
