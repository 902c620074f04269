/**
 * recordion/models.py: the request and response bodies, and the validators
 * pydantic runs on them when they are built. Building a model is a function
 * that either gives the model or the validation error.
 */
module Models {
  import opened Wrappers
  import opened Constants
  import opened Utils

  /** Body of `POST /domains`. */
  datatype NewDomain = NewDomain(name: string)

  /** A domain as the API returns it. */
  datatype Domain = Domain(id: int, name: string)

  /** Body of `POST /records/{domain}`; an omitted `ttl` or `prio` is None. */
  datatype NewRecord = NewRecord(
    name: string,
    content: string,
    recordType: string,
    ttl: Option<int>,
    prio: Option<int>)

  /** Body of `PATCH /records/{domain}/{record_id}`: every field optional, none validated. */
  datatype UpdateRecord = UpdateRecord(content: Option<string>, ttl: Option<int>, prio: Option<int>)

  /** A record as the API returns it: `ttl` is required, and `can_edit` is added. */
  datatype Record = Record(
    id: int,
    domain: string,
    name: string,
    content: string,
    recordType: string,
    ttl: int,
    prio: Option<int>,
    canEdit: bool)

  /** Body of `POST /generate-token`. */
  datatype TokenRequest = TokenRequest(namespace: string)

  /** `NewDomain(name=...)`: the name must pass `validate_domain`. */
  function MakeNewDomain(name: string): (r: Result<NewDomain, NameError>)
    ensures r.Ok? <==> IsValidDomain(name)
    ensures r.Ok? ==> r.value.name == name
    ensures r.Err? ==> r.error == ValidateDomain(name).error
  {
    match ValidateDomain(name)
    case Err(e) => Err(e)
    case Ok(_) => Ok(NewDomain(name))
  }

  /** `Domain(id=..., name=...)` inherits the name validator of `NewDomain`. */
  function MakeDomain(id: int, name: string): (r: Result<Domain, NameError>)
    ensures r.Ok? <==> IsValidDomain(name)
    ensures r.Ok? ==> r.value == Domain(id, name)
  {
    match MakeNewDomain(name)
    case Err(e) => Err(e)
    case Ok(d) => Ok(Domain(id, d.name))
  }

  /** `NewRecord(...)`: the record name must pass `validate_domain`; content and type are free. */
  function MakeNewRecord(name: string, content: string, recordType: string, ttl: Option<int>, prio: Option<int>)
    : (r: Result<NewRecord, NameError>)
    ensures r.Ok? <==> IsValidDomain(name)
    ensures r.Ok? ==> r.value == NewRecord(name, content, recordType, ttl, prio)
    ensures r.Err? ==> r.error == ValidateDomain(name).error
  {
    match ValidateDomain(name)
    case Err(e) => Err(e)
    case Ok(_) => Ok(NewRecord(name, content, recordType, ttl, prio))
  }

  /** `Record(...)`: the name validator of `NewRecord` runs again; `ttl` is a plain int. */
  function MakeRecord(id: int, domain: string, name: string, content: string, recordType: string,
                      ttl: int, prio: Option<int>, canEdit: bool): (r: Result<Record, NameError>)
    ensures r.Ok? <==> IsValidDomain(name)
    ensures r.Ok? ==> r.value == Record(id, domain, name, content, recordType, ttl, prio, canEdit)
  {
    match MakeNewRecord(name, content, recordType, Some(ttl), prio)
    case Err(e) => Err(e)
    case Ok(n) => Ok(Record(id, domain, n.name, n.content, n.recordType, ttl, n.prio, canEdit))
  }

  /** `TokenRequest(namespace=...)`: the wildcard passes unchecked, anything else must be a valid domain. */
  function MakeTokenRequest(namespace: string): (r: Result<TokenRequest, NameError>)
    ensures r.Ok? <==> namespace == "*" || IsValidDomain(namespace)
    ensures r.Ok? ==> r.value.namespace == namespace
  {
    if namespace == "*" then Ok(TokenRequest(namespace))
    else match ValidateDomain(namespace)
      case Err(e) => Err(e)
      case Ok(_) => Ok(TokenRequest(namespace))
  }

  /** A namespace of a single label, such as a top-level domain, cannot be requested. */
  lemma SingleLabelNamespaceRejected(namespace: string)
    requires namespace != "*" && '.' !in namespace
    ensures MakeTokenRequest(namespace) == Err(InvalidName)
  {
    SingleLabelRejected(namespace);
  }

  /** `TokenRequest(namespace="com")` fails; `"*"` and `"example.com"` pass. */
  lemma TokenRequestExamples(name: string)
    requires name == "example.com"
    ensures MakeTokenRequest("com").Err?
    ensures MakeTokenRequest("*") == Ok(TokenRequest("*"))
    ensures MakeTokenRequest(name) == Ok(TokenRequest(name))
  {
    SingleLabelNamespaceRejected("com");
    ExampleComMatches(name);
  }
}
