/**
 * The request handlers of recordion/app.py, each as a function from the
 * tables before the request to the tables after it and the response; the
 * methods of module App run the same steps on a connection and are proved
 * to agree with these. `namespace` is the caller's namespace, as the
 * token check stored it.
 */
module Handlers {
  import opened Wrappers
  import opened Text
  import opened Constants
  import opened Db
  import opened Utils
  import opened Models
  import opened Auth

  /** The errors a handler ends with; each maps to the status code of its `HTTPException`. */
  datatype Failure =
    | Forbidden                          // 403 from check_auth
    | DomainExists                       // 409 "Domain already exists"
    | DomainNotFound                     // 404 "Domain not found"
    | RecordNotFound                     // 404 "Record not found"
    | NameOutsideDomain                  // 400 "Record name must be part of the domain"
    | TypeNotAllowed                     // 400 "Record type is not allowed ..."
    | RecordExists(id: int)              // 409 "Record already exists (id)"
    | RecordLocked                       // 400 "Record cannot be edited" / "... deleted"
    | WildcardRequired                   // 403 "Require wildcard token"
    | SerialBumpFailed(error: BumpError) // 500: bump_serial raised
    | InvalidResponse                    // 500: a name read back fails the response model's validator

  function StatusCode(f: Failure): (code: int)
    ensures code in {400, 403, 404, 409, 500}
    ensures code == 500 <==> f.SerialBumpFailed? || f.InvalidResponse?
  {
    match f
    case Forbidden => 403
    case DomainExists => 409
    case DomainNotFound => 404
    case RecordNotFound => 404
    case NameOutsideDomain => 400
    case TypeNotAllowed => 400
    case RecordExists(_) => 409
    case RecordLocked => 400
    case WildcardRequired => 403
    case SerialBumpFailed(_) => 500
    case InvalidResponse => 500
  }

  // ---------------------------------------------------------------------
  // Python truthiness: `a or b`
  // ---------------------------------------------------------------------

  /** An optional int is truthy when present and non-zero. */
  predicate IntTruthy(v: Option<int>)
  {
    v.Some? && v.value != 0
  }

  /** `v or fallback` for an optional int and an int. */
  function IntOr(v: Option<int>, fallback: int): int
  {
    if IntTruthy(v) then v.value else fallback
  }

  /** `v or fallback` for two optional ints. */
  function PrioOr(v: Option<int>, fallback: Option<int>): Option<int>
  {
    if IntTruthy(v) then v else fallback
  }

  /** `v or fallback` for an optional string: None and "" are falsy. */
  function StrOr(v: Option<string>, fallback: string): string
  {
    if v.Some? && v.value != "" then v.value else fallback
  }

  // ---------------------------------------------------------------------
  // Shared steps
  // ---------------------------------------------------------------------

  /** `domain_id = fetchval("SELECT id FROM domains WHERE name = $1")` and `if not domain_id: 404`. */
  function LookupDomain(t: Tables, domain: string): (r: Result<int, Failure>)
    ensures r.Ok? <==> SelectDomainId(t, domain).Some? && SelectDomainId(t, domain).value != 0
    ensures r.Ok? ==> r.value == SelectDomainId(t, domain).value
    ensures r.Err? ==> r.error == DomainNotFound
  {
    match SelectDomainId(t, domain)
    case None => Err(DomainNotFound)
    case Some(id) => if id == 0 then Err(DomainNotFound) else Ok(id)
  }

  /** `fetch("SELECT * FROM records WHERE domain_id = $1 AND id = $2")[0]`, or the 404 when there is none. */
  function LookupRecord(t: Tables, domainId: int, recordId: int): (r: Result<RecordRow, Failure>)
    ensures r.Ok? ==> r.value in t.records && r.value.domainId == domainId && r.value.id == recordId
    ensures r.Err? <==> forall j :: 0 <= j < |t.records| ==> !(t.records[j].domainId == domainId && t.records[j].id == recordId)
    ensures r.Err? ==> r.error == RecordNotFound
  {
    match SelectRecord(t, IdInDomain(domainId, recordId))
    case None => Err(RecordNotFound)
    case Some(row) => Ok(row)
  }

  /** With unique ids, the row `LookupRecord` finds is the only one with that id. */
  lemma IdInDomainIsTheRow(t: Tables, domainId: int, recordId: int, j: int)
    requires UniqueRecordIds(t.records) && LookupRecord(t, domainId, recordId).Ok?
    requires 0 <= j < |t.records| && t.records[j].id == recordId
    ensures t.records[j] == LookupRecord(t, domainId, recordId).value
  {
  }

  /** The six fields of a new zone's SOA content. */
  function SoaFields(cfg: Config): seq<string>
  {
    [cfg.soaMname, cfg.soaRname, "1", IntToString(cfg.soaRefresh), IntToString(cfg.soaRetry), IntToString(cfg.soaExpire)]
  }

  /** The SOA content a new zone starts with: `f"{MNAME} {RNAME} 1 {REFRESH} {RETRY} {EXPIRE}"`, the fields joined by spaces. */
  function SoaContent(cfg: Config): string
  {
    Join(SoaFields(cfg), ' ')
  }

  /** Settings under which the SOA content has its fields where `bump_serial` looks for them. */
  predicate SoaNamesAreWords(cfg: Config)
  {
    IsWord(cfg.soaMname) && IsWord(cfg.soaRname)
  }

  /** A new zone's SOA content splits back into its six fields, and its serial is 1. */
  lemma SoaContentFields(cfg: Config)
    requires SoaNamesAreWords(cfg)
    ensures Words(SoaContent(cfg)) == SoaFields(cfg)
    ensures Serial(SoaContent(cfg)) == Some(1)
  {
    var fields := SoaFields(cfg);
    IntToStringIsWord(cfg.soaRefresh);
    IntToStringIsWord(cfg.soaRetry);
    IntToStringIsWord(cfg.soaExpire);
    ParseIntToString(1);
    assert IntToString(1) == "1";
    assert forall i :: 0 <= i < |fields| ==> IsWord(fields[i]);
    WordsJoin(fields);
  }

  // ---------------------------------------------------------------------
  // POST /domains
  // ---------------------------------------------------------------------

  /**
   * `create_domain`: insert the domain, then its SOA record (named like the
   * domain, serial 1, SOA ttl, no priority). A name already taken is a 409
   * and no row is added. The body has passed the `NewDomain` validator.
   */
  function CreateDomain(cfg: Config, t: Tables, namespace: string, body: NewDomain): (Tables, Result<Domain, Failure>)
    requires IsValidDomain(body.name)
  {
    if !CheckAuth(namespace, body.name) then (t, Err(Forbidden))
    else
      var (t1, id) := InsertDomainRow(t, body.name);
      if id.None? then (t1, Err(DomainExists))
      else
        var (t2, _) := InsertRecordRow(t1, id.value, body.name, SoaContent(cfg), "SOA", cfg.soaTtl, None);
        (t2, Ok(Domain(id.value, body.name)))
  }

  /** The SOA row `create_domain` writes for a new domain. */
  function NewSoaRow(cfg: Config, t: Tables, name: string): RecordRow
  {
    RecordRow(t.nextRecordId, t.nextDomainId, name, SoaContent(cfg), "SOA", cfg.soaTtl, None)
  }

  /**
   * The outcomes of `create_domain`: a 403 without the grant, a 409 when the
   * name is taken (no row added, one domain id used up), otherwise the
   * domain row and its SOA row appended with fresh ids.
   */
  lemma CreateDomainOutcome(cfg: Config, t: Tables, namespace: string, body: NewDomain)
    requires IsValidDomain(body.name)
    ensures var (t', r) := CreateDomain(cfg, t, namespace, body);
            && (r == Err(Forbidden) <==> !CheckAuth(namespace, body.name))
            && (r == Err(DomainExists) <==> CheckAuth(namespace, body.name) && exists i :: 0 <= i < |t.domains| && t.domains[i].name == body.name)
            && (r.Err? ==> t'.domains == t.domains && t'.records == t.records)
            && (r.Ok? ==> r.value == Domain(t.nextDomainId, body.name)
                          && t'.domains == t.domains + [DomainRow(t.nextDomainId, body.name)]
                          && t'.records == t.records + [NewSoaRow(cfg, t, body.name)]
                          && t'.nextDomainId == t.nextDomainId + 1 && t'.nextRecordId == t.nextRecordId + 1)
  {
  }

  /**
   * When no record yet refers to the new id, the new zone holds exactly one
   * record, its SOA row, and the zone's serial is 1.
   */
  lemma CreateDomainStartsZone(cfg: Config, t: Tables, namespace: string, body: NewDomain)
    requires IsValidDomain(body.name) && SoaNamesAreWords(cfg)
    requires forall j :: 0 <= j < |t.records| ==> t.records[j].domainId != t.nextDomainId
    requires CreateDomain(cfg, t, namespace, body).1.Ok?
    ensures var t' := CreateDomain(cfg, t, namespace, body).0;
            && DeleteWhere(t'.records, InDomain(t.nextDomainId)) == DeleteWhere(t.records, InDomain(t.nextDomainId))
            && (forall row :: row in t'.records && row.domainId == t.nextDomainId <==> row == NewSoaRow(cfg, t, body.name))
            && ZoneSerial(t', t.nextDomainId) == Some(1)
  {
    CreateDomainOutcome(cfg, t, namespace, body);
    AppendToEmptyZone(t.records, NewSoaRow(cfg, t, body.name));
    SoaContentFields(cfg);
  }

  /** A row appended to a zone no row belongs to yet is that zone's only row, and its first SOA row when it is one. */
  lemma AppendToEmptyZone(records: seq<RecordRow>, row: RecordRow)
    requires forall j :: 0 <= j < |records| ==> records[j].domainId != row.domainId
    ensures DeleteWhere(records + [row], InDomain(row.domainId)) == DeleteWhere(records, InDomain(row.domainId))
    ensures forall r :: r in records + [row] && r.domainId == row.domainId <==> r == row
    ensures row.recordType == "SOA" ==> FirstRow(records + [row], SoaOf(row.domainId)) == Some(row)
  {
    assert FirstRow(records, SoaOf(row.domainId)).None?;
    FirstRowAppend(records, row, SoaOf(row.domainId));
    assert (records + [row])[..|records|] == records;
  }

  // ---------------------------------------------------------------------
  // DELETE /domains/{domain}
  // ---------------------------------------------------------------------

  /**
   * `delete_domain`: delete the records of the domain, then the domain rows
   * with that name; when no domain row was deleted the 404 rolls the
   * transaction back.
   */
  function DeleteDomain(t: Tables, namespace: string, domain: string): (Tables, Result<(), Failure>)
  {
    if !CheckAuth(namespace, domain) then (t, Err(Forbidden))
    else
      var t1 := DeleteDomainRecords(t, domain);
      var (rest, deleted) := DeleteDomainsNamed(t1.domains, domain);
      if deleted == 0 then (t, Err(DomainNotFound))
      else (t1.(domains := rest), Ok(()))
  }

  /**
   * After `delete_domain`: no domain of that name and no record of its zone
   * is left, and every other row is kept. An unknown domain is a 404 that
   * changes nothing (there was nothing to roll back).
   */
  lemma DeleteDomainCascades(t: Tables, namespace: string, domain: string)
    ensures var (t', r) := DeleteDomain(t, namespace, domain);
            && (r == Err(Forbidden) <==> !CheckAuth(namespace, domain))
            && (r == Err(DomainNotFound) <==> CheckAuth(namespace, domain) && SelectDomainId(t, domain).None?)
            && (r.Err? ==> t' == t)
            && (r.Ok? ==> && (forall d :: d in t'.domains <==> d in t.domains && d.name != domain)
                          && (forall row :: row in t'.records <==> row in t.records && row.domainId != SelectDomainId(t, domain).value)
                          && t'.nextDomainId == t.nextDomainId && t'.nextRecordId == t.nextRecordId)
    ensures DeleteDomainRecords(t, domain).domains == t.domains
  {
    var t1 := DeleteDomainRecords(t, domain);
    if SelectDomainId(t, domain).None? {
      assert t1 == t;
    }
  }

  // ---------------------------------------------------------------------
  // GET /domains
  // ---------------------------------------------------------------------

  /**
   * The cursor loop of `get_domains`: the rows `granted` accepts, in scan
   * order; building the `Domain` response model re-validates each name.
   */
  function GrantedDomains(rows: seq<DomainRow>, granted: string -> bool): (r: Result<seq<Domain>, Failure>)
    ensures r.Err? ==> r.error == InvalidResponse
    decreases |rows|
  {
    if rows == [] then Ok([])
    else
      var init, last := rows[..|rows| - 1], rows[|rows| - 1];
      match GrantedDomains(init, granted)
      case Err(e) => Err(e)
      case Ok(found) =>
        if !granted(last.name) then Ok(found)
        else match MakeDomain(last.id, last.name)
          case Err(_) => Err(InvalidResponse)
          case Ok(d) => Ok(found + [d])
  }

  /** `get_domains`: the domains `check_auth(..., do_raise=False)` grants to the caller's namespace. */
  function VisibleDomains(t: Tables, namespace: string): Result<seq<Domain>, Failure>
  {
    GrantedDomains(t.domains, name => CheckAuth(namespace, name))
  }

  /** The listing fails only when a granted row has a name the response model refuses. */
  lemma {:induction false} GrantedDomainsFails(rows: seq<DomainRow>, granted: string -> bool)
    ensures GrantedDomains(rows, granted).Err? <==>
              exists i :: 0 <= i < |rows| && granted(rows[i].name) && !IsValidDomain(rows[i].name)
    decreases |rows|
  {
    if rows != [] {
      var init := rows[..|rows| - 1];
      assert forall i :: 0 <= i < |init| ==> init[i] == rows[i];
      GrantedDomainsFails(init, granted);
    }
  }

  /** The listing holds exactly the granted rows. */
  lemma {:induction false} GrantedDomainsExact(rows: seq<DomainRow>, granted: string -> bool)
    requires GrantedDomains(rows, granted).Ok?
    ensures forall d :: d in GrantedDomains(rows, granted).value <==>
              exists i :: 0 <= i < |rows| && granted(rows[i].name) && d == Domain(rows[i].id, rows[i].name)
    decreases |rows|
  {
    if rows != [] {
      var init := rows[..|rows| - 1];
      assert forall i :: 0 <= i < |init| ==> init[i] == rows[i];
      GrantedDomainsExact(init, granted);
    }
  }

  /**
   * `get_domains` lists exactly the domains granted to the caller's
   * namespace, and fails only when one of them has a name the response
   * model refuses.
   */
  lemma VisibleDomainsExact(t: Tables, namespace: string)
    ensures VisibleDomains(t, namespace).Err? <==>
              exists i :: 0 <= i < |t.domains| && CheckAuth(namespace, t.domains[i].name) && !IsValidDomain(t.domains[i].name)
    ensures VisibleDomains(t, namespace).Ok? ==> forall d :: d in VisibleDomains(t, namespace).value <==>
              exists i :: 0 <= i < |t.domains| && CheckAuth(namespace, t.domains[i].name) && d == Domain(t.domains[i].id, t.domains[i].name)
  {
    var granted := name => CheckAuth(namespace, name);
    GrantedDomainsFails(t.domains, granted);
    if GrantedDomains(t.domains, granted).Ok? {
      GrantedDomainsExact(t.domains, granted);
    }
  }

  // ---------------------------------------------------------------------
  // GET /records/{domain}
  // ---------------------------------------------------------------------

  /** The `Record` response for a row of the zone: `can_edit` unless its type is locked. */
  function RecordOf(row: RecordRow, domain: string): Record
  {
    Record(row.id, domain, row.name, row.content, row.recordType, row.ttl, row.prio, row.recordType !in LockedRecordTypes)
  }

  /** The cursor loop of `get_records`: every row of the zone, in scan order, as a validated `Record`. */
  function ZoneRecords(rows: seq<RecordRow>, domainId: int, domain: string): (r: Result<seq<Record>, Failure>)
    ensures r.Ok? ==> forall rec :: rec in r.value <==>
              exists i :: 0 <= i < |rows| && rows[i].domainId == domainId && rec == RecordOf(rows[i], domain)
    ensures r.Err? <==> exists i :: 0 <= i < |rows| && rows[i].domainId == domainId && !IsValidDomain(rows[i].name)
    ensures r.Err? ==> r.error == InvalidResponse
    decreases |rows|
  {
    if rows == [] then Ok([])
    else
      var init, last := rows[..|rows| - 1], rows[|rows| - 1];
      assert forall i :: 0 <= i < |init| ==> init[i] == rows[i];
      match ZoneRecords(init, domainId, domain)
      case Err(e) => Err(e)
      case Ok(found) =>
        if last.domainId != domainId then Ok(found)
        else match MakeRecord(last.id, domain, last.name, last.content, last.recordType, last.ttl, last.prio,
                              last.recordType !in LockedRecordTypes)
          case Err(_) => Err(InvalidResponse)
          case Ok(rec) => Ok(found + [rec])
  }

  /** `get_records`: 403 without the grant, 404 for an unknown domain, otherwise the zone's records. */
  function GetRecords(t: Tables, namespace: string, domain: string): (r: Result<seq<Record>, Failure>)
    ensures r == Err(Forbidden) <==> !CheckAuth(namespace, domain)
    ensures r == Err(DomainNotFound) <==> CheckAuth(namespace, domain) && LookupDomain(t, domain).Err?
    ensures r.Ok? ==> forall rec :: rec in r.value <==>
              exists row :: row in t.records && row.domainId == LookupDomain(t, domain).value && rec == RecordOf(row, domain)
  {
    if !CheckAuth(namespace, domain) then Err(Forbidden)
    else match LookupDomain(t, domain)
      case Err(e) => Err(e)
      case Ok(id) => ZoneRecords(t.records, id, domain)
  }

  /** Every record `get_records` returns may be edited unless it is the SOA. */
  lemma GetRecordsCanEdit(t: Tables, namespace: string, domain: string)
    requires GetRecords(t, namespace, domain).Ok?
    ensures forall rec :: rec in GetRecords(t, namespace, domain).value ==> (rec.canEdit <==> rec.recordType != "SOA")
    ensures forall rec :: rec in GetRecords(t, namespace, domain).value ==> rec.domain == domain
  {
  }

  // ---------------------------------------------------------------------
  // POST /records/{domain}
  // ---------------------------------------------------------------------

  /**
   * `create_record`: the grant, the domain, the name ending in the domain, the
   * type allowed, no record yet with that name and type; then the insert,
   * with the ttl defaulting when falsy, then one serial bump. The insert is
   * committed before the bump runs, so a failing bump leaves the new row in
   * place. The body has passed the `NewRecord` validator.
   */
  function CreateRecord(cfg: Config, t: Tables, namespace: string, domain: string, body: NewRecord)
    : (Tables, Result<Record, Failure>)
    requires IsValidDomain(body.name)
  {
    if !CheckAuth(namespace, domain) then (t, Err(Forbidden))
    else match LookupDomain(t, domain)
      case Err(e) => (t, Err(e))
      case Ok(domainId) =>
        if !EndsWith(body.name, domain) then (t, Err(NameOutsideDomain))
        else if body.recordType !in cfg.allowedRecords then (t, Err(TypeNotAllowed))
        else
          var existing := SelectRecord(t, Named(domainId, body.name, body.recordType));
          if existing.Some? && existing.value.id != 0 then (t, Err(RecordExists(existing.value.id)))
          else
            var ttl := IntOr(body.ttl, cfg.defaultTtl);
            var (t1, id) := InsertRecordRow(t, domainId, body.name, body.content, body.recordType, ttl, body.prio);
            var (t2, bumped) := SerialBumped(t1, domainId);
            if bumped.Err? then (t2, Err(SerialBumpFailed(bumped.error)))
            else (t2, Ok(Record(id, domain, body.name, body.content, body.recordType, ttl, body.prio,
                                body.recordType !in LockedRecordTypes)))
  }

  /**
   * The checks of `create_record` run in a fixed order: each failure is
   * reported exactly when every earlier check passed and its own failed,
   * and none of them changes the tables.
   */
  lemma CreateRecordCheckOrder(cfg: Config, t: Tables, namespace: string, domain: string, body: NewRecord)
    requires IsValidDomain(body.name)
    ensures var (t', r) := CreateRecord(cfg, t, namespace, domain, body);
            var authorised := CheckAuth(namespace, domain);
            var found := LookupDomain(t, domain);
            var inZone := EndsWith(body.name, domain);
            var allowed := body.recordType in cfg.allowedRecords;
            var existing := if found.Ok? then SelectRecord(t, Named(found.value, body.name, body.recordType)) else None;
            && (r == Err(Forbidden) <==> !authorised)
            && (r == Err(DomainNotFound) <==> authorised && found.Err?)
            && (r == Err(NameOutsideDomain) <==> authorised && found.Ok? && !inZone)
            && (r == Err(TypeNotAllowed) <==> authorised && found.Ok? && inZone && !allowed)
            && (r.Err? && r.error.RecordExists? <==> authorised && found.Ok? && inZone && allowed && existing.Some? && existing.value.id != 0)
            && (r.Err? && !r.error.SerialBumpFailed? ==> t' == t)
  {
  }

  /**
   * A successful `create_record` appends exactly the new row, with the ttl
   * defaulted when the body's is falsy, and then bumps the zone's serial
   * (one up, by `BumpIncrementsSerial`); the answer is the new row.
   */
  lemma CreateRecordAppends(cfg: Config, t: Tables, namespace: string, domain: string, body: NewRecord)
    requires IsValidDomain(body.name)
    requires CreateRecord(cfg, t, namespace, domain, body).1.Ok?
    ensures LookupDomain(t, domain).Ok?
    ensures var domainId := LookupDomain(t, domain).value;
            var row := RecordRow(t.nextRecordId, domainId, body.name, body.content, body.recordType,
                                 IntOr(body.ttl, cfg.defaultTtl), body.prio);
            var t1 := t.(records := t.records + [row], nextRecordId := t.nextRecordId + 1);
            && SerialBumped(t1, domainId).1.Ok?
            && CreateRecord(cfg, t, namespace, domain, body) == (SerialBumped(t1, domainId).0, Ok(RecordOf(row, domain)))
  {
    CreateRecordCheckOrder(cfg, t, namespace, domain, body);
    CreateRecordPassed(cfg, t, namespace, domain, body);
  }

  /** Once every check of `create_record` passed, what remains is the insert and the bump. */
  lemma CreateRecordPassed(cfg: Config, t: Tables, namespace: string, domain: string, body: NewRecord)
    requires IsValidDomain(body.name)
    requires CheckAuth(namespace, domain) && LookupDomain(t, domain).Ok?
    requires EndsWith(body.name, domain) && body.recordType in cfg.allowedRecords
    requires var existing := SelectRecord(t, Named(LookupDomain(t, domain).value, body.name, body.recordType));
             !(existing.Some? && existing.value.id != 0)
    ensures var domainId := LookupDomain(t, domain).value;
            var row := RecordRow(t.nextRecordId, domainId, body.name, body.content, body.recordType,
                                 IntOr(body.ttl, cfg.defaultTtl), body.prio);
            var t1 := t.(records := t.records + [row], nextRecordId := t.nextRecordId + 1);
            CreateRecord(cfg, t, namespace, domain, body) ==
              (SerialBumped(t1, domainId).0,
               if SerialBumped(t1, domainId).1.Err? then Err(SerialBumpFailed(SerialBumped(t1, domainId).1.error))
               else Ok(RecordOf(row, domain)))
  {
  }

  /** Appending a row whose id is above every other keeps the ids unique. */
  lemma UniqueAfterAppend(records: seq<RecordRow>, row: RecordRow)
    requires UniqueRecordIds(records)
    requires forall j :: 0 <= j < |records| ==> records[j].id < row.id
    ensures UniqueRecordIds(records + [row])
  {
  }

  /**
   * The name check is a plain suffix test, blind to label boundaries: a name
   * such as `notexample.com` passes it for the domain `example.com`.
   */
  lemma NameCheckIgnoresLabels(name: string, domain: string)
    requires name == "notexample.com" && domain == "example.com"
    ensures EndsWith(name, domain)
    ensures !CheckAuth(domain, name)
  {
    assert name[3..] == domain;
    CheckAuthDenyExamples(domain, name);
  }

  // ---------------------------------------------------------------------
  // PATCH /records/{domain}/{record_id}
  // ---------------------------------------------------------------------

  /** The fields `update_record` writes: each new value only where it is truthy. */
  function Merged(row: RecordRow, update: UpdateRecord): Change
  {
    SetFields(StrOr(update.content, row.content), IntOr(update.ttl, row.ttl), PrioOr(update.prio, row.prio))
  }

  /**
   * `update_record`: the grant, the domain, the record in that domain, not
   * a locked type; then the merged update by id, committed, then one serial
   * bump; the response re-validates the record's name.
   */
  function UpdateRecord(t: Tables, namespace: string, domain: string, recordId: int, update: UpdateRecord)
    : (Tables, Result<Record, Failure>)
  {
    if !CheckAuth(namespace, domain) then (t, Err(Forbidden))
    else match LookupDomain(t, domain)
      case Err(e) => (t, Err(e))
      case Ok(domainId) =>
        match LookupRecord(t, domainId, recordId)
        case Err(e) => (t, Err(e))
        case Ok(row) =>
          if row.recordType in LockedRecordTypes then (t, Err(RecordLocked))
          else
            var change := Merged(row, update);
            var t1 := t.(records := UpdateWhere(t.records, WithId(recordId), change));
            var (t2, bumped) := SerialBumped(t1, domainId);
            (t2, if bumped.Err? then Err(SerialBumpFailed(bumped.error))
                 else (match MakeRecord(recordId, domain, row.name, change.content, row.recordType, change.ttl, change.prio,
                                        row.recordType !in LockedRecordTypes)
                       case Err(_) => Err(InvalidResponse)
                       case Ok(rec) => Ok(rec)))
  }

  /**
   * Partial updates merge by truthiness: content, ttl and prio take the new
   * value only when it is truthy (`""`, `0` and None keep the old one); the
   * name, type, zone and id never change.
   */
  lemma UpdateMergesByTruthiness(row: RecordRow, update: UpdateRecord)
    ensures var updated := Apply(row, Merged(row, update));
            && (updated.content == if update.content.Some? && update.content.value != "" then update.content.value else row.content)
            && (updated.ttl == if update.ttl.Some? && update.ttl.value != 0 then update.ttl.value else row.ttl)
            && (updated.prio == if update.prio.Some? && update.prio.value != 0 then update.prio else row.prio)
            && updated.name == row.name && updated.recordType == row.recordType
            && updated.domainId == row.domainId && updated.id == row.id
  {
  }

  /** A locked record, such as the SOA, is never updated: the 400 leaves the tables as they were. */
  lemma UpdateRefusesLocked(t: Tables, namespace: string, domain: string, recordId: int, update: UpdateRecord)
    requires CheckAuth(namespace, domain) && LookupDomain(t, domain).Ok?
    requires LookupRecord(t, LookupDomain(t, domain).value, recordId).Ok?
    requires LookupRecord(t, LookupDomain(t, domain).value, recordId).value.recordType in LockedRecordTypes
    ensures UpdateRecord(t, namespace, domain, recordId, update) == (t, Err(RecordLocked))
  {
  }

  /**
   * The checks of `update_record` run in a fixed order: each refusal is
   * reported exactly when every earlier check passed and its own failed,
   * and only the failures after the UPDATE has committed change the tables.
   */
  lemma UpdateRecordCheckOrder(t: Tables, namespace: string, domain: string, recordId: int, update: UpdateRecord)
    ensures var (t', r) := UpdateRecord(t, namespace, domain, recordId, update);
            var authorised := CheckAuth(namespace, domain);
            var found := LookupDomain(t, domain);
            var row := if found.Ok? then LookupRecord(t, found.value, recordId) else Err(RecordNotFound);
            && (r == Err(Forbidden) <==> !authorised)
            && (r == Err(DomainNotFound) <==> authorised && found.Err?)
            && (r == Err(RecordNotFound) <==> authorised && found.Ok? && row.Err?)
            && (r == Err(RecordLocked) <==> authorised && found.Ok? && row.Ok? && row.value.recordType in LockedRecordTypes)
            && (r.Err? && !r.error.SerialBumpFailed? && r.error != InvalidResponse ==> t' == t)
  {
    var r := UpdateRecord(t, namespace, domain, recordId, update).1;
    if CheckAuth(namespace, domain) && LookupDomain(t, domain).Ok? {
      var row := LookupRecord(t, LookupDomain(t, domain).value, recordId);
      if row.Ok? && row.value.recordType !in LockedRecordTypes {
        assert r.Ok? || r.error.SerialBumpFailed? || r.error == InvalidResponse;
      }
    }
  }

  /**
   * A successful update changes only the one row with that id, as merged,
   * and then bumps the zone's serial.
   */
  lemma UpdateRecordChangesOneRow(t: Tables, namespace: string, domain: string, recordId: int, update: UpdateRecord)
    requires UniqueRecordIds(t.records)
    requires UpdateRecord(t, namespace, domain, recordId, update).1.Ok?
    ensures var domainId := LookupDomain(t, domain).value;
            var row := LookupRecord(t, domainId, recordId).value;
            var t1 := t.(records := UpdateWhere(t.records, WithId(recordId), Merged(row, update)));
            && (forall j :: 0 <= j < |t.records| ==> t1.records[j] == if t.records[j] == row then Apply(row, Merged(row, update)) else t.records[j])
            && UpdateRecord(t, namespace, domain, recordId, update).0 == SerialBumped(t1, domainId).0
  {
    UpdateRecordSucceeded(t, namespace, domain, recordId, update);
    var row := LookupRecord(t, LookupDomain(t, domain).value, recordId).value;
    UpdateByIdChangesOneRow(t.records, row, recordId, Merged(row, update));
  }

  /** A successful `update_record` passed every check, and its tables are the update by id followed by the bump. */
  lemma UpdateRecordSucceeded(t: Tables, namespace: string, domain: string, recordId: int, update: UpdateRecord)
    requires UpdateRecord(t, namespace, domain, recordId, update).1.Ok?
    ensures CheckAuth(namespace, domain) && LookupDomain(t, domain).Ok?
    ensures var domainId := LookupDomain(t, domain).value;
            && LookupRecord(t, domainId, recordId).Ok?
            && var row := LookupRecord(t, domainId, recordId).value;
               var t1 := t.(records := UpdateWhere(t.records, WithId(recordId), Merged(row, update)));
               && row.recordType !in LockedRecordTypes
               && SerialBumped(t1, domainId).1.Ok?
               && UpdateRecord(t, namespace, domain, recordId, update).0 == SerialBumped(t1, domainId).0
  {
  }

  /** With unique ids, an UPDATE by the id of one row changes that row and no other. */
  lemma UpdateByIdChangesOneRow(records: seq<RecordRow>, row: RecordRow, id: int, change: Change)
    requires UniqueRecordIds(records) && row in records && row.id == id
    ensures var updated := UpdateWhere(records, WithId(id), change);
            forall j :: 0 <= j < |records| ==> updated[j] == if records[j] == row then Apply(row, change) else records[j]
  {
    var i :| 0 <= i < |records| && records[i] == row;
    assert forall j :: 0 <= j < |records| && records[j].id == id ==> j == i;
  }

  /** An UPDATE keeps the ids, so it keeps them unique. */
  lemma UniqueAfterUpdate(records: seq<RecordRow>, q: RecordQuery, change: Change)
    requires UniqueRecordIds(records)
    ensures UniqueRecordIds(UpdateWhere(records, q, change))
  {
    var updated := UpdateWhere(records, q, change);
    assert forall j :: 0 <= j < |records| ==> updated[j].id == records[j].id;
  }

  // ---------------------------------------------------------------------
  // DELETE /records/{domain}/{record_id}
  // ---------------------------------------------------------------------

  /**
   * `delete_record`: the same checks as `update_record`; the serial is bumped
   * first, in its own transaction, and only then is the row deleted by id,
   * so a failing bump leaves the record in place.
   */
  function DeleteRecord(t: Tables, namespace: string, domain: string, recordId: int): (Tables, Result<(), Failure>)
  {
    if !CheckAuth(namespace, domain) then (t, Err(Forbidden))
    else match LookupDomain(t, domain)
      case Err(e) => (t, Err(e))
      case Ok(domainId) =>
        match LookupRecord(t, domainId, recordId)
        case Err(e) => (t, Err(e))
        case Ok(row) =>
          if row.recordType in LockedRecordTypes then (t, Err(RecordLocked))
          else
            var (t1, bumped) := SerialBumped(t, domainId);
            if bumped.Err? then (t1, Err(SerialBumpFailed(bumped.error)))
            else (t1.(records := DeleteWhere(t1.records, WithId(recordId))), Ok(()))
  }

  /**
   * The checks of `delete_record` run in the same order as those of
   * `update_record`, each refusal exactly when its own check fails; only a
   * failing bump, which commits nothing, can follow them.
   */
  lemma DeleteRecordCheckOrder(t: Tables, namespace: string, domain: string, recordId: int)
    ensures var (t', r) := DeleteRecord(t, namespace, domain, recordId);
            var authorised := CheckAuth(namespace, domain);
            var found := LookupDomain(t, domain);
            var row := if found.Ok? then LookupRecord(t, found.value, recordId) else Err(RecordNotFound);
            && (r == Err(Forbidden) <==> !authorised)
            && (r == Err(DomainNotFound) <==> authorised && found.Err?)
            && (r == Err(RecordNotFound) <==> authorised && found.Ok? && row.Err?)
            && (r == Err(RecordLocked) <==> authorised && found.Ok? && row.Ok? && row.value.recordType in LockedRecordTypes)
            && (r.Err? ==> t' == t)
  {
  }

  /** A locked record, such as the SOA, is never deleted: the 400 leaves the tables as they were. */
  lemma DeleteRefusesLocked(t: Tables, namespace: string, domain: string, recordId: int)
    requires CheckAuth(namespace, domain) && LookupDomain(t, domain).Ok?
    requires LookupRecord(t, LookupDomain(t, domain).value, recordId).Ok?
    requires LookupRecord(t, LookupDomain(t, domain).value, recordId).value.recordType in LockedRecordTypes
    ensures DeleteRecord(t, namespace, domain, recordId) == (t, Err(RecordLocked))
  {
  }

  /** A successful `delete_record` passed every check, and its tables are the bump followed by the delete by id. */
  lemma DeleteRecordSucceeded(t: Tables, namespace: string, domain: string, recordId: int)
    requires DeleteRecord(t, namespace, domain, recordId).1.Ok?
    ensures CheckAuth(namespace, domain) && LookupDomain(t, domain).Ok?
    ensures var domainId := LookupDomain(t, domain).value;
            && LookupRecord(t, domainId, recordId).Ok?
            && LookupRecord(t, domainId, recordId).value.recordType !in LockedRecordTypes
            && SerialBumped(t, domainId).1.Ok?
            && var t1 := SerialBumped(t, domainId).0;
               DeleteRecord(t, namespace, domain, recordId).0 == t1.(records := DeleteWhere(t1.records, WithId(recordId)))
  {
  }

  /** Bumping a zone's serial and then deleting one of its other rows by id leaves the serial one up. */
  lemma DeleteAfterBump(t: Tables, domainId: int, recordId: int, row: RecordRow)
    requires UniqueRecordIds(t.records)
    requires row in t.records && row.domainId == domainId && row.id == recordId && row.recordType != "SOA"
    requires SerialBumped(t, domainId).1.Ok?
    ensures var t1 := SerialBumped(t, domainId).0;
            ZoneSerial(t1.(records := DeleteWhere(t1.records, WithId(recordId))), domainId) == Some(ZoneSerial(t, domainId).value + 1)
  {
    var t1 := SerialBumped(t, domainId).0;
    var t2 := t1.(records := DeleteWhere(t1.records, WithId(recordId)));
    BumpIncrementsSerial(t, domainId);
    BumpChangesOnlyContents(t, domainId);
    SoaRowsKeepOtherIds(t.records, t1.records, row, domainId);
    FirstRowAfterDelete(t1.records, WithId(row.id), SoaOf(domainId));
    assert SelectRecord(t2, SoaOf(domainId)) == SelectRecord(t1, SoaOf(domainId));
  }

  /** After a content-only change, no SOA row shares its id with a non-SOA row of the old table. */
  lemma SoaRowsKeepOtherIds(a: seq<RecordRow>, b: seq<RecordRow>, row: RecordRow, domainId: int)
    requires UniqueRecordIds(a) && row in a && row.recordType != "SOA"
    requires |a| == |b|
    requires forall j :: 0 <= j < |a| ==> a[j].(content := b[j].content) == b[j]
    ensures forall j :: 0 <= j < |b| && Matches(b[j], SoaOf(domainId)) ==> !Matches(b[j], WithId(row.id))
  {
    var k :| 0 <= k < |a| && a[k] == row;
    forall j | 0 <= j < |b| && Matches(b[j], SoaOf(domainId))
      ensures !Matches(b[j], WithId(row.id))
    {
      assert a[j].recordType == "SOA" && a[j].id == b[j].id;
    }
  }

  /** A bump keeps every row that is not an SOA row. */
  lemma BumpKeepsOtherRows(t: Tables, domainId: int, other: RecordRow)
    requires UniqueRecordIds(t.records) && SerialBumped(t, domainId).1.Ok?
    requires other in t.records && other.recordType != "SOA"
    ensures other in SerialBumped(t, domainId).0.records
  {
    BumpTouchesOnlySoaContent(t, domainId);
    var k :| 0 <= k < |t.records| && t.records[k] == other;
    assert SerialBumped(t, domainId).0.records[k] == other;
  }

  /**
   * A successful `delete_record` removes the rows with that id and keeps
   * every other record (the SOA row with its content bumped).
   */
  lemma DeleteRecordRemovesOne(t: Tables, namespace: string, domain: string, recordId: int)
    requires UniqueRecordIds(t.records)
    requires DeleteRecord(t, namespace, domain, recordId).1.Ok?
    ensures var t' := DeleteRecord(t, namespace, domain, recordId).0;
            && (forall other :: other in t'.records ==> other.id != recordId)
            && (forall other :: other in t.records && other.id != recordId && other.recordType != "SOA" ==> other in t'.records)
  {
    DeleteRecordSucceeded(t, namespace, domain, recordId);
    var domainId := LookupDomain(t, domain).value;
    forall other | other in t.records && other.id != recordId && other.recordType != "SOA"
      ensures other in SerialBumped(t, domainId).0.records
    {
      BumpKeepsOtherRows(t, domainId, other);
    }
  }

  // ---------------------------------------------------------------------
  // POST /generate-token
  // ---------------------------------------------------------------------

  /** `generate_token`: only a wildcard caller may mint a token, for the requested namespace. `encode` stands for `jwt.encode`. */
  function GenerateToken(namespace: string, request: TokenRequest, encode: Claims -> string): (r: Result<string, Failure>)
    ensures r.Err? <==> namespace != "*"
    ensures r.Err? ==> r.error == WildcardRequired
  {
    if namespace != "*" then Err(WildcardRequired)
    else Ok(encode(map["n" := request.namespace]))
  }

  /**
   * A minted token is accepted by the token check and gives its bearer the
   * requested namespace, when decoding undoes encoding and a token is never empty.
   */
  lemma GeneratedTokenAuthenticates(request: TokenRequest, encode: Claims -> string, decode: string -> Option<Claims>)
    requires forall c :: decode(encode(c)) == Some(c)
    requires forall c :: encode(c) != ""
    ensures var token := GenerateToken("*", request, encode).value;
            TokenNamespace(token, decode(token)) == Ok(request.namespace)
  {
    var claims := map["n" := request.namespace];
    assert decode(encode(claims)) == Some(claims);
    assert encode(claims) != "";
  }
}
