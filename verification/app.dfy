/**
 * The route handlers of recordion/app.py as they run against the database
 * connection: each statement is a call on `Connection`, the cursor loops are
 * loops over the rows, and every handler is proved to leave the tables and
 * answer exactly as its specification in `Handlers` says.
 */
module App {
  import opened Wrappers
  import opened Text
  import opened Constants
  import opened Db
  import opened Utils
  import opened Models
  import opened Auth
  import opened Handlers

  /** `GET /domains`: scans the domain rows and keeps the ones the caller's namespace is granted. */
  method GetDomains(conn: Connection, namespace: string) returns (r: Result<seq<Domain>, Failure>)
    ensures r == VisibleDomains(conn.Snapshot(), namespace)
  {
    var granted := name => CheckAuth(namespace, name);
    var found: seq<Domain> := [];
    var i := 0;
    while i < |conn.domains|
      invariant 0 <= i <= |conn.domains|
      invariant GrantedDomains(conn.domains[..i], granted) == Ok(found)
    {
      var row := conn.domains[i];
      assert conn.domains[..i + 1] == conn.domains[..i] + [row];
      assert conn.domains[..i + 1][..i] == conn.domains[..i];
      if CheckAuth(namespace, row.name) {
        var d := MakeDomain(row.id, row.name);
        if d.Err? {
          GrantedDomainsFails(conn.domains[..i + 1], granted);
          GrantedDomainsFails(conn.domains, granted);
          assert conn.domains[..i + 1][i] == conn.domains[i];
          return Err(InvalidResponse);
        }
        found := found + [d.value];
      }
      i := i + 1;
    }
    assert conn.domains[..i] == conn.domains;
    r := Ok(found);
  }

  /** `GET /records/{domain}`: the grant, the domain id, then a scan of the zone's rows. */
  method GetRecords(conn: Connection, namespace: string, domain: string) returns (r: Result<seq<Record>, Failure>)
    ensures r == Handlers.GetRecords(conn.Snapshot(), namespace, domain)
  {
    if !CheckAuth(namespace, domain) {
      return Err(Forbidden);
    }
    var domainId := SelectDomainId(conn.Snapshot(), domain);
    if domainId.None? || domainId.value == 0 {
      return Err(DomainNotFound);
    }
    var id := domainId.value;
    var found: seq<Record> := [];
    var i := 0;
    while i < |conn.records|
      invariant 0 <= i <= |conn.records|
      invariant ZoneRecords(conn.records[..i], id, domain) == Ok(found)
    {
      var row := conn.records[i];
      assert conn.records[..i + 1][..i] == conn.records[..i];
      assert conn.records[..i + 1][i] == row;
      if row.domainId == id {
        var rec := MakeRecord(row.id, domain, row.name, row.content, row.recordType, row.ttl, row.prio,
                              row.recordType !in LockedRecordTypes);
        if rec.Err? {
          assert ZoneRecords(conn.records[..i + 1], id, domain).Err?;
          assert conn.records[i] == row;
          return Err(InvalidResponse);
        }
        found := found + [rec.value];
      }
      i := i + 1;
    }
    assert conn.records[..i] == conn.records;
    r := Ok(found);
  }

  /** `POST /domains`: the domain row, then its SOA row, in one transaction. */
  method CreateDomain(conn: Connection, cfg: Config, namespace: string, body: NewDomain)
    returns (r: Result<Domain, Failure>)
    requires IsValidDomain(body.name)
    modifies conn
    ensures (conn.Snapshot(), r) == Handlers.CreateDomain(cfg, old(conn.Snapshot()), namespace, body)
  {
    if !CheckAuth(namespace, body.name) {
      return Err(Forbidden);
    }
    var id := conn.InsertDomain(body.name);
    if id.None? {
      // The unique violation: nothing was inserted, and the id drawn stays used.
      return Err(DomainExists);
    }
    var _ := conn.InsertRecord(id.value, body.name, SoaContent(cfg), "SOA", cfg.soaTtl, None);
    r := Ok(Domain(id.value, body.name));
  }

  /** `DELETE /domains/{domain}`: the zone's records, then the domain rows; no row deleted rolls back. */
  method DeleteDomain(conn: Connection, namespace: string, domain: string) returns (r: Result<(), Failure>)
    modifies conn
    ensures (conn.Snapshot(), r) == Handlers.DeleteDomain(old(conn.Snapshot()), namespace, domain)
  {
    if !CheckAuth(namespace, domain) {
      return Err(Forbidden);
    }
    var saved := conn.Snapshot();
    conn.DeleteRecordsOfDomain(domain);
    var deleted := conn.DeleteDomains(domain);
    if deleted == 0 {
      conn.Rollback(saved);
      return Err(DomainNotFound);
    }
    r := Ok(());
  }

  /** `POST /records/{domain}`: the checks, the insert, then one serial bump. */
  method CreateRecord(conn: Connection, cfg: Config, namespace: string, domain: string, body: NewRecord)
    returns (r: Result<Record, Failure>)
    requires IsValidDomain(body.name)
    modifies conn
    ensures (conn.Snapshot(), r) == Handlers.CreateRecord(cfg, old(conn.Snapshot()), namespace, domain, body)
  {
    if !CheckAuth(namespace, domain) {
      return Err(Forbidden);
    }
    var domainId := SelectDomainId(conn.Snapshot(), domain);
    if domainId.None? || domainId.value == 0 {
      return Err(DomainNotFound);
    }
    if !EndsWith(body.name, domain) {
      return Err(NameOutsideDomain);
    }
    if body.recordType !in cfg.allowedRecords {
      return Err(TypeNotAllowed);
    }
    var existing := SelectRecord(conn.Snapshot(), Named(domainId.value, body.name, body.recordType));
    if existing.Some? && existing.value.id != 0 {
      return Err(RecordExists(existing.value.id));
    }
    var ttl := IntOr(body.ttl, cfg.defaultTtl);
    var id := conn.InsertRecord(domainId.value, body.name, body.content, body.recordType, ttl, body.prio);
    var bumped := BumpSerial(conn, domainId.value);
    if bumped.Err? {
      return Err(SerialBumpFailed(bumped.error));
    }
    r := Ok(Record(id, domain, body.name, body.content, body.recordType, ttl, body.prio,
                   body.recordType !in LockedRecordTypes));
  }

  /** `PATCH /records/{domain}/{record_id}`: the checks, the merged update, then one serial bump. */
  method UpdateRecord(conn: Connection, namespace: string, domain: string, recordId: int, update: Models.UpdateRecord)
    returns (r: Result<Record, Failure>)
    modifies conn
    ensures (conn.Snapshot(), r) == Handlers.UpdateRecord(old(conn.Snapshot()), namespace, domain, recordId, update)
  {
    if !CheckAuth(namespace, domain) {
      return Err(Forbidden);
    }
    var domainId := SelectDomainId(conn.Snapshot(), domain);
    if domainId.None? || domainId.value == 0 {
      return Err(DomainNotFound);
    }
    var found := SelectRecord(conn.Snapshot(), IdInDomain(domainId.value, recordId));
    if found.None? {
      return Err(RecordNotFound);
    }
    var row := found.value;
    if row.recordType in LockedRecordTypes {
      return Err(RecordLocked);
    }
    var change := Merged(row, update);
    conn.UpdateRecords(WithId(recordId), change);
    var bumped := BumpSerial(conn, domainId.value);
    if bumped.Err? {
      return Err(SerialBumpFailed(bumped.error));
    }
    var rec := MakeRecord(recordId, domain, row.name, change.content, row.recordType, change.ttl, change.prio,
                          row.recordType !in LockedRecordTypes);
    if rec.Err? {
      return Err(InvalidResponse);
    }
    r := Ok(rec.value);
  }

  /** `DELETE /records/{domain}/{record_id}`: the checks, one serial bump, then the delete by id. */
  method DeleteRecord(conn: Connection, namespace: string, domain: string, recordId: int) returns (r: Result<(), Failure>)
    modifies conn
    ensures (conn.Snapshot(), r) == Handlers.DeleteRecord(old(conn.Snapshot()), namespace, domain, recordId)
  {
    if !CheckAuth(namespace, domain) {
      return Err(Forbidden);
    }
    var domainId := SelectDomainId(conn.Snapshot(), domain);
    if domainId.None? || domainId.value == 0 {
      return Err(DomainNotFound);
    }
    var found := SelectRecord(conn.Snapshot(), IdInDomain(domainId.value, recordId));
    if found.None? {
      return Err(RecordNotFound);
    }
    if found.value.recordType in LockedRecordTypes {
      return Err(RecordLocked);
    }
    var bumped := BumpSerial(conn, domainId.value);
    if bumped.Err? {
      return Err(SerialBumpFailed(bumped.error));
    }
    conn.DeleteRecords(WithId(recordId));
    r := Ok(());
  }
}
