/**
 * What the handlers of recordion/app.py keep true of the tables: ids drawn
 * from the sequences and unique, names that pass `validate_domain`, domain
 * names unique, and every domain's zone with an SOA row whose content holds
 * a serial. Under it, `bump_serial` never raises and no response model
 * refuses a name read back from the tables.
 */
module Invariant {
  import opened Wrappers
  import opened Text
  import opened Constants
  import opened Db
  import opened Utils
  import opened Models
  import opened Auth
  import opened Handlers

  /** Settings under which new zones can be bumped and no SOA row can be created through the API. */
  predicate ConfigOk(cfg: Config)
  {
    SoaNamesAreWords(cfg) && "SOA" !in cfg.allowedRecords
  }

  predicate DomainRowsOk(t: Tables)
  {
    && (forall d :: d in t.domains ==> 1 <= d.id < t.nextDomainId && IsValidDomain(d.name))
    && (forall d1, d2 :: d1 in t.domains && d2 in t.domains && (d1.id == d2.id || d1.name == d2.name) ==> d1 == d2)
  }

  predicate RecordRowsOk(t: Tables)
  {
    && (forall r :: r in t.records ==> 1 <= r.id < t.nextRecordId && r.domainId < t.nextDomainId && IsValidDomain(r.name))
    && UniqueRecordIds(t.records)
  }

  predicate ZonesHaveSerials(t: Tables)
  {
    forall d :: d in t.domains ==> ZoneSerial(t, d.id).Some?
  }

  /** The invariant of the tables. */
  predicate Wf(t: Tables)
  {
    1 <= t.nextDomainId && 1 <= t.nextRecordId && DomainRowsOk(t) && RecordRowsOk(t) && ZonesHaveSerials(t)
  }

  /** Empty tables, as a fresh database has them, satisfy the invariant. */
  lemma EmptyWf()
    ensures Wf(Tables([], [], 1, 1))
  {
  }

  // ---------------------------------------------------------------------
  // Table-level steps
  // ---------------------------------------------------------------------

  /** A DELETE keeps the record ids unique. */
  lemma {:induction false} UniqueAfterDelete(records: seq<RecordRow>, q: RecordQuery)
    requires UniqueRecordIds(records)
    ensures UniqueRecordIds(DeleteWhere(records, q))
    decreases |records|
  {
    if records != [] {
      var init, last := records[..|records| - 1], records[|records| - 1];
      var kept := DeleteWhere(init, q);
      assert UniqueRecordIds(init) by {
        assert forall j :: 0 <= j < |init| ==> init[j] == records[j];
      }
      UniqueAfterDelete(init, q);
      if Matches(last, q) {
        assert DeleteWhere(records, q) == kept;
      } else {
        forall j | 0 <= j < |kept|
          ensures kept[j].id != last.id
        {
          assert kept[j] in init;
        }
        UniqueAfterFreshAppend(kept, last);
        assert DeleteWhere(records, q) == kept + [last];
      }
    }
  }

  /** Appending a row whose id no row has yet keeps the ids unique. */
  lemma UniqueAfterFreshAppend(records: seq<RecordRow>, row: RecordRow)
    requires UniqueRecordIds(records)
    requires forall j :: 0 <= j < |records| ==> records[j].id != row.id
    ensures UniqueRecordIds(records + [row])
  {
  }

  /** Rows rewritten in place with their ids, zones and names kept keep the record conditions. */
  lemma SameKeysRowsOk(t: Tables, records: seq<RecordRow>)
    requires RecordRowsOk(t) && |records| == |t.records|
    requires forall j :: 0 <= j < |records| ==>
      records[j].id == t.records[j].id && records[j].domainId == t.records[j].domainId && records[j].name == t.records[j].name
    ensures RecordRowsOk(t.(records := records))
  {
    forall r | r in records
      ensures 1 <= r.id < t.nextRecordId && r.domainId < t.nextDomainId && IsValidDomain(r.name)
    {
      var j :| 0 <= j < |records| && records[j] == r;
      assert t.records[j] in t.records;
    }
  }

  /** A bump changes contents only, so the row conditions carry over. */
  lemma BumpKeepsRows(t: Tables, domainId: int)
    requires DomainRowsOk(t) && RecordRowsOk(t)
    ensures var t' := SerialBumped(t, domainId).0;
            t'.domains == t.domains && t'.nextDomainId == t.nextDomainId && t'.nextRecordId == t.nextRecordId
    ensures DomainRowsOk(SerialBumped(t, domainId).0) && RecordRowsOk(SerialBumped(t, domainId).0)
  {
    var t' := SerialBumped(t, domainId).0;
    BumpChangesOnlyContents(t, domainId);
    assert t' == t.(records := t'.records);
    SameKeysRowsOk(t, t'.records);
  }

  /** A successful bump leaves every zone with a serial. */
  lemma BumpKeepsSerials(t: Tables, domainId: int)
    requires UniqueRecordIds(t.records) && ZonesHaveSerials(t) && ZoneSerial(t, domainId).Some?
    ensures SerialBumped(t, domainId).1.Ok?
    ensures ZonesHaveSerials(SerialBumped(t, domainId).0)
  {
    var t' := SerialBumped(t, domainId).0;
    BumpFailsLoudly(t, domainId);
    BumpIncrementsSerial(t, domainId);
    forall d | d in t'.domains
      ensures ZoneSerial(t', d.id).Some?
    {
      if d.id != domainId {
        BumpKeepsOtherSerials(t, domainId, d.id);
      }
    }
  }

  /** Under the invariant, a bump of an existing zone succeeds and keeps the invariant. */
  lemma BumpKeepsWf(t: Tables, d: DomainRow)
    requires Wf(t) && d in t.domains
    ensures SerialBumped(t, d.id).1.Ok?
    ensures Wf(SerialBumped(t, d.id).0)
  {
    BumpKeepsRows(t, d.id);
    BumpKeepsSerials(t, d.id);
  }

  /** The tables after a new domain row and its SOA row are appended with fresh ids. */
  function WithZone(cfg: Config, t: Tables, name: string): Tables
  {
    Tables(t.domains + [DomainRow(t.nextDomainId, name)], t.records + [NewSoaRow(cfg, t, name)],
           t.nextDomainId + 1, t.nextRecordId + 1)
  }

  /** A new zone with a fresh id and an unused, valid name keeps the domain rows well formed. */
  lemma WithZoneDomainsOk(cfg: Config, t: Tables, name: string)
    requires 1 <= t.nextDomainId && DomainRowsOk(t) && IsValidDomain(name)
    requires forall d :: d in t.domains ==> d.name != name
    ensures DomainRowsOk(WithZone(cfg, t, name))
  {
  }

  /** The new SOA row has a fresh id and refers to the new domain, so the record rows stay well formed. */
  lemma WithZoneRecordsOk(cfg: Config, t: Tables, name: string)
    requires 1 <= t.nextRecordId && RecordRowsOk(t) && IsValidDomain(name)
    ensures RecordRowsOk(WithZone(cfg, t, name))
  {
    UniqueAfterAppend(t.records, NewSoaRow(cfg, t, name));
    forall j | 0 <= j < |t.records|
      ensures t.records[j].id < t.nextRecordId
    {
      assert t.records[j] in t.records;
    }
  }

  /** The new zone's serial is 1, and every other zone keeps its serial. */
  lemma WithZoneSerials(cfg: Config, t: Tables, name: string)
    requires ZonesHaveSerials(t) && SoaNamesAreWords(cfg)
    requires forall r :: r in t.records ==> r.domainId < t.nextDomainId
    ensures ZonesHaveSerials(WithZone(cfg, t, name))
  {
    var t' := WithZone(cfg, t, name);
    var soa := NewSoaRow(cfg, t, name);
    forall d | d in t.domains
      ensures ZoneSerial(t', d.id) == ZoneSerial(t, d.id)
    {
      FirstRowAppend(t.records, soa, SoaOf(d.id));
    }
    forall j | 0 <= j < |t.records|
      ensures !Matches(t.records[j], SoaOf(t.nextDomainId))
    {
      assert t.records[j] in t.records;
    }
    FirstRowAppend(t.records, soa, SoaOf(t.nextDomainId));
    SoaContentFields(cfg);
    assert ZoneSerial(t', t.nextDomainId) == Serial(soa.content);
  }

  /** The tables after `delete_domain` removed the zone `id` and the domain rows named `name`. */
  function WithoutZone(t: Tables, id: int, name: string): Tables
  {
    t.(domains := DeleteDomainsNamed(t.domains, name).0, records := DeleteWhere(t.records, InDomain(id)))
  }

  /** Removing rows keeps the row conditions. */
  lemma WithoutZoneRowsOk(t: Tables, id: int, name: string)
    requires DomainRowsOk(t) && RecordRowsOk(t)
    ensures DomainRowsOk(WithoutZone(t, id, name)) && RecordRowsOk(WithoutZone(t, id, name))
  {
    UniqueAfterDelete(t.records, InDomain(id));
  }

  /** The zones left keep their SOA rows, since the removed domain was the only one with its id. */
  lemma WithoutZoneSerials(t: Tables, d: DomainRow)
    requires DomainRowsOk(t) && ZonesHaveSerials(t) && d in t.domains
    ensures ZonesHaveSerials(WithoutZone(t, d.id, d.name))
  {
    var t' := WithoutZone(t, d.id, d.name);
    forall e | e in t'.domains
      ensures ZoneSerial(t', e.id).Some?
    {
      assert e in t.domains && e.name != d.name;
      assert e.id != d.id;
      FirstRowAfterDelete(t.records, InDomain(d.id), SoaOf(e.id));
    }
  }

  /** The tables after a record row is appended with a fresh id. */
  function WithRecord(t: Tables, row: RecordRow): Tables
  {
    t.(records := t.records + [row], nextRecordId := t.nextRecordId + 1)
  }

  /** A new row of a known zone, with a fresh id, a valid name and a type other than SOA, keeps the invariant. */
  lemma WithRecordKeepsWf(t: Tables, row: RecordRow, d: DomainRow)
    requires Wf(t) && d in t.domains
    requires row.id == t.nextRecordId && row.domainId == d.id && IsValidDomain(row.name) && row.recordType != "SOA"
    ensures Wf(WithRecord(t, row))
  {
    var t' := WithRecord(t, row);
    forall j | 0 <= j < |t.records|
      ensures t.records[j].id < row.id
    {
      assert t.records[j] in t.records;
    }
    UniqueAfterAppend(t.records, row);
    forall e | e in t.domains
      ensures ZoneSerial(t', e.id) == ZoneSerial(t, e.id)
    {
      FirstRowAppend(t.records, row, SoaOf(e.id));
    }
  }

  /** The tables after `UPDATE ... WHERE id = $1`. */
  function WithUpdate(t: Tables, recordId: int, change: Change): Tables
  {
    t.(records := UpdateWhere(t.records, WithId(recordId), change))
  }

  /** An update of rows that are not SOA rows leaves every zone's serial alone. */
  lemma WithUpdateSerials(t: Tables, recordId: int, change: Change, e: DomainRow)
    requires forall r :: r in t.records && r.id == recordId ==> r.recordType != "SOA"
    ensures ZoneSerial(WithUpdate(t, recordId, change), e.id) == ZoneSerial(t, e.id)
  {
    forall j | 0 <= j < |t.records| && Matches(t.records[j], SoaOf(e.id))
      ensures !Matches(t.records[j], WithId(recordId))
    {
      assert t.records[j] in t.records;
    }
    FirstRowAfterUpdate(t.records, WithId(recordId), change, SoaOf(e.id));
  }

  /** Updating rows that are not SOA rows keeps the invariant: ids, zones and names stay, and so do the SOA rows. */
  lemma WithUpdateKeepsWf(t: Tables, recordId: int, change: Change)
    requires Wf(t)
    requires forall r :: r in t.records && r.id == recordId ==> r.recordType != "SOA"
    ensures Wf(WithUpdate(t, recordId, change))
  {
    var t' := WithUpdate(t, recordId, change);
    SameKeysRowsOk(t, t'.records);
    forall e | e in t.domains
      ensures ZoneSerial(t', e.id).Some?
    {
      WithUpdateSerials(t, recordId, change, e);
    }
  }

  /** The tables after `DELETE FROM records WHERE id = $1`. */
  function WithoutRecord(t: Tables, recordId: int): Tables
  {
    t.(records := DeleteWhere(t.records, WithId(recordId)))
  }

  /** Deleting rows that are not SOA rows keeps the invariant. */
  lemma WithoutRecordKeepsWf(t: Tables, recordId: int)
    requires Wf(t)
    requires forall r :: r in t.records && r.id == recordId ==> r.recordType != "SOA"
    ensures Wf(WithoutRecord(t, recordId))
  {
    var t' := WithoutRecord(t, recordId);
    UniqueAfterDelete(t.records, WithId(recordId));
    forall e | e in t.domains
      ensures ZoneSerial(t', e.id) == ZoneSerial(t, e.id)
    {
      forall j | 0 <= j < |t.records| && Matches(t.records[j], SoaOf(e.id))
        ensures !Matches(t.records[j], WithId(recordId))
      {
        assert t.records[j] in t.records;
      }
      FirstRowAfterDelete(t.records, WithId(recordId), SoaOf(e.id));
    }
  }

  /** The bump rewrites contents only, so the rows with the id of a non-SOA record of the zone stay non-SOA. */
  lemma BumpedIdIsNotSoa(t: Tables, domainId: int, recordId: int)
    requires UniqueRecordIds(t.records) && SerialBumped(t, domainId).1.Ok?
    requires LookupRecord(t, domainId, recordId).Ok? && LookupRecord(t, domainId, recordId).value.recordType != "SOA"
    ensures forall r :: r in SerialBumped(t, domainId).0.records && r.id == recordId ==> r.recordType != "SOA"
  {
    var t1 := SerialBumped(t, domainId).0;
    BumpChangesOnlyContents(t, domainId);
    forall r | r in t1.records && r.id == recordId
      ensures r.recordType != "SOA"
    {
      var j :| 0 <= j < |t1.records| && t1.records[j] == r;
      IdInDomainIsTheRow(t, domainId, recordId, j);
    }
  }

  // ---------------------------------------------------------------------
  // The handlers keep the invariant
  // ---------------------------------------------------------------------

  /** The domain row `LookupDomain` finds. */
  lemma LookupDomainRow(t: Tables, domain: string) returns (d: DomainRow)
    requires LookupDomain(t, domain).Ok?
    ensures d in t.domains && d.id == LookupDomain(t, domain).value && d.name == domain
  {
    d := t.domains[FirstDomainNamed(t.domains, domain).value];
  }

  lemma CreateDomainKeepsWf(cfg: Config, t: Tables, namespace: string, body: NewDomain)
    requires ConfigOk(cfg) && Wf(t) && IsValidDomain(body.name)
    ensures Wf(CreateDomain(cfg, t, namespace, body).0)
  {
    var (t', r) := CreateDomain(cfg, t, namespace, body);
    CreateDomainOutcome(cfg, t, namespace, body);
    if r.Ok? {
      assert t' == WithZone(cfg, t, body.name);
      forall d | d in t.domains
        ensures d.name != body.name
      {
        var i :| 0 <= i < |t.domains| && t.domains[i] == d;
      }
      WithZoneDomainsOk(cfg, t, body.name);
      WithZoneRecordsOk(cfg, t, body.name);
      WithZoneSerials(cfg, t, body.name);
    } else {
      assert t'.domains == t.domains && t'.records == t.records;
    }
  }

  lemma DeleteDomainKeepsWf(t: Tables, namespace: string, domain: string)
    requires Wf(t)
    ensures Wf(DeleteDomain(t, namespace, domain).0)
  {
    var (t', r) := DeleteDomain(t, namespace, domain);
    DeleteDomainCascades(t, namespace, domain);
    if r.Ok? {
      var d := t.domains[FirstDomainNamed(t.domains, domain).value];
      assert t' == WithoutZone(t, d.id, d.name);
      WithoutZoneRowsOk(t, d.id, d.name);
      WithoutZoneSerials(t, d);
    }
  }

  lemma CreateRecordKeepsWf(cfg: Config, t: Tables, namespace: string, domain: string, body: NewRecord)
    requires ConfigOk(cfg) && Wf(t) && IsValidDomain(body.name)
    ensures CreateRecord(cfg, t, namespace, domain, body).1 != Err(InvalidResponse)
    ensures !CreateRecord(cfg, t, namespace, domain, body).1.Err? || !CreateRecord(cfg, t, namespace, domain, body).1.error.SerialBumpFailed?
    ensures Wf(CreateRecord(cfg, t, namespace, domain, body).0)
  {
    CreateRecordCheckOrder(cfg, t, namespace, domain, body);
    if CheckAuth(namespace, domain) && LookupDomain(t, domain).Ok? && EndsWith(body.name, domain)
       && body.recordType in cfg.allowedRecords {
      var d := LookupDomainRow(t, domain);
      var existing := SelectRecord(t, Named(d.id, body.name, body.recordType));
      if !(existing.Some? && existing.value.id != 0) {
        var row := RecordRow(t.nextRecordId, d.id, body.name, body.content, body.recordType,
                             IntOr(body.ttl, cfg.defaultTtl), body.prio);
        var t1 := WithRecord(t, row);
        assert InsertRecordRow(t, d.id, body.name, body.content, body.recordType,
                               IntOr(body.ttl, cfg.defaultTtl), body.prio).0 == t1;
        WithRecordKeepsWf(t, row, d);
        BumpKeepsWf(t1, d);
      }
    }
  }

  lemma UpdateRecordKeepsWf(t: Tables, namespace: string, domain: string, recordId: int, update: UpdateRecord)
    requires Wf(t)
    ensures Handlers.UpdateRecord(t, namespace, domain, recordId, update).1 != Err(InvalidResponse)
    ensures !Handlers.UpdateRecord(t, namespace, domain, recordId, update).1.Err? || !Handlers.UpdateRecord(t, namespace, domain, recordId, update).1.error.SerialBumpFailed?
    ensures Wf(Handlers.UpdateRecord(t, namespace, domain, recordId, update).0)
  {
    if CheckAuth(namespace, domain) && LookupDomain(t, domain).Ok? {
      var d := LookupDomainRow(t, domain);
      if LookupRecord(t, d.id, recordId).Ok? {
        var row := LookupRecord(t, d.id, recordId).value;
        if row.recordType !in LockedRecordTypes {
          forall r | r in t.records && r.id == recordId
            ensures r.recordType != "SOA"
          {
            var j :| 0 <= j < |t.records| && t.records[j] == r;
            IdInDomainIsTheRow(t, d.id, recordId, j);
          }
          var t1 := WithUpdate(t, recordId, Merged(row, update));
          WithUpdateKeepsWf(t, recordId, Merged(row, update));
          BumpKeepsWf(t1, d);
        }
      }
    }
  }

  lemma DeleteRecordKeepsWf(t: Tables, namespace: string, domain: string, recordId: int)
    requires Wf(t)
    ensures !DeleteRecord(t, namespace, domain, recordId).1.Err? || !DeleteRecord(t, namespace, domain, recordId).1.error.SerialBumpFailed?
    ensures Wf(DeleteRecord(t, namespace, domain, recordId).0)
  {
    if CheckAuth(namespace, domain) && LookupDomain(t, domain).Ok? {
      var d := LookupDomainRow(t, domain);
      if LookupRecord(t, d.id, recordId).Ok? {
        var row := LookupRecord(t, d.id, recordId).value;
        if row.recordType !in LockedRecordTypes {
          BumpKeepsWf(t, d);
          BumpedIdIsNotSoa(t, d.id, recordId);
          WithoutRecordKeepsWf(SerialBumped(t, d.id).0, recordId);
        }
      }
    }
  }

  // ---------------------------------------------------------------------
  // The read handlers never fail on well-formed tables
  // ---------------------------------------------------------------------

  // ---------------------------------------------------------------------
  // Each record change bumps its zone's serial exactly once
  // ---------------------------------------------------------------------

  /** An INSERT into a zone that already has an SOA row leaves that zone's serial alone. */
  lemma AppendKeepsZoneSerial(t: Tables, row: RecordRow, domainId: int)
    requires SelectRecord(t, SoaOf(domainId)).Some?
    ensures ZoneSerial(WithRecord(t, row), domainId) == ZoneSerial(t, domainId)
  {
    FirstRowAppend(t.records, row, SoaOf(domainId));
  }

  /** With unique ids, only the row a lookup found carries its id. */
  lemma LookedUpIdIsNotSoa(t: Tables, domainId: int, recordId: int)
    requires UniqueRecordIds(t.records) && LookupRecord(t, domainId, recordId).Ok?
    requires LookupRecord(t, domainId, recordId).value.recordType != "SOA"
    ensures forall r :: r in t.records && r.id == recordId ==> r.recordType != "SOA"
  {
    forall r | r in t.records && r.id == recordId
      ensures r.recordType != "SOA"
    {
      var j :| 0 <= j < |t.records| && t.records[j] == r;
      IdInDomainIsTheRow(t, domainId, recordId, j);
    }
  }

  /**
   * On well-formed tables, a successful `create_record` leaves the zone's
   * serial exactly one above what it was before the request.
   */
  lemma CreateRecordBumpsOnce(cfg: Config, t: Tables, namespace: string, domain: string, body: NewRecord,
                              t': Tables, rec: Record)
    requires Wf(t) && IsValidDomain(body.name)
    requires CreateRecord(cfg, t, namespace, domain, body) == (t', Ok(rec))
    ensures LookupDomain(t, domain).Ok?
    ensures var id := LookupDomain(t, domain).value;
            ZoneSerial(t, id).Some? && ZoneSerial(t', id).Some? && ZoneSerial(t', id).value == ZoneSerial(t, id).value + 1
  {
    CreateRecordAppends(cfg, t, namespace, domain, body);
    var d := LookupDomainRow(t, domain);
    var row := RecordRow(t.nextRecordId, d.id, body.name, body.content, body.recordType,
                         IntOr(body.ttl, cfg.defaultTtl), body.prio);
    AppendKeepsZoneSerial(t, row, d.id);
    BumpIncrementsSerial(WithRecord(t, row), d.id);
  }

  /**
   * With unique ids, a successful `update_record` leaves the zone's serial
   * exactly one above what it was before the request.
   */
  lemma UpdateRecordBumpsOnce(t: Tables, namespace: string, domain: string, recordId: int, update: UpdateRecord,
                              t': Tables, rec: Record)
    requires UniqueRecordIds(t.records)
    requires Handlers.UpdateRecord(t, namespace, domain, recordId, update) == (t', Ok(rec))
    ensures LookupDomain(t, domain).Ok?
    ensures var id := LookupDomain(t, domain).value;
            ZoneSerial(t, id).Some? && ZoneSerial(t', id).Some? && ZoneSerial(t', id).value == ZoneSerial(t, id).value + 1
  {
    UpdateRecordSucceeded(t, namespace, domain, recordId, update);
    var id := LookupDomain(t, domain).value;
    UpdateThenBumpSerial(t, id, recordId, Merged(LookupRecord(t, id, recordId).value, update), t');
  }

  /** The UPDATE by the id of a non-locked record of the zone and then the bump: the serial ends one up. */
  lemma UpdateThenBumpSerial(t: Tables, domainId: int, recordId: int, change: Change, t': Tables)
    requires UniqueRecordIds(t.records) && LookupRecord(t, domainId, recordId).Ok?
    requires LookupRecord(t, domainId, recordId).value.recordType !in LockedRecordTypes
    requires SerialBumped(WithUpdate(t, recordId, change), domainId).1.Ok?
    requires t' == SerialBumped(WithUpdate(t, recordId, change), domainId).0
    ensures ZoneSerial(t, domainId).Some?
    ensures ZoneSerial(t', domainId) == Some(ZoneSerial(t, domainId).value + 1)
  {
    UpdateOfRecordKeepsSerial(t, domainId, recordId, change);
    BumpAfterSameSerial(t, WithUpdate(t, recordId, change), domainId);
  }

  /** An UPDATE by the id of a non-locked record of the zone leaves the zone's serial alone. */
  lemma UpdateOfRecordKeepsSerial(t: Tables, domainId: int, recordId: int, change: Change)
    requires UniqueRecordIds(t.records) && LookupRecord(t, domainId, recordId).Ok?
    requires LookupRecord(t, domainId, recordId).value.recordType !in LockedRecordTypes
    ensures ZoneSerial(WithUpdate(t, recordId, change), domainId) == ZoneSerial(t, domainId)
  {
    LookedUpIdIsNotSoa(t, domainId, recordId);
    UpdateKeepsZoneSerial(t, recordId, change, domainId);
  }

  /** Tables with the serial of `t`, bumped: the serial ends one above that of `t`. */
  lemma BumpAfterSameSerial(t: Tables, t1: Tables, domainId: int)
    requires ZoneSerial(t1, domainId) == ZoneSerial(t, domainId)
    requires SerialBumped(t1, domainId).1.Ok?
    ensures ZoneSerial(t, domainId).Some?
    ensures ZoneSerial(SerialBumped(t1, domainId).0, domainId) == Some(ZoneSerial(t, domainId).value + 1)
  {
    BumpFailsLoudly(t1, domainId);
    BumpIncrementsSerial(t1, domainId);
    var serial := ZoneSerial(t, domainId).value;
    assert ZoneSerial(t1, domainId).value == serial;
    assert ZoneSerial(SerialBumped(t1, domainId).0, domainId) == Some(serial + 1);
  }

  /** An UPDATE of rows that are not SOA rows leaves a zone's serial alone. */
  lemma UpdateKeepsZoneSerial(t: Tables, recordId: int, change: Change, domainId: int)
    requires forall r :: r in t.records && r.id == recordId ==> r.recordType != "SOA"
    ensures ZoneSerial(WithUpdate(t, recordId, change), domainId) == ZoneSerial(t, domainId)
  {
    WithUpdateSerials(t, recordId, change, DomainRow(domainId, ""));
  }

  /**
   * With unique ids, a successful `delete_record` leaves the zone's serial
   * exactly one above what it was before the request.
   */
  lemma DeleteRecordBumpsOnce(t: Tables, namespace: string, domain: string, recordId: int, t': Tables)
    requires UniqueRecordIds(t.records)
    requires DeleteRecord(t, namespace, domain, recordId) == (t', Ok(()))
    ensures LookupDomain(t, domain).Ok?
    ensures var id := LookupDomain(t, domain).value;
            ZoneSerial(t, id).Some? && ZoneSerial(t', id).Some? && ZoneSerial(t', id).value == ZoneSerial(t, id).value + 1
  {
    DeleteRecordSucceeded(t, namespace, domain, recordId);
    BumpThenDeleteSerial(t, LookupDomain(t, domain).value, recordId, t');
  }

  /** The bump and then the DELETE by the id of a non-locked record of the zone: the serial ends one up. */
  lemma BumpThenDeleteSerial(t: Tables, domainId: int, recordId: int, t': Tables)
    requires UniqueRecordIds(t.records) && SerialBumped(t, domainId).1.Ok?
    requires LookupRecord(t, domainId, recordId).Ok?
    requires LookupRecord(t, domainId, recordId).value.recordType !in LockedRecordTypes
    requires t' == SerialBumped(t, domainId).0.(records := DeleteWhere(SerialBumped(t, domainId).0.records, WithId(recordId)))
    ensures ZoneSerial(t, domainId).Some?
    ensures ZoneSerial(t', domainId) == Some(ZoneSerial(t, domainId).value + 1)
  {
    BumpFailsLoudly(t, domainId);
    DeleteAfterBump(t, domainId, recordId, LookupRecord(t, domainId, recordId).value);
  }

  /** On well-formed tables `get_domains` always answers. */
  lemma GetDomainsAnswers(t: Tables, namespace: string)
    requires Wf(t)
    ensures VisibleDomains(t, namespace).Ok?
  {
    VisibleDomainsExact(t, namespace);
  }

  /** On well-formed tables `get_records` answers unless refused (403) or the domain is unknown (404). */
  lemma GetRecordsAnswers(t: Tables, namespace: string, domain: string)
    requires Wf(t)
    ensures GetRecords(t, namespace, domain).Ok? || GetRecords(t, namespace, domain) in {Err(Forbidden), Err(DomainNotFound)}
  {
  }
}
