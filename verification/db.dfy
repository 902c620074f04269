/**
 * The two tables app.py and utils.py work on, `domains (id, name)` and
 * `records (id, domain_id, name, content, type, ttl, prio)`, each a sequence
 * of rows in scan order; the SQL statements the handlers issue, as functions
 * on table values; and the connection whose tables those statements change in place.
 */
module Db {
  import opened Wrappers

  datatype DomainRow = DomainRow(id: int, name: string)

  datatype RecordRow = RecordRow(
    id: int,
    domainId: int,
    name: string,
    content: string,
    recordType: string,
    ttl: int,
    prio: Option<int>)

  /** Both tables, with the next value of each `id` sequence. */
  datatype Tables = Tables(
    domains: seq<DomainRow>,
    records: seq<RecordRow>,
    nextDomainId: int,
    nextRecordId: int)

  /** The WHERE clauses the handlers put on `records`. */
  datatype RecordQuery =
    | InDomain(domainId: int)                                         // domain_id = $1
    | WithId(id: int)                                                 // id = $1
    | IdInDomain(domainId: int, id: int)                              // domain_id = $1 AND id = $2
    | Named(domainId: int, name: string, recordType: string)          // domain_id = $1 AND name = $2 AND type = $3
    | SoaOf(domainId: int)                                            // domain_id = $1 AND type = 'SOA'

  predicate Matches(row: RecordRow, q: RecordQuery)
  {
    match q
    case InDomain(d) => row.domainId == d
    case WithId(id) => row.id == id
    case IdInDomain(d, id) => row.domainId == d && row.id == id
    case Named(d, name, t) => row.domainId == d && row.name == name && row.recordType == t
    case SoaOf(d) => row.domainId == d && row.recordType == "SOA"
  }

  /** The SET clauses of the two UPDATE statements on `records`. */
  datatype Change =
    | SetContent(content: string)
    | SetFields(content: string, ttl: int, prio: Option<int>)

  function Apply(row: RecordRow, change: Change): RecordRow
  {
    match change
    case SetContent(c) => row.(content := c)
    case SetFields(c, ttl, prio) => row.(content := c, ttl := ttl, prio := prio)
  }

  // ---------------------------------------------------------------------
  // Queries
  // ---------------------------------------------------------------------

  /** The position of the first domain row with that name. */
  function FirstDomainNamed(domains: seq<DomainRow>, name: string): (r: Option<nat>)
    ensures r.Some? ==> r.value < |domains| && domains[r.value].name == name
    ensures r.Some? ==> forall j :: 0 <= j < r.value ==> domains[j].name != name
    ensures r.None? ==> forall j :: 0 <= j < |domains| ==> domains[j].name != name
  {
    if domains == [] then None
    else if domains[0].name == name then Some(0)
    else match FirstDomainNamed(domains[1..], name)
      case None => None
      case Some(k) => Some(k + 1)
  }

  /** `SELECT id FROM domains WHERE name = $1` through `fetchval`: the first row's id, None without a row. */
  function SelectDomainId(t: Tables, name: string): (r: Option<int>)
    ensures r.Some? <==> exists i :: 0 <= i < |t.domains| && t.domains[i].name == name
    ensures r.Some? ==> exists i :: 0 <= i < |t.domains| && t.domains[i].name == name && t.domains[i].id == r.value
                                    && forall j :: 0 <= j < i ==> t.domains[j].name != name
  {
    match FirstDomainNamed(t.domains, name)
    case None => None
    case Some(i) => Some(t.domains[i].id)
  }

  /** The position of the first record row the query matches. */
  function FirstMatch(records: seq<RecordRow>, q: RecordQuery): (r: Option<nat>)
    ensures r.Some? ==> r.value < |records| && Matches(records[r.value], q)
    ensures r.Some? ==> forall j :: 0 <= j < r.value ==> !Matches(records[j], q)
    ensures r.None? ==> forall j :: 0 <= j < |records| ==> !Matches(records[j], q)
  {
    if records == [] then None
    else if Matches(records[0], q) then Some(0)
    else match FirstMatch(records[1..], q)
      case None => None
      case Some(k) => Some(k + 1)
  }

  /** The first row of a scan the query matches. */
  function FirstRow(records: seq<RecordRow>, q: RecordQuery): (r: Option<RecordRow>)
    ensures r.Some? ==> r.value in records && Matches(r.value, q)
    ensures r.None? <==> forall j :: 0 <= j < |records| ==> !Matches(records[j], q)
  {
    match FirstMatch(records, q)
    case None => None
    case Some(i) => Some(records[i])
  }

  /** `fetchrow` / `fetchval` of a query on `records`: the first matching row, None without one. */
  function SelectRecord(t: Tables, q: RecordQuery): (r: Option<RecordRow>)
    ensures r.Some? ==> r.value in t.records && Matches(r.value, q)
    ensures r.None? <==> forall j :: 0 <= j < |t.records| ==> !Matches(t.records[j], q)
  {
    FirstRow(t.records, q)
  }

  // ---------------------------------------------------------------------
  // Statements
  // ---------------------------------------------------------------------

  /**
   * `INSERT INTO domains (name, type) VALUES ($1, 'NATIVE') RETURNING id`:
   * None, with no row inserted, where the unique constraint on the name is
   * violated. The id is drawn from the sequence before the constraint is
   * checked, and a sequence is not rolled back, so the id is used up either way.
   */
  function InsertDomainRow(t: Tables, name: string): (Tables, Option<int>)
  {
    if SelectDomainId(t, name).Some? then (t.(nextDomainId := t.nextDomainId + 1), None)
    else
      (t.(domains := t.domains + [DomainRow(t.nextDomainId, name)], nextDomainId := t.nextDomainId + 1),
       Some(t.nextDomainId))
  }

  /** `INSERT INTO records (domain_id, name, content, type, ttl, prio) VALUES (...) RETURNING id`. */
  function InsertRecordRow(t: Tables, domainId: int, name: string, content: string, recordType: string, ttl: int, prio: Option<int>): (Tables, int)
  {
    (t.(records := t.records + [RecordRow(t.nextRecordId, domainId, name, content, recordType, ttl, prio)],
        nextRecordId := t.nextRecordId + 1),
     t.nextRecordId)
  }

  /** `UPDATE records SET ... WHERE ...`: every matching row changed, in place. */
  function UpdateWhere(records: seq<RecordRow>, q: RecordQuery, change: Change): (r: seq<RecordRow>)
    ensures |r| == |records|
    ensures forall i :: 0 <= i < |records| ==> r[i] == if Matches(records[i], q) then Apply(records[i], change) else records[i]
  {
    seq(|records|, i requires 0 <= i < |records| =>
      if Matches(records[i], q) then Apply(records[i], change) else records[i])
  }

  /** `DELETE FROM records WHERE ...`: the rows the query does not match, in their order. */
  function DeleteWhere(records: seq<RecordRow>, q: RecordQuery): (r: seq<RecordRow>)
    ensures forall row :: row in r <==> row in records && !Matches(row, q)
    ensures |r| <= |records|
    decreases |records|
  {
    if records == [] then []
    else
      var last := records[|records| - 1];
      assert records == records[..|records| - 1] + [last];
      DeleteWhere(records[..|records| - 1], q) + (if Matches(last, q) then [] else [last])
  }

  /** DELETE keeps the surviving rows in their order: it works on a concatenation part by part. */
  lemma {:induction false} DeleteWhereSplits(a: seq<RecordRow>, b: seq<RecordRow>, q: RecordQuery)
    ensures DeleteWhere(a + b, q) == DeleteWhere(a, q) + DeleteWhere(b, q)
    decreases |b|
  {
    if b == [] {
      assert a + b == a;
      assert DeleteWhere(a, q) + [] == DeleteWhere(a, q);
    } else {
      var init, last := b[..|b| - 1], b[|b| - 1];
      var keep := if Matches(last, q) then [] else [last];
      assert (a + b)[..|a + b| - 1] == a + init;
      assert b[..|b| - 1] == init;
      var front, middle := DeleteWhere(a, q), DeleteWhere(init, q);
      calc {
        DeleteWhere(a + b, q);
        DeleteWhere(a + init, q) + keep;
        { DeleteWhereSplits(a, init, q); }
        (front + middle) + keep;
        front + (middle + keep);
        front + DeleteWhere(b, q);
      }
    }
  }

  /** A single row survives a DELETE exactly when the query does not match it. */
  lemma DeleteWhereSingle(row: RecordRow, q: RecordQuery)
    ensures DeleteWhere([row], q) == if Matches(row, q) then [] else [row]
  {
    assert [row][..0] == [];
  }

  /** `DELETE FROM domains WHERE name = $1`: the remaining rows and the number deleted. */
  function DeleteDomainsNamed(domains: seq<DomainRow>, name: string): (r: (seq<DomainRow>, nat))
    ensures forall d :: d in r.0 <==> d in domains && d.name != name
    ensures r.1 == 0 <==> forall i :: 0 <= i < |domains| ==> domains[i].name != name
    ensures r.1 == 0 ==> r.0 == domains
    decreases |domains|
  {
    if domains == [] then ([], 0)
    else
      var last := domains[|domains| - 1];
      assert domains == domains[..|domains| - 1] + [last];
      var (rest, n) := DeleteDomainsNamed(domains[..|domains| - 1], name);
      if last.name == name then (rest, n + 1) else (rest + [last], n)
  }

  /** `DELETE FROM records WHERE domain_id = (SELECT id FROM domains WHERE name = $1)`. */
  function DeleteDomainRecords(t: Tables, name: string): Tables
  {
    match SelectDomainId(t, name)
    case None => t
    case Some(id) => t.(records := DeleteWhere(t.records, InDomain(id)))
  }

  // ---------------------------------------------------------------------
  // What the statements do to later queries
  // ---------------------------------------------------------------------

  /** The first matching position is determined by which positions match. */
  lemma {:induction false} FirstMatchUnique(a: seq<RecordRow>, b: seq<RecordRow>, q: RecordQuery)
    requires |a| == |b|
    requires forall j :: 0 <= j < |a| ==> (Matches(a[j], q) <==> Matches(b[j], q))
    ensures FirstMatch(a, q) == FirstMatch(b, q)
    decreases |a|
  {
    if a != [] {
      FirstMatchUnique(a[1..], b[1..], q);
    }
  }

  /** A row added at the end of the scan is found only when no earlier row matches. */
  lemma {:induction false} FirstRowAppend(records: seq<RecordRow>, row: RecordRow, q: RecordQuery)
    ensures FirstRow(records + [row], q) ==
              if FirstRow(records, q).Some? then FirstRow(records, q)
              else if Matches(row, q) then Some(row) else None
    decreases |records|
  {
    if records != [] {
      assert (records + [row])[1..] == records[1..] + [row];
      FirstRowAppend(records[1..], row, q);
    }
  }

  /** The SET clauses touch no column a WHERE clause reads. */
  lemma ApplyKeepsMatches(row: RecordRow, change: Change, q: RecordQuery)
    ensures Matches(Apply(row, change), q) == Matches(row, q)
  {
  }

  /** An UPDATE of rows a query never finds leaves that query's first row as it was. */
  lemma FirstRowAfterUpdate(records: seq<RecordRow>, q: RecordQuery, change: Change, query: RecordQuery)
    requires forall j :: 0 <= j < |records| && Matches(records[j], query) ==> !Matches(records[j], q)
    ensures FirstRow(UpdateWhere(records, q, change), query) == FirstRow(records, query)
  {
    var updated := UpdateWhere(records, q, change);
    forall j | 0 <= j < |records|
      ensures Matches(records[j], query) <==> Matches(updated[j], query)
    {
      ApplyKeepsMatches(records[j], change, query);
    }
    FirstMatchUnique(records, updated, query);
  }

  /** A DELETE of rows a query never finds leaves that query's first row as it was. */
  lemma {:induction false} FirstRowAfterDelete(records: seq<RecordRow>, q: RecordQuery, query: RecordQuery)
    requires forall j :: 0 <= j < |records| && Matches(records[j], query) ==> !Matches(records[j], q)
    ensures FirstRow(DeleteWhere(records, q), query) == FirstRow(records, query)
    decreases |records|
  {
    if records != [] {
      var init, last := records[..|records| - 1], records[|records| - 1];
      var kept := DeleteWhere(init, q);
      assert records == init + [last];
      FirstRowAfterDelete(init, q, query);
      FirstRowAppend(init, last, query);
      if Matches(last, q) {
        assert DeleteWhere(records, q) == kept + [];
        assert kept + [] == kept;
      } else {
        assert DeleteWhere(records, q) == kept + [last];
        FirstRowAppend(kept, last, query);
      }
    }
  }

  // ---------------------------------------------------------------------
  // The connection
  // ---------------------------------------------------------------------

  /** The database behind `app.state.conn`; each method is one SQL statement run on it. */
  class Connection {
    var domains: seq<DomainRow>
    var records: seq<RecordRow>
    var nextDomainId: int
    var nextRecordId: int

    /** The tables as a value. */
    function Snapshot(): Tables
      reads this
    {
      Tables(domains, records, nextDomainId, nextRecordId)
    }

    /** Empty tables; both id sequences start at 1. */
    constructor ()
      ensures Snapshot() == Tables([], [], 1, 1)
    {
      domains, records := [], [];
      nextDomainId, nextRecordId := 1, 1;
    }

    method InsertDomain(name: string) returns (id: Option<int>)
      modifies this
      ensures (Snapshot(), id) == InsertDomainRow(old(Snapshot()), name)
    {
      if SelectDomainId(Snapshot(), name).Some? {
        nextDomainId := nextDomainId + 1;
        return None;
      }
      id := Some(nextDomainId);
      domains := domains + [DomainRow(nextDomainId, name)];
      nextDomainId := nextDomainId + 1;
    }

    method InsertRecord(domainId: int, name: string, content: string, recordType: string, ttl: int, prio: Option<int>)
      returns (id: int)
      modifies this
      ensures (Snapshot(), id) == InsertRecordRow(old(Snapshot()), domainId, name, content, recordType, ttl, prio)
    {
      id := nextRecordId;
      records := records + [RecordRow(id, domainId, name, content, recordType, ttl, prio)];
      nextRecordId := nextRecordId + 1;
    }

    method UpdateRecords(q: RecordQuery, change: Change)
      modifies this
      ensures Snapshot() == old(Snapshot()).(records := UpdateWhere(old(records), q, change))
    {
      records := UpdateWhere(records, q, change);
    }

    method DeleteRecords(q: RecordQuery)
      modifies this
      ensures Snapshot() == old(Snapshot()).(records := DeleteWhere(old(records), q))
    {
      records := DeleteWhere(records, q);
    }

    method DeleteRecordsOfDomain(name: string)
      modifies this
      ensures Snapshot() == DeleteDomainRecords(old(Snapshot()), name)
    {
      var id := SelectDomainId(Snapshot(), name);
      if id.Some? {
        records := DeleteWhere(records, InDomain(id.value));
      }
    }

    /**
     * The end of a transaction left by an exception: the rows are as they
     * were at `saved`; the id sequences keep the values they have reached.
     */
    method Rollback(saved: Tables)
      modifies this
      ensures Snapshot() == saved.(nextDomainId := old(nextDomainId), nextRecordId := old(nextRecordId))
    {
      domains, records := saved.domains, saved.records;
    }

    /** Returns the number of rows deleted, as asyncpg's "DELETE n" status reports it. */
    method DeleteDomains(name: string) returns (deleted: nat)
      modifies this
      ensures (Snapshot(), deleted) == (old(Snapshot()).(domains := DeleteDomainsNamed(old(domains), name).0),
                                        DeleteDomainsNamed(old(domains), name).1)
    {
      var (rest, n) := DeleteDomainsNamed(domains, name);
      domains := rest;
      deleted := n;
    }
  }
}
