/**
 * recordion/utils.py: `validate_domain`, and `bump_serial`, which rewrites the
 * serial in a domain's SOA record content.
 */
module Utils {
  import opened Wrappers
  import opened Text
  import opened Constants
  import opened Db

  // ---------------------------------------------------------------------
  // validate_domain
  // ---------------------------------------------------------------------

  /** The two ValueError messages of `validate_domain`. */
  datatype NameError = InvalidName | NameTooLong

  /** An acceptable domain name: DOMAIN_RE matches and it is at most 255 characters long. */
  predicate IsValidDomain(name: string)
  {
    DomainReMatch(name) && |name| <= 255
  }

  /**
   * `validate_domain`: the syntax check comes first, so a name that is both
   * malformed and too long reports "Invalid domain name".
   */
  function ValidateDomain(name: string): (r: Result<(), NameError>)
    ensures r.Ok? <==> IsValidDomain(name)
    ensures r == Err(InvalidName) <==> !DomainReMatch(name)
    ensures r == Err(NameTooLong) <==> DomainReMatch(name) && |name| > 255
  {
    if !DomainReMatch(name) then Err(InvalidName)
    else if |name| > 255 then Err(NameTooLong)
    else Ok(())
  }

  /** What a valid name is made of: at least one dot, no empty label, only `[A-Za-z0-9.-]` (and perhaps one final "\n"). */
  lemma ValidDomainShape(name: string)
    requires IsValidDomain(name)
    ensures 0 < |name| <= 255 && '.' in name
    ensures name[0] != '.' && name[|name| - 1] != '.'
    ensures forall i :: 0 <= i < |name| - 1 ==> !(name[i] == '.' && name[i + 1] == '.')
    ensures forall i :: 0 <= i < |name| ==> IsLdh(name[i]) || name[i] == '.' || (i == |name| - 1 && name[i] == '\n')
  {
    MatchHasNoEmptyLabel(name);
    MatchCharacters(name);
    if '.' !in name {
      SingleLabelRejected(name);
    }
  }

  // ---------------------------------------------------------------------
  // The SOA content rewrite
  // ---------------------------------------------------------------------

  /** Why `bump_serial` raises: no SOA row (TypeError), fewer than three tokens (IndexError), a serial `int()` refuses (ValueError). */
  datatype BumpError = NoSoaRecord | MissingSerial | SerialNotInteger

  /** The serial an SOA content carries: `int(content.split()[2])`. */
  function Serial(content: string): Option<int>
  {
    var parts := Words(content);
    if |parts| < 3 then None else ParseInt(parts[2])
  }

  /** The content `bump_serial` writes back: tokens 0 and 1, the serial plus one, then tokens 3.. joined by spaces. */
  function BumpContent(content: string): (r: Result<string, BumpError>)
    ensures r.Ok? <==> Serial(content).Some?
    ensures r == Err(MissingSerial) <==> |Words(content)| < 3
  {
    var parts := Words(content);
    if |parts| < 3 then Err(MissingSerial)
    else match ParseInt(parts[2])
      case None => Err(SerialNotInteger)
      case Some(serial) =>
        Ok(parts[0] + " " + (parts[1] + " " + (IntToString(serial + 1) + " " + Join(parts[3..], ' '))))
  }

  /**
   * Round trip: splitting the bumped content gives back tokens 0, 1 and 3..
   * unchanged, and the serial token now reads as the old serial plus one.
   */
  lemma BumpContentRoundTrip(content: string)
    requires Serial(content).Some?
    ensures var parts := Words(content);
            var bumped := BumpContent(content).value;
            && Words(bumped) == parts[..2] + [IntToString(Serial(content).value + 1)] + parts[3..]
            && Serial(bumped) == Some(Serial(content).value + 1)
  {
    var parts := Words(content);
    var serial := Serial(content).value;
    var token := IntToString(serial + 1);
    BumpContentAssembles(content);
    ParseIntToString(serial + 1);
    WordsAreWords(content);
    RewrittenWords(parts, token);
  }

  /** The successful rewrite is the assembly of the old tokens around the new serial. */
  lemma BumpContentAssembles(content: string)
    requires Serial(content).Some?
    ensures var parts := Words(content);
            && |parts| >= 3
            && BumpContent(content) == Ok(parts[0] + " " + (parts[1] + " " + (IntToString(Serial(content).value + 1) + " " + Join(parts[3..], ' '))))
  {
  }

  /** Replacing the third of at least three words by another word. */
  lemma RewrittenWords(parts: seq<string>, token: string)
    requires |parts| >= 3 && IsWord(token)
    requires forall i :: 0 <= i < |parts| ==> IsWord(parts[i])
    ensures var text := parts[0] + " " + (parts[1] + " " + (token + " " + Join(parts[3..], ' ')));
            Words(text) == parts[..2] + [token] + parts[3..]
  {
    WordsOfRewrite(parts[0], parts[1], token, parts[3..]);
    assert [parts[0], parts[1]] == parts[..2];
  }

  /** Splitting the text `bump_serial` assembles gives back the words it was assembled from. */
  lemma WordsOfRewrite(w0: string, w1: string, w2: string, rest: seq<string>)
    requires IsWord(w0) && IsWord(w1) && IsWord(w2)
    requires forall i :: 0 <= i < |rest| ==> IsWord(rest[i])
    ensures Words(w0 + " " + (w1 + " " + (w2 + " " + Join(rest, ' ')))) == [w0, w1, w2] + rest
  {
    var tail := Join(rest, ' ');
    WordsJoin(rest);
    WordsSpaced(w2, tail);
    WordsSpaced(w1, w2 + " " + tail);
    WordsSpaced(w0, w1 + " " + (w2 + " " + tail));
  }

  /** With nothing after the serial, the rewritten content ends in a space. */
  lemma BumpContentTrailingSpace(content: string)
    requires Serial(content).Some? && |Words(content)| == 3
    ensures var bumped := BumpContent(content).value; |bumped| > 0 && bumped[|bumped| - 1] == ' '
  {
  }

  // ---------------------------------------------------------------------
  // bump_serial on the records table
  // ---------------------------------------------------------------------

  /** The serial of a domain's zone: that of the first SOA row the records table holds for it. */
  function ZoneSerial(t: Tables, domainId: int): Option<int>
  {
    match SelectRecord(t, SoaOf(domainId))
    case None => None
    case Some(soa) => Serial(soa.content)
  }

  /**
   * `bump_serial` on table values: the first SOA row of the domain has its
   * content rewritten by id; on failure the tables are as they were.
   */
  function SerialBumped(t: Tables, domainId: int): (Tables, Result<(), BumpError>)
  {
    match SelectRecord(t, SoaOf(domainId))
    case None => (t, Err(NoSoaRecord))
    case Some(soa) =>
      match BumpContent(soa.content)
      case Err(e) => (t, Err(e))
      case Ok(newContent) => (t.(records := UpdateWhere(t.records, WithId(soa.id), SetContent(newContent))), Ok(()))
  }

  /** No two rows share an id. */
  predicate UniqueRecordIds(records: seq<RecordRow>)
  {
    forall i, j :: 0 <= i < j < |records| ==> records[i].id != records[j].id
  }

  /** The bump fails, and changes nothing, exactly when there is no SOA row or its content holds no serial. */
  lemma BumpFailsLoudly(t: Tables, domainId: int)
    ensures SerialBumped(t, domainId).1.Err? <==> ZoneSerial(t, domainId).None?
    ensures SerialBumped(t, domainId).1 == Err(NoSoaRecord) <==> SelectRecord(t, SoaOf(domainId)).None?
    ensures SerialBumped(t, domainId).1.Err? ==> SerialBumped(t, domainId).0 == t
  {
  }

  /**
   * A successful bump touches only the `content` of the domain's SOA row:
   * every other row, every other column, the domains table and the id sequences stay.
   */
  lemma BumpTouchesOnlySoaContent(t: Tables, domainId: int)
    requires UniqueRecordIds(t.records)
    requires SerialBumped(t, domainId).1.Ok?
    ensures var t' := SerialBumped(t, domainId).0;
            var i := FirstMatch(t.records, SoaOf(domainId)).value;
            && t'.domains == t.domains && t'.nextDomainId == t.nextDomainId && t'.nextRecordId == t.nextRecordId
            && |t'.records| == |t.records|
            && t'.records[i] == t.records[i].(content := BumpContent(t.records[i].content).value)
            && forall j :: 0 <= j < |t.records| && j != i ==> t'.records[j] == t.records[j]
  {
  }

  /** A successful bump raises the zone's serial by exactly one. */
  lemma BumpIncrementsSerial(t: Tables, domainId: int)
    requires SerialBumped(t, domainId).1.Ok?
    ensures ZoneSerial(SerialBumped(t, domainId).0, domainId) == Some(ZoneSerial(t, domainId).value + 1)
  {
    var t' := SerialBumped(t, domainId).0;
    var i := FirstMatch(t.records, SoaOf(domainId)).value;
    BumpChangesOnlyContents(t, domainId);
    SameRowKindsSameFirst(t.records, t'.records, SoaOf(domainId));
    BumpContentRoundTrip(t.records[i].content);
  }

  /** A bump of one zone leaves the serial of every other zone alone. */
  lemma BumpKeepsOtherSerials(t: Tables, domainId: int, other: int)
    requires UniqueRecordIds(t.records)
    requires other != domainId
    ensures ZoneSerial(SerialBumped(t, domainId).0, other) == ZoneSerial(t, other)
  {
    var t' := SerialBumped(t, domainId).0;
    BumpChangesOnlyContents(t, domainId);
    SameRowKindsSameFirst(t.records, t'.records, SoaOf(other));
    if SerialBumped(t, domainId).1.Ok? && FirstMatch(t.records, SoaOf(other)).Some? {
      BumpTouchesOnlySoaContent(t, domainId);
      var k := FirstMatch(t.records, SoaOf(other)).value;
      assert k != FirstMatch(t.records, SoaOf(domainId)).value;
      assert t'.records[k] == t.records[k];
    }
  }

  /** Whatever its outcome, a bump changes contents only. */
  lemma BumpChangesOnlyContents(t: Tables, domainId: int)
    ensures var t' := SerialBumped(t, domainId).0;
            && |t'.records| == |t.records|
            && forall j :: 0 <= j < |t.records| ==> t.records[j].(content := t'.records[j].content) == t'.records[j]
  {
  }

  /** Changing only contents keeps the position of the first row a key-only query finds. */
  lemma SameRowKindsSameFirst(a: seq<RecordRow>, b: seq<RecordRow>, q: RecordQuery)
    requires |a| == |b|
    requires forall j :: 0 <= j < |a| ==> a[j].(content := b[j].content) == b[j]
    requires !q.Named?
    ensures FirstMatch(a, q) == FirstMatch(b, q)
    ensures FirstMatch(a, q).Some? ==> b[FirstMatch(a, q).value] == a[FirstMatch(a, q).value].(content := b[FirstMatch(a, q).value].content)
  {
    assert forall j :: 0 <= j < |a| ==> (Matches(a[j], q) <==> Matches(b[j], q));
    FirstMatchUnique(a, b, q);
  }

  // ---------------------------------------------------------------------
  // bump_serial on the connection
  // ---------------------------------------------------------------------

  /** `bump_serial(domain_id, conn)`. */
  method BumpSerial(conn: Connection, domainId: int) returns (r: Result<(), BumpError>)
    modifies conn
    ensures (conn.Snapshot(), r) == SerialBumped(old(conn.Snapshot()), domainId)
  {
    var soa := SelectRecord(conn.Snapshot(), SoaOf(domainId));
    if soa.None? {
      return Err(NoSoaRecord);
    }
    var newContent := BumpContent(soa.value.content);
    if newContent.Err? {
      return Err(newContent.error);
    }
    conn.UpdateRecords(WithId(soa.value.id), SetContent(newContent.value));
    r := Ok(());
  }
}
