# recordion, modelled in Dafny

recordion is a small HTTP API in front of a PowerDNS-style PostgreSQL database.
Callers present a bearer JWT whose `"n"` claim is a *namespace*: a domain name,
or `*` for everything. The API lets a caller list, create and delete the
domains its namespace covers. It also lets a caller list, create, update and
delete the records of those zones. Every change to a zone's records bumps the
serial in the zone's SOA record. The SOA record itself is locked.

This project models the five core files:

- **constants.py**: the `DOMAIN_RE` grammar, the record-type settings and the SOA/TTL defaults.
- **utils.py**: `validate_domain` and `bump_serial`.
- **auth.py**: the token check and `check_auth`.
- **models.py**: the request and response models with their validators.
- **app.py**: the route handlers.

Each file becomes one or more modules:

| module | file | what it holds |
|---|---|---|
| `Text` | (Python built-ins) | The string built-ins the code relies on: `str.split(sep)`, `str.split()`, `join`, `count`, `endswith`, `int()` and `str()`. |
| `Constants` | constants.py | The grammar, including the way Python's `$` accepts one trailing newline. The comma-split of `ALLOWED_RECORDS`. The locked types. The settings as `LoadConfig` of an explicit environment. |
| `Db` | (database) | The two tables, as sequences of rows in scan order, with the id sequences. The SQL statements the handlers issue, as functions on the table values. A `Connection` class whose methods perform those statements in place. |
| `Utils` | utils.py | `validate_domain`. The SOA content rewrite. `bump_serial`, both as a function on tables (`SerialBumped`) and as a method on a connection (`BumpSerial`). |
| `Models` | models.py | A builder for each pydantic model, which returns the model or the validation error. |
| `Auth` | auth.py | `check_auth` and its raising variant. The token check, as a `RequestState` class whose `Authorize` method stores the namespace. |
| `Handlers` | app.py | One specification function per handler, from the tables and inputs to the new tables and the response or failure. Lemmas about each. |
| `Invariant` | app.py | The well-formedness of the tables, and a proof that every handler keeps it. |
| `App` | app.py | The handlers as methods on a `Connection`. The cursor loops are `while` loops. Each method is proved to equal its `Handlers` function. |

## Behaviour the model keeps

The model keeps a number of behaviours that are easy to miss in the Python code.

**Record types and SOA**
- `"".split(",")` is `[""]`, which is truthy. So `DEFAULT_ALLOWED_RECORDS` is never selected. With the setting unset, no real record type is allowed.
- `ALLOWED_RECORDS` is not filtered against the locked types. If a deployment lists `SOA` there, `create_record` accepts SOA records.
- SOA records are meant to be system-managed only, but the code does not enforce it. The model follows the code, and the invariant lemmas require settings that leave SOA out (`Invariant.ConfigOk`).

**Names and authorisation**
- `DOMAIN_RE.match` uses `$`, so it accepts a name followed by one `"\n"`.
- `check_auth` compares the last *k* labels of the domain with the namespace, where *k* is the namespace's label count. This respects label boundaries.
- The record-name check in `create_record` is a plain `endswith`, which does not respect label boundaries.

**Database**
- A failed `INSERT` into `domains` still consumes an id from the sequence. A transaction rollback restores rows, but not sequences.
- `create_record` and `update_record` commit their change before `bump_serial` runs. So a failing bump leaves the change in place. `delete_record` bumps first.
- Falsy values (`None`, `0`, `""`) fall back under `or`. This applies to the record ttl, and to the content, ttl and prio of an update.
- `fetchval` of a domain id treats an id of 0 as not found.

## Model

| member | source | states |
|---|---|---|
| `Constants.DomainReMatch` | recordion/constants.py:18-21 | No contract of its own; `GrammarIsLabelSequence`, `SingleLabelRejected`, `MatchHasNoEmptyLabel`, `MatchCharacters`, `TrailingNewlineMatches` and `ExampleComMatches` state what `DOMAIN_RE.match` accepts. |
| `Constants.GrammarIsLabelSequence` | recordion/constants.py:18-21 | A name is in the grammar exactly when its dot-split has at least two parts and each is a label of 1 to 63 letters, digits or hyphens that ends with a letter or digit; a leading hyphen is accepted, as the regular expression allows it. |
| `Constants.SingleLabelRejected` | recordion/constants.py:18-21 | A name without a dot never matches. |
| `Constants.MatchHasNoEmptyLabel` | recordion/constants.py:18-21 | A matching name is non-empty, does not start or end with a dot, and has no two dots in a row. |
| `Constants.MatchCharacters` | recordion/constants.py:18-21 | A matching name holds only letters, digits, hyphens and dots, except perhaps one final newline. |
| `Constants.GrammarCharacters` | recordion/constants.py:18-21 | A name in the grammar holds only letters, digits, hyphens and dots. |
| `Constants.TrailingNewlineMatches` | recordion/constants.py:18-21 | `re.match` with `$` accepts `"example.com\n"`, which the grammar itself rejects. |
| `Constants.ExampleComMatches` | recordion/constants.py:18-21 | `example.com` is in the grammar. |
| `Constants.AllowedRecordsIsTheSplit` | recordion/constants.py:15-16 | The allowed list is always the comma-split of the setting. When the setting is unset it is `[""]`, and no default type is allowed. |
| `Constants.SoaLockedNotAllowed` | recordion/constants.py:15-23 | SOA is the only locked type, and it is not among the default allowed types. |
| `Constants.DefaultStrings` | recordion/constants.py:8-13 | The default strings of the numeric settings are what `str` prints for 3600, 1800, 43200, 3600 and 300. |
| `Constants.UnsetNumber` | recordion/constants.py:8-13 | An unset numeric setting reads as the number its default string prints. |
| `Constants.LoadConfig` | recordion/constants.py:6-16 | No contract of its own; `AllowedRecordsIsTheSplit`, `UnsetNumber` and `DefaultConfig` state the settings it computes from the environment. |
| `Constants.DefaultConfig` | recordion/constants.py:6-16 | With nothing set, the settings are the documented defaults (3600, 1800, 43200, 3600, 300) and the allowed list is `[""]`. |
| `Text.WordsAreWords` | recordion/utils.py:15 | Every token `str.split()` yields is a non-empty run of non-space characters. |
| `Text.SplitPiecesLackSeparator` | recordion/auth.py:40 | No piece of `s.split(".")` contains a dot. |
| `Text.WordsJoin` | recordion/utils.py:17 | Joining words with single spaces and splitting the result gives the words back. |
| `Text.ParseIntToString` | recordion/utils.py:16-17 | `int(str(n)) == n` for every integer. |
| `Text.JoinSplit` | recordion/auth.py:40 | `".".join(s.split("."))` is `s`. |
| `Text.SplitJoin` | recordion/auth.py:40 | Splitting a join of dot-free pieces gives the pieces back. |
| `Text.SplitCount` | recordion/auth.py:39-40 | A dot-split has one more part than the string has dots. |
| `Utils.ValidateDomain` | recordion/utils.py:27-33 | Ok exactly for a matching name of at most 255 characters. The syntax error is reported first, then the length error. |
| `Utils.ValidDomainShape` | recordion/utils.py:27-33 | A valid name is 1 to 255 characters long, contains a dot, has no empty label and uses only the allowed characters. |
| `Utils.BumpContent` | recordion/utils.py:15-17 | The rewrite succeeds exactly when the content's third token parses as an integer. It fails with the IndexError case exactly when there are fewer than three tokens. |
| `Utils.BumpContentRoundTrip` | recordion/utils.py:15-17 | Splitting the rewritten content gives tokens 0, 1 and 3 onwards unchanged, with the serial token one higher. Its serial is the old serial plus one. |
| `Utils.WordsOfRewrite` | recordion/utils.py:17 | Splitting the f-string `bump_serial` assembles gives back exactly the tokens it was assembled from. |
| `Utils.BumpContentTrailingSpace` | recordion/utils.py:17 | With nothing after the serial, the rewritten content ends in a space. |
| `Utils.SerialBumped` | recordion/utils.py:6-24 | No contract of its own; `BumpFailsLoudly`, `BumpTouchesOnlySoaContent`, `BumpIncrementsSerial`, `BumpKeepsOtherSerials` and `BumpChangesOnlyContents` state what the bump does, and `Utils.BumpSerial` is proved equal to it. |
| `Utils.BumpFailsLoudly` | recordion/utils.py:10-17 | The bump fails exactly when there is no SOA row or it has no serial. It reports the missing row as such, and on failure changes nothing. |
| `Utils.BumpTouchesOnlySoaContent` | recordion/utils.py:6-24 | A successful bump changes only the content of the zone's first SOA row. Every other row, the domains and the id sequences stay. |
| `Utils.BumpIncrementsSerial` | recordion/utils.py:6-24 | A successful bump raises the zone's serial by exactly one. |
| `Utils.BumpKeepsOtherSerials` | recordion/utils.py:6-24 | A bump of one zone leaves every other zone's serial as it was. |
| `Utils.BumpChangesOnlyContents` | recordion/utils.py:20-24 | The UPDATE by id rewrites contents only: every row keeps its other columns and its position. |
| `Utils.SameRowKindsSameFirst` | recordion/utils.py:10-12 | Changing only contents does not change which row a query on keys finds first. |
| `Utils.BumpSerial` | recordion/utils.py:6-24 | The method leaves the connection's tables, and returns the outcome, exactly as `SerialBumped` says. |
| `Models.MakeNewDomain` | recordion/models.py:6-15 | Building `NewDomain` succeeds exactly for a valid name and reports `validate_domain`'s error otherwise. |
| `Models.MakeDomain` | recordion/models.py:18-21 | `Domain` inherits the name validator. |
| `Models.MakeNewRecord` | recordion/models.py:24-37 | Only the record name is validated. Content, type, ttl and prio are taken as given. |
| `Models.MakeRecord` | recordion/models.py:48-54 | `Record` re-runs the name validator, with a required ttl. |
| `Models.MakeTokenRequest` | recordion/models.py:57-67 | A namespace passes exactly when it is `*` or a valid domain. |
| `Models.SingleLabelNamespaceRejected` | recordion/models.py:62-67 | A single-label namespace other than `*`, such as a top-level domain, is refused. |
| `Models.TokenRequestExamples` | recordion/models.py:57-67 | `com` fails, while `*` and `example.com` pass. |
| `Auth.LastLabels` | recordion/auth.py:40 | For `k >= 1`, which is all the caller passes, `labels[-k:]` is the last `min(k, len)` labels. |
| `Auth.CheckAuth` | recordion/auth.py:32-47 | No contract of its own; `CheckAuthIsLabelSuffix` characterises it, and `AuthOfItself`, `AuthOfSubdomain`, `GrantIsItselfOrBelow`, `LongerNamespaceDenied` and the example lemmas state its grants and refusals. |
| `Auth.CheckAuthOrRaise` | recordion/auth.py:32-47 | True on a grant. On a denial it gives False without `do_raise` and the 403 with it. |
| `Auth.StatusCode` | recordion/auth.py:17-26 | A missing token is the 401. The other refusals are 403s. |
| `Auth.AuthOfItself` | recordion/auth.py:36-47 | Every namespace grants the domain of the same name. |
| `Auth.AuthOfSubdomain` | recordion/auth.py:36-47 | Every namespace grants every name that ends in a dot followed by the namespace. |
| `Auth.GrantIsItselfOrBelow` | recordion/auth.py:36-47 | A grant by a namespace other than `*` is for the namespace itself or a name below it. |
| `Auth.CheckAuthIsLabelSuffix` | recordion/auth.py:32-47 | A domain is granted exactly when the namespace is `*`, or is the domain itself, or the domain ends in a dot followed by the namespace. |
| `Auth.LongerNamespaceDenied` | recordion/auth.py:39-47 | A namespace with more labels than the domain never grants it. |
| `Auth.CheckAuthGrantExample` | recordion/auth.py:32-47 | `example.com` grants `a.example.com`. |
| `Auth.CheckAuthDenyExamples` | recordion/auth.py:32-47 | `example.com` does not grant `notexample.com`: the match is on whole labels. |
| `Auth.CheckAuthIsCaseSensitive` | recordion/auth.py:32-47 | `Example.com` does not grant `example.com`: the comparison is case-sensitive. |
| `Auth.TokenNamespace` | recordion/auth.py:12-29 | An empty token is the 401, and an undecodable token or one without `"n"` is the 403. Otherwise the namespace is the `"n"` claim. |
| `Auth.RequestState.constructor` | recordion/auth.py:34 | A request starts without a namespace. |
| `Auth.RequestState.Authorize` | recordion/auth.py:12-29 | The namespace is stored exactly when the token is accepted, and the token is returned. On a refusal the state is unchanged. |
| `Db.FirstDomainNamed` | recordion/app.py:109 | The position of the first domain row with the name, or none when no row has it. |
| `Db.SelectDomainId` | recordion/app.py:109 | `fetchval` gives an id exactly when some domain row has the name, and the id it gives is that of the first such row. |
| `Db.FirstMatch` | recordion/utils.py:10-12 | The position of the first row the WHERE clause matches. No earlier row matches, and none is found only when no row matches. |
| `Db.FirstRow` | recordion/app.py:156-161 | The row found is in the table and matches, and none is found only when no row matches. |
| `Db.SelectRecord` | recordion/app.py:205-207 | `fetchrow`/`fetchval` on `records`: the first matching row, or none when no row matches. |
| `Db.UpdateWhere` | recordion/app.py:223-229 | UPDATE keeps the length and order of the table and changes exactly the matching rows. |
| `Db.DeleteWhere` | recordion/app.py:269 | DELETE keeps exactly the rows that do not match. |
| `Db.DeleteWhereSplits` | recordion/app.py:269 | DELETE works on a concatenation part by part, so the surviving rows keep their order. |
| `Db.DeleteWhereSingle` | recordion/app.py:269 | A single row survives exactly when the query does not match it. |
| `Db.DeleteDomainsNamed` | recordion/app.py:96-99 | The rows left are those with another name. The count is 0 exactly when no row had the name, and then nothing changed. |
| `Db.FirstMatchUnique` | recordion/utils.py:10-12 | Two tables whose rows match at the same positions give the same first match. |
| `Db.FirstRowAppend` | recordion/app.py:167-176 | An INSERT does not change what a query finds first, unless nothing matched before and the new row matches. |
| `Db.ApplyKeepsMatches` | recordion/app.py:223-229 | The SET clauses touch no column a WHERE clause reads. |
| `Db.FirstRowAfterUpdate` | recordion/app.py:223-229 | An UPDATE of rows a query never finds leaves that query's first row as it was. |
| `Db.FirstRowAfterDelete` | recordion/app.py:269 | A DELETE of rows a query never finds leaves that query's first row as it was. |
| `Db.Connection.constructor` | recordion/app.py:31-34 | The connection the startup hook opens, on a fresh database: empty tables, and both sequences at 1. |
| `Db.Connection.InsertDomain` | recordion/app.py:66-70 | The connection's tables become `InsertDomainRow` of the old ones. A duplicate name adds no row but uses up an id. |
| `Db.Connection.InsertRecord` | recordion/app.py:75-82 | The connection's tables become `InsertRecordRow` of the old ones: the row is appended under the next id. |
| `Db.Connection.UpdateRecords` | recordion/utils.py:20-24 | The records become `UpdateWhere` of the old ones, and nothing else changes. |
| `Db.Connection.DeleteRecords` | recordion/app.py:268-269 | The records become `DeleteWhere` of the old ones, and nothing else changes. |
| `Db.Connection.DeleteRecordsOfDomain` | recordion/app.py:93-95 | Deletes the records of the zone whose domain has the name, if there is one. |
| `Db.Connection.Rollback` | recordion/app.py:92-99 | The rows return to the saved ones, and the sequences keep the values they reached. |
| `Db.Connection.DeleteDomains` | recordion/app.py:96 | Deletes the domain rows with the name and returns how many there were. |
| `Handlers.StatusCode` | recordion/app.py:58-278 | Every failure maps to 400, 403, 404, 409 or 500, and to 500 exactly when the bump or the response model failed. |
| `Handlers.LookupDomain` | recordion/app.py:140-142 | Ok exactly when a domain row has the name and its id is truthy. Otherwise the 404. |
| `Handlers.LookupRecord` | recordion/app.py:205-209 | The record found is in the table, in the zone and has the id. The 404 comes exactly when no row of the zone has the id. |
| `Handlers.IdInDomainIsTheRow` | recordion/app.py:205-229 | With unique ids, the row the lookup finds is the only one with that id, so the UPDATE or DELETE by id touches just that row. |
| `Handlers.SoaContentFields` | recordion/app.py:73 | A new zone's SOA content splits back into its six fields, and its serial is 1. |
| `Handlers.CreateDomain` | recordion/app.py:58-84 | No contract of its own; `CreateDomainOutcome`, `CreateDomainStartsZone` and `Invariant.CreateDomainKeepsWf` state its refusals, its new zone and the invariant it keeps, and `App.CreateDomain` is proved equal to it. |
| `Handlers.CreateDomainOutcome` | recordion/app.py:58-84 | A 403 without the grant. A 409 exactly when the name is taken, with no row added. Otherwise the domain row and its SOA row are appended with fresh ids. |
| `Handlers.CreateDomainStartsZone` | recordion/app.py:72-82 | The new zone holds exactly its SOA row, and its serial is 1. |
| `Handlers.AppendToEmptyZone` | recordion/app.py:75-82 | A row appended to a zone that has no rows yet is the zone's only row. When it is an SOA row, it is the zone's first SOA row. |
| `Handlers.DeleteDomain` | recordion/app.py:87-99 | No contract of its own; `DeleteDomainCascades` and `Invariant.DeleteDomainKeepsWf` state its cascade, its refusals and the invariant it keeps, and `App.DeleteDomain` is proved equal to it. |
| `Handlers.DeleteDomainCascades` | recordion/app.py:87-99 | No domain of that name and none of its zone's records remain, and every other row remains. A 404 or 403 leaves the tables as they were. |
| `Handlers.GrantedDomains` | recordion/app.py:46-55 | The cursor loop fails only with the response-model error. |
| `Handlers.GrantedDomainsFails` | recordion/app.py:46-55 | The listing fails exactly when a granted row has a name the `Domain` model refuses. |
| `Handlers.GrantedDomainsExact` | recordion/app.py:46-55 | The listing holds exactly the granted rows, as `Domain` values. |
| `Handlers.VisibleDomains` | recordion/app.py:43-55 | No contract of its own; `VisibleDomainsExact` and `Invariant.GetDomainsAnswers` state what it lists and that it answers, and `App.GetDomains` is proved equal to it. |
| `Handlers.VisibleDomainsExact` | recordion/app.py:43-55 | `get_domains` lists exactly the domains `check_auth` grants to the namespace, and fails only on a name the model refuses. |
| `Handlers.ZoneRecords` | recordion/app.py:113-132 | The listing holds exactly the zone's rows as `Record` values, and fails exactly when one of them has an invalid name. |
| `Handlers.GetRecords` | recordion/app.py:102-132 | A 403 exactly without the grant, and a 404 exactly for an unknown domain. Otherwise the listing holds exactly the zone's records. |
| `Handlers.GetRecordsCanEdit` | recordion/app.py:128 | Every listed record is editable exactly when it is not the SOA, and carries the requested domain. |
| `Handlers.CreateRecord` | recordion/app.py:135-191 | No contract of its own; `CreateRecordCheckOrder`, `CreateRecordAppends`, `Invariant.CreateRecordBumpsOnce` and `Invariant.CreateRecordKeepsWf` state its refusals, its effect, its serial and the invariant it keeps, and `App.CreateRecord` is proved equal to it. |
| `Handlers.CreateRecordCheckOrder` | recordion/app.py:135-163 | The checks run in order (grant, domain, name suffix, type, existing record). Each error is reported exactly when all earlier checks passed and its own failed, and none of them changes the tables. |
| `Handlers.CreateRecordAppends` | recordion/app.py:165-191 | Success means the zone exists and the bump succeeded. The tables are then the bump of the old tables with exactly the new row appended, with the ttl defaulted when falsy, and the answer is that row. `Invariant.CreateRecordBumpsOnce` draws from this the serial after the request. |
| `Handlers.CreateRecordPassed` | recordion/app.py:165-191 | Once every check has passed, the outcome is the insert followed by the bump: the bump's failure as the 500, or the new row. |
| `Handlers.UniqueAfterAppend` | recordion/app.py:167-176 | An insert under a fresh id keeps the ids unique. |
| `Handlers.NameCheckIgnoresLabels` | recordion/app.py:145-146 | The record-name check passes `notexample.com` for `example.com`, which `check_auth` would refuse. |
| `Handlers.UpdateRecord` | recordion/app.py:194-242 | No contract of its own; `UpdateRecordCheckOrder`, `UpdateRecordChangesOneRow`, `Invariant.UpdateRecordBumpsOnce` and `Invariant.UpdateRecordKeepsWf` state its refusals, its effect, its serial and the invariant it keeps, and `App.UpdateRecord` is proved equal to it. |
| `Handlers.UpdateMergesByTruthiness` | recordion/app.py:218-220 | Content, ttl and prio take the new value exactly when it is truthy. Name, type, zone and id never change. |
| `Handlers.UpdateRecordCheckOrder` | recordion/app.py:194-215 | The checks run in order (grant, domain, record in that domain, lock). Each of the 403, the two 404s and the 400 comes exactly when the earlier checks passed and its own failed. Every refusal other than a failing bump or an invalid response leaves the tables as they were. |
| `Handlers.UpdateRefusesLocked` | recordion/app.py:213-215 | A locked record is refused with the 400, and nothing changes. |
| `Handlers.UpdateRecordChangesOneRow` | recordion/app.py:194-242 | With unique ids, success rewrites only the row with that id, as merged. The tables are then the bump of that. `Invariant.UpdateRecordBumpsOnce` draws from this the serial after the request. |
| `Handlers.UpdateRecordSucceeded` | recordion/app.py:194-242 | A successful update passed the grant, the domain and the record lookups and the lock check, and its bump succeeded on the updated tables. The tables are then that bump. |
| `Handlers.UpdateByIdChangesOneRow` | recordion/app.py:222-229 | With unique ids, the UPDATE by the id of one row changes that row and no other. |
| `Handlers.UniqueAfterUpdate` | recordion/app.py:223-229 | An update keeps the ids unique. |
| `Handlers.DeleteRecord` | recordion/app.py:245-269 | No contract of its own; `DeleteRecordCheckOrder`, `DeleteRecordRemovesOne`, `Invariant.DeleteRecordBumpsOnce` and `Invariant.DeleteRecordKeepsWf` state its refusals, its effect, its serial and the invariant it keeps, and `App.DeleteRecord` is proved equal to it. |
| `Handlers.DeleteRecordCheckOrder` | recordion/app.py:245-266 | The checks run in the same order as the update's, each of the 403, the two 404s and the 400 exactly when its own check fails after the earlier ones passed. Every failure, a failing bump included, leaves the tables as they were. |
| `Handlers.DeleteRefusesLocked` | recordion/app.py:262-264 | A locked record is refused with the 400, and nothing changes. |
| `Handlers.DeleteRecordSucceeded` | recordion/app.py:245-269 | A successful delete passed every check, on a record that is not locked. Its bump succeeded, and the tables are the bump followed by the DELETE by id. |
| `Handlers.DeleteAfterBump` | recordion/app.py:266-269 | Bumping and then deleting a non-SOA row of the zone by its id leaves the serial one above where it started. Together with `DeleteRecordSucceeded`, this is the serial after a successful delete. |
| `Handlers.BumpKeepsOtherRows` | recordion/app.py:266 | The bump keeps every non-SOA row. |
| `Handlers.DeleteRecordRemovesOne` | recordion/app.py:245-269 | After a successful delete, no row has that id, and every other non-SOA row is kept. |
| `Handlers.GenerateToken` | recordion/app.py:272-278 | Only a `*` caller gets a token. Anyone else gets the 403. |
| `Handlers.GeneratedTokenAuthenticates` | recordion/app.py:272-278 | When decoding undoes encoding, a minted token passes the token check with the requested namespace. |
| `Invariant.EmptyWf` | recordion/app.py:31-34 | The empty tables of a fresh database are well formed. |
| `Invariant.CreateRecordBumpsOnce` | recordion/app.py:135-191 | On well-formed tables, a successful create finds the zone with a serial, and leaves that serial exactly one above its value before the request. |
| `Invariant.UpdateRecordBumpsOnce` | recordion/app.py:194-242 | With unique ids, a successful update finds the zone with a serial, and leaves that serial exactly one above its value before the request. |
| `Invariant.DeleteRecordBumpsOnce` | recordion/app.py:245-269 | With unique ids, a successful delete finds the zone with a serial, and leaves that serial exactly one above its value before the request. |
| `Invariant.LookedUpIdIsNotSoa` | recordion/app.py:204-214 | With unique ids, no row carrying the id of a record found in the zone with a type other than SOA is an SOA row. |
| `Invariant.UpdateKeepsZoneSerial` | recordion/app.py:221-228 | An UPDATE by an id that no SOA row carries leaves the zone's serial alone. |
| `Invariant.AppendKeepsZoneSerial` | recordion/app.py:165-176 | Appending a row after a zone's SOA row leaves that zone's serial alone. |
| `Invariant.UpdateOfRecordKeepsSerial` | recordion/app.py:204-228 | An UPDATE by the id of a record of the zone that is not locked leaves the zone's serial alone. |
| `Invariant.UpdateThenBumpSerial` | recordion/app.py:221-230 | The UPDATE of such a record and then the bump leave the serial one above where it started. |
| `Invariant.BumpThenDeleteSerial` | recordion/app.py:262-269 | The bump and then the DELETE of such a record leave the serial one above where it started. |
| `Invariant.BumpAfterSameSerial` | recordion/utils.py:6-24 | Bumping tables that have the serial of some others leaves the serial one above that of the others. |
| `Invariant.UniqueAfterDelete` | recordion/app.py:269 | A DELETE keeps the ids unique. |
| `Invariant.UniqueAfterFreshAppend` | recordion/app.py:167-176 | Appending a row whose id no row has keeps the ids unique. |
| `Invariant.BumpedIdIsNotSoa` | recordion/app.py:262-269 | After the bump, the rows with the id of a non-SOA record of the zone are still not SOA rows, so the DELETE by id never removes an SOA row. |
| `Invariant.SameKeysRowsOk` | recordion/app.py:223-229 | Rows rewritten in place with their ids, zones and names kept keep the record conditions. |
| `Invariant.BumpKeepsRows` | recordion/utils.py:20-24 | A bump keeps the row conditions and does not touch the domains or the sequences. |
| `Invariant.BumpKeepsSerials` | recordion/utils.py:6-24 | A bump of a zone that has a serial succeeds, and every zone keeps a serial. |
| `Invariant.BumpKeepsWf` | recordion/utils.py:6-24 | On well-formed tables, a bump of an existing zone succeeds and keeps the tables well formed. |
| `Invariant.WithZoneDomainsOk` | recordion/app.py:66-70 | A new domain with a fresh id and an unused valid name keeps the domain rows well formed. |
| `Invariant.WithZoneRecordsOk` | recordion/app.py:75-82 | The new SOA row keeps the record rows well formed. |
| `Invariant.WithZoneSerials` | recordion/app.py:72-82 | After the SOA row is added, every zone has a serial. |
| `Invariant.WithoutZoneRowsOk` | recordion/app.py:93-96 | Removing a zone keeps the row conditions. |
| `Invariant.WithoutZoneSerials` | recordion/app.py:93-96 | After a zone is removed, every zone left keeps its serial. |
| `Invariant.WithRecordKeepsWf` | recordion/app.py:165-178 | A new non-SOA row of a known zone, with a fresh id and a valid name, keeps the invariant. |
| `Invariant.WithUpdateSerials` | recordion/app.py:222-229 | An update of rows that are not SOA rows leaves every zone's serial as it was. |
| `Invariant.WithUpdateKeepsWf` | recordion/app.py:222-229 | An update of rows that are not SOA rows keeps the invariant. |
| `Invariant.WithoutRecordKeepsWf` | recordion/app.py:268-269 | A delete of rows that are not SOA rows keeps the invariant. |
| `Invariant.LookupDomainRow` | recordion/app.py:140-142 | The domain row the lookup found is in the table, with that id and name. |
| `Invariant.CreateDomainKeepsWf` | recordion/app.py:58-84 | `create_domain` keeps the tables well formed. |
| `Invariant.DeleteDomainKeepsWf` | recordion/app.py:87-99 | `delete_domain` keeps the tables well formed. |
| `Invariant.CreateRecordKeepsWf` | recordion/app.py:135-191 | `create_record` keeps the tables well formed, and on well-formed tables its bump never fails. |
| `Invariant.UpdateRecordKeepsWf` | recordion/app.py:194-242 | `update_record` keeps the tables well formed, its bump never fails and its response never fails validation. |
| `Invariant.DeleteRecordKeepsWf` | recordion/app.py:245-269 | `delete_record` keeps the tables well formed, and its bump never fails. |
| `Invariant.GetDomainsAnswers` | recordion/app.py:43-55 | On well-formed tables, `get_domains` always answers. |
| `Invariant.GetRecordsAnswers` | recordion/app.py:102-132 | On well-formed tables, `get_records` answers unless it refuses with the 403 or the 404. |
| `App.GetDomains` | recordion/app.py:43-55 | The cursor loop returns exactly `VisibleDomains` of the connection's tables. |
| `App.GetRecords` | recordion/app.py:102-132 | The lookup and cursor loop return exactly `Handlers.GetRecords` of the connection's tables. |
| `App.CreateDomain` | recordion/app.py:58-84 | The statements leave the tables, and answer, exactly as `Handlers.CreateDomain` says. |
| `App.DeleteDomain` | recordion/app.py:87-99 | The two DELETEs, and the rollback when no domain row went, leave the tables and answer exactly as `Handlers.DeleteDomain` says. |
| `App.CreateRecord` | recordion/app.py:135-191 | The checks, the INSERT and the bump leave the tables and answer exactly as `Handlers.CreateRecord` says. |
| `App.UpdateRecord` | recordion/app.py:194-242 | The checks, the UPDATE and the bump leave the tables and answer exactly as `Handlers.UpdateRecord` says. |
| `App.DeleteRecord` | recordion/app.py:245-269 | The checks, the bump and the DELETE leave the tables and answer exactly as `Handlers.DeleteRecord` says. |

## Left out

- FastAPI routing, dependency injection and the JSON encoding of requests and responses are left out. So are the `index` redirect and the development-only `/dev-token` route. The startup hook is plumbing too: `Db.Connection.constructor` stands for the connection it opens, on an empty database. A handler receives a body that has already passed its pydantic validator, which is why `CreateDomain` and `CreateRecord` require a valid name.
- `HTTPBearer`'s parsing of the `Authorization` header is left out. The token check starts from the credentials string; a missing header is a 403 raised inside FastAPI.
- `jwt.encode` and `jwt.decode` are function parameters, and signatures and the key are not modelled. `SECRET_KEY` and `DNS_DATABASE_URL` are not part of this model; `SECRET_KEY` is imported from constants.py but not defined there.
- `Auth.TokenNamespace`: claims are a map from strings to strings, so a token whose `"n"` claim is not a string is not modelled. An integer claim, for one, makes `check_auth` raise on `.count`, which FastAPI answers with a 500.
- Models: `ttl`, `prio` and record ids are unbounded integers, and names, types and contents are unbounded strings. PostgreSQL's `integer` and `varchar` range errors, which the handlers do not catch and which become a 500, are not modelled.
- `Invariant.Wf` does not carry "exactly one SOA row per zone" or the uniqueness of (domain, name, type). No property proved here needs them. This is why `Utils.ZoneSerial` reads the first SOA row of the zone, as `bump_serial`'s `fetchrow` does.
- The database is one connection that sees its own writes; concurrent requests, isolation levels, deadlocks and crash recovery are not modelled. Each handler runs to completion before the next.
- The `domains.type` column (always `'NATIVE'`) and any other columns the handlers never read are left out.
- A `UniqueViolationError` on the record INSERT is not modelled: the schema that would raise it is not part of this model, and the handler checks for an existing record first.
- `Text.ParseInt`: `int()` is modelled for ASCII digits with an optional sign and single underscores between digits, with surrounding whitespace stripped (which `Constants.LoadConfig` relies on for environment values). Non-ASCII digits are not modelled.
- `Constants.LoadConfig`: the environment is an explicit map; a non-integer numeric setting makes the import fail, modelled as None.
- `Invariant.CreateRecordKeepsWf` and the other `Invariant` lemmas require settings in which the SOA names are single tokens and `SOA` is not an allowed type (`ConfigOk`); under other settings the source itself can produce SOA rows the bump cannot parse.
