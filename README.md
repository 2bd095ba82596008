# SWIFT code directory — Dafny model

A model of the two pieces of logic in the SWIFT-code REST service: the bulk loader that
reads the eight-column SWIFT code table into the store (`parser.go`), and the branch
directory's four handlers (`cmd/server/main.go`) with HTTP stripped away.

The MySQL store is replaced by a class `Store.Database` holding the two tables as maps:
`countries` (country_iso2 → country_name) and `branches` (swift_code → the rest of the
row). An insert reports `Inserted`, `DuplicateKey` (MySQL error 1062) or
`ForeignKeyViolation`. The store checks the primary key before the foreign key. A delete
reports the number of rows affected. `Database.Valid()` is the foreign key from branches to
countries.

Files:

- `wrappers.dfy`: `Option` and `Result`.
- `swift_code.dfy`: Go's `HasPrefix`, `HasSuffix` and `CutSuffix`. The headquarter rule: a
  code ending in `"XXX"` is a headquarter, and its branches share the code with that suffix
  cut off.
- `store.dfy`: the two tables and the three SQL statements the core issues against them.
- `parser.dfy`: `ParseCSV`, `InsertCountries`, `InsertBranches`, `insertRecord`,
  `insertCountry` and `Parse`, written as methods with loops. Each loop is proved against a
  specification function: `ParsedRecords`, `FirstByName` and `LoadBranchesFrom`. The
  country-insert order is Go's map iteration order, which Go leaves unspecified. The model
  picks each country with `:|`, so every order is covered. The resulting countries table is
  described by the order-independent predicate `CountriesLoaded`.
- `server.dfy`: `getBranchBySwift` and `getBranchesByCountry` as functions of the tables.
  `postBranch` and `deleteBranch` are methods on the store. Branch lists are sets, because
  the queries have no `ORDER BY`.

Behaviour worth knowing, each proved:

- Running the insert phase again over the same records changes neither table. It also ends
  the same way, aborted at the same record or completed (`InsertPhaseIdempotent`).
- Countries are deduplicated by name, and each name keeps the ISO2 code of its first
  record. A later record's ISO2 code is therefore inserted only if some name's first record
  brings it. Take a record whose ISO2 code is neither registered yet nor the first code of
  any name. Suppose also that its SWIFT code is new and that every earlier record's country
  is known. Then its branch violates the foreign key and the load aborts at that record
  (`ConflictingCountryCodeAbortsLoad`). One instance is a single name seen with two codes
  (`ConflictingCountryCodeExample`). Input in which each name has one code always loads
  completely (`NameConsistentRecordsLoadCompletely`).
- The loader derives `is_headquarter` from the code. `postBranch` stores the caller's flag
  unchecked. A row flagged as a headquarter whose code does not end in `"XXX"` has the whole
  code as its prefix, so it lists itself among its branches
  (`FlaggedCodeWithoutSuffixListsItself`). A code that does end in `"XXX"` never lists
  itself (`HeadquarterNeverListsItself`).
- A created row resolves with the country name taken from the countries table, not from
  the request (`CreatedBranchResolves`).

Facts about the code that the model keeps:

- `postBranch` reports one failure for a duplicate code and for an unknown country, with
  one message (cmd/server/main.go:122-124). The model has one `InsertRejected` outcome.
- `ParseCSV` has two error paths, one for a file it cannot open and one for a file it
  cannot read (parser.go:57-67). The model has `OpenFailed` and `ReadFailed`.
- `ParseCSV` indexes columns 0–7 of every row after the header and checks nothing itself.
  Go's CSV reader, with its default settings, takes the field count from the header row
  and makes the whole read fail on any row with another count. That failure is the
  `ReadFailed` path. So a row with fewer than eight fields can reach the indexing only when
  every row, the header included, is that short, and then the indexing panics. The model
  takes the table as given and requires at least eight fields on every row after the
  header. It does not check field counts, so a table whose rows differ in length parses in
  the model, although Go reports a read error for it.
- The headquarter prefix is the code minus a trailing `"XXX"`, with no check on its length
  (cmd/server/main.go:201).

## Model

| member | source | states |
|---|---|---|
| `SwiftCode.CutSuffix` | cmd/server/main.go:201 | the flag says whether the suffix was there; if it was, prefix + suffix is the input, otherwise the input comes back whole |
| `SwiftCode.SuffixRoundTrip` | cmd/server/main.go:201 | any prefix followed by "XXX" is a headquarter code, and cutting the suffix gives the prefix back |
| `SwiftCode.HeadquarterCodeShape` | parser.go:83 | a code is a headquarter code exactly when it is some string followed by "XXX" |
| `SwiftCode.CodeStartsWithBranchPrefix` | cmd/server/main.go:201-209 | every code starts with the prefix computed from it |
| `Store.Database.InsertCountry` | parser.go:134-137 | a duplicate ISO2 is refused and changes nothing; otherwise exactly that country is added; branches untouched |
| `Store.Database.InsertBranch` | parser.go:127-130 | a duplicate code is refused, then an unknown country; otherwise exactly that row is added; the foreign key is kept |
| `Store.Database.DeleteBranch` | cmd/server/main.go:79-86 | reports 1 row affected if the code was stored and 0 otherwise; removes exactly that code |
| `Parser.ParsedRecords` | parser.go:69-86 | one record per row after the header; columns 0–7 map to ISO2, code, code type, name, address, town, country name, time zone; the flag is true iff the code ends in "XXX" |
| `Parser.ParseCSV` | parser.go:56-87 | a file that cannot be opened or read yields that error and no records; a table yields exactly the parsed records |
| `Parser.FirstByName` | parser.go:90-99 | each entry of the country set is keyed by its own country name |
| `Parser.FirstByNameIsFirstOccurrence` | parser.go:92-99 | every record's country name is in the set, and each name holds the country of the first record with that name |
| `Parser.CollectCountries` | parser.go:90-99 | the loop builds exactly the first-occurrence country set |
| `Parser.InsertCountry` | parser.go:134-137 | one country insert with the store's outcome and effect |
| `Parser.InsertCountries` | parser.go:89-111 | exactly one insert per distinct name, in any order; the countries table afterwards keeps old rows and holds every collected ISO2; branches untouched |
| `Parser.RowOf` | parser.go:127-130 | the stored is_headquarter comes from the code's suffix, not from the record's own flag |
| `Parser.InsertRecord` | parser.go:126-131 | one branch insert of the record's row with the store's outcome and effect |
| `Parser.InsertBranches` | parser.go:113-124 | the table and the outcome are those of inserting the records in order, skipping duplicates and stopping at the first other failure |
| `Parser.LoadBranchesKeepsRows` | parser.go:114-122 | rows already stored are never overwritten by the loader |
| `Parser.LoadBranchesNewRows` | parser.go:114-131 | each new row is the row of the first record with that code, has the suffix-derived flag and references a known country |
| `Parser.LoadBranchesOutcome` | parser.go:114-122 | a completed load leaves every record's code stored; an aborted one stopped at the first new code with an unknown country |
| `Parser.LoadBranchesCompletes` | parser.go:114-122 | if every record's country is known, the loop never aborts |
| `Parser.LoadBranchesIdempotent` | parser.go:114-122 | re-running the loop on its own result changes nothing and ends the same way |
| `Parser.Parse` | parser.go:32-54 | a parse failure leaves the store unchanged; otherwise countries are loaded first and branches are loaded against the resulting countries table |
| `Parser.InsertPhaseIdempotent` | parser.go:40-52 | a second insert phase over the same records leaves both tables and the outcome as the first left them |
| `Parser.NameConsistentRecordsLoadCompletely` | parser.go:89-124 | when each country name comes with one ISO2 code, the branch load completes |
| `Parser.ConflictingCountryCodeAbortsLoad` | parser.go:92-122 | a record whose ISO2 is unregistered and is no name's first code stays unregistered; if its SWIFT code is new and every earlier record's country is known, the load aborts exactly at that record |
| `Parser.ConflictingCountryCodeExample` | parser.go:92-122 | one name seen with codes PL and PO, loaded into empty tables, aborts at the PO record in every country-insert order |
| `Parser.ParsedExampleTable` | internal/parser/partser_test.go:11-28 | the test's table, a header and two tab-indented data rows, gives two records: a branch, then a headquarter |
| `Server.GetBranchBySwift` | cmd/server/main.go:176-232 | fails with NotFound iff the code has no joined row; the result carries the requested code and is a headquarter iff the stored flag is set; the fields come from the row and the country name from the countries table |
| `Server.LookupFailsOnlyForUnknownCode` | cmd/server/main.go:180-192 | with the foreign key in force, a lookup fails exactly when the code is not stored |
| `Server.HeadquarterListsExactly` | cmd/server/main.go:201-225 | a headquarter lists a stored code iff it starts with the headquarter's prefix and does not end in "XXX"; each entry is that row's view |
| `Server.HeadquarterNeverListsItself` | cmd/server/main.go:201-209 | a headquarter code ending in "XXX" lists neither itself nor any other headquarter code |
| `Server.FlaggedCodeWithoutSuffixListsItself` | cmd/server/main.go:194-209 | a row flagged as a headquarter whose code lacks "XXX" lists itself |
| `Server.LoneHeadquarterHasNoBranches` | cmd/server/main.go:227-230 | a headquarter with no non-"XXX" code under its prefix resolves with an empty list |
| `Server.GetBranchesByCountry` | cmd/server/main.go:130-174 | fails with NotFound iff the ISO2 is not registered; otherwise returns the stored name and only rows of that country, each as its view |
| `Server.CountryListsEveryBranch` | cmd/server/main.go:146-171 | every branch of the country is listed; a country without branches yields an empty list |
| `Server.PostBranch` | cmd/server/main.go:96-128 | a missing field rejects without touching the store; a duplicate code or unknown country rejects and leaves the store unchanged; otherwise exactly the request's row is added, with town and time zone NULL |
| `Server.CreatedBranchResolves` | cmd/server/main.go:119-121 | a created row resolves to the request's fields, with the country name taken from the countries table |
| `Server.DeleteBranch` | cmd/server/main.go:76-94 | succeeds iff the code was stored; removes exactly that row; on failure the store is unchanged; afterwards the code no longer resolves |
| `Server.DeleteOnlyAffectsItsCode` | cmd/server/main.go:79-93 | after a delete the code fails to resolve and other plain branches resolve as before |
| `Server.PostThenDelete` | cmd/server/main.go:76-128 | when postBranch succeeds, deleteBranch of the same code succeeds and both tables are back as they were; when postBranch fails, the delete only removes a code that was already stored |

## Left out

- Connection bootstrap (`db.go`, `internal/database/db.go`): environment variables, DSN
  formatting, `sql.Open` and `Ping`. This is I/O with no logic.
- Gin routing, JSON binding (including the `BindJSON` failure), HTTP status codes and
  message texts, and logging. Handler outcomes are `Result` values.
- Storage failures unrelated to the data: a closed connection or a failed query or scan.
  The in-memory store cannot fail that way. So `deleteBranch`'s "delete errored" path and
  the read handlers' query errors are not modelled.
- MySQL `LIKE` semantics. In the database, `%` and `_` inside the prefix act as wildcards,
  and the default collation ignores case. The model uses exact prefix and suffix tests and
  exact key matches.
- The country pre-check in `postBranch`. It compares against `sql.ErrNoRows`, which
  `db.Query` never returns, so it never fires. The foreign key is enforced only by the
  store's insert.
- The concrete order of country inserts, which follows Go map iteration order. The model
  covers every order and states what holds in all of them.
- The order of the branch lists returned by the read handlers. They are sets.
- CSV tokenisation (quoting, the reader's field-count consistency check). The input is a
  sequence of rows of fields. Every row after the header must have at least eight fields,
  because the code indexes `record[7]`.
- Process termination by `log.Fatalf`. The model ends the load with `Aborted(i)`, where `i`
  is the record that failed.
- Concurrent handler execution over the shared connection.
- The file path hard-wired in `Parse`. The file's contents are a parameter.
