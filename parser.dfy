/**
 * The bulk loader (parser.go): parse the eight-column SWIFT code table, then insert the
 * distinct countries and, after them, every record as a branch row. Duplicate-key outcomes
 * are expected on a second run and skipped; any other insert failure ends the process
 * (log.Fatalf), which the model reports as an aborted load.
 */
module Parser {
  import opened Wrappers
  import opened SwiftCode
  import opened Store

  /** One parsed row of the table, columns in file order, plus the derived headquarter flag. */
  datatype Record = Record(
    countryIso2: string,
    swiftCode: string,
    codeType: string,
    name: string,
    address: string,
    townName: string,
    countryName: string,
    timeZone: string,
    isHeadquarter: bool)

  datatype CountryRecord = CountryRecord(countryIso2: string, countryName: string)

  /** The input file as the CSV reader hands it over: it could not be opened, it could not
      be read, or it is a table of rows of fields. */
  datatype CsvFile = CannotOpen | CannotRead | Table(rows: seq<seq<string>>)

  datatype ParseError = OpenFailed | ReadFailed

  /** How an insert loop ended: every record handled, or stopped (fatally) at record `at`. */
  datatype LoadOutcome = Completed | Aborted(at: nat)

  datatype IngestOutcome = ParseFailed(error: ParseError) | Parsed(load: LoadOutcome)

  /** Every row after the header has the eight columns the parser indexes. */
  predicate DataRowsComplete(rows: seq<seq<string>>) {
    forall i :: 1 <= i < |rows| ==> |rows[i]| >= 8
  }

  predicate WellShaped(file: CsvFile) {
    file.Table? ==> DataRowsComplete(file.rows)
  }

  function RecordOf(row: seq<string>): Record
    requires |row| >= 8
  {
    Record(row[0], row[1], row[2], row[3], row[4], row[5], row[6], row[7], IsHeadquarterCode(row[1]))
  }

  /** The records ParseCSV produces from a readable table. */
  function ParsedRecords(rows: seq<seq<string>>): (records: seq<Record>)
    requires DataRowsComplete(rows)
    ensures |records| == if rows == [] then 0 else |rows| - 1
    ensures forall k :: 0 <= k < |records| ==>
      var row, r := rows[k + 1], records[k];
      && r.countryIso2 == row[0] && r.swiftCode == row[1] && r.codeType == row[2]
      && r.name == row[3] && r.address == row[4] && r.townName == row[5]
      && r.countryName == row[6] && r.timeZone == row[7]
      && (r.isHeadquarter <==> IsHeadquarterCode(row[1]))
  {
    if |rows| <= 1 then [] else seq(|rows| - 1, k requires 0 <= k < |rows| - 1 => RecordOf(rows[k + 1]))
  }

  /** ParseCSV: skip the header row and map every other row to a Record by position. */
  method ParseCSV(file: CsvFile) returns (result: Result<seq<Record>, ParseError>)
    requires WellShaped(file)
    ensures file.CannotOpen? ==> result == Failure(OpenFailed)
    ensures file.CannotRead? ==> result == Failure(ReadFailed)
    ensures file.Table? ==> result == Success(ParsedRecords(file.rows))
  {
    if file.CannotOpen? {
      return Failure(OpenFailed);
    }
    if file.CannotRead? {
      return Failure(ReadFailed);
    }
    var rows := file.rows;
    var parsedRecords: seq<Record> := [];
    for i := 0 to |rows|
      invariant |parsedRecords| == if i == 0 then 0 else i - 1
      invariant forall k :: 0 <= k < |parsedRecords| ==> parsedRecords[k] == RecordOf(rows[k + 1])
    {
      if i == 0 {
        continue; // the header
      }
      var record := rows[i];
      parsedRecords := parsedRecords + [Record(record[0], record[1], record[2], record[3],
                                               record[4], record[5], record[6], record[7],
                                               IsHeadquarterCode(record[1]))];
    }
    assert parsedRecords == ParsedRecords(rows);
    return Success(parsedRecords);
  }

  // ---------------------------------------------------------------------------
  // Countries

  function CountryOf(r: Record): CountryRecord {
    CountryRecord(r.countryIso2, r.countryName)
  }

  /** The country set InsertCountries builds: one entry per country name, taken from the
      first record with that name. */
  function FirstByName(records: seq<Record>): (m: map<string, CountryRecord>)
    ensures forall n :: n in m ==> m[n].countryName == n
  {
    if records == [] then map[]
    else
      var m := FirstByName(records[..|records| - 1]);
      var r := records[|records| - 1];
      if r.countryName in m then m else m[r.countryName := CountryOf(r)]
  }

  /** Every record's country name is a key, and each key holds the country of the first
      record that carries that name. */
  lemma {:induction false} FirstByNameIsFirstOccurrence(records: seq<Record>)
    ensures forall i :: 0 <= i < |records| ==> records[i].countryName in FirstByName(records)
    ensures forall n :: n in FirstByName(records) ==>
      exists i :: 0 <= i < |records| && FirstByName(records)[n] == CountryOf(records[i])
        && forall j :: 0 <= j < i ==> records[j].countryName != n
  {
    if records != [] {
      var k := |records| - 1;
      var prefix := records[..k];
      var last := records[k];
      FirstByNameIsFirstOccurrence(prefix);
      var mp := FirstByName(prefix);
      var m := FirstByName(records);
      forall i | 0 <= i < |records|
        ensures records[i].countryName in m
      {
        if i < k {
          assert records[i] == prefix[i];
        }
      }
      forall n | n in m
        ensures exists i :: (0 <= i < |records| && m[n] == CountryOf(records[i])
                             && forall j :: 0 <= j < i ==> records[j].countryName != n)
      {
        if n in mp {
          var i :| 0 <= i < |prefix| && mp[n] == CountryOf(prefix[i])
            && forall j :: 0 <= j < i ==> prefix[j].countryName != n;
          assert records[i] == prefix[i];
          assert forall j :: 0 <= j < i ==> records[j] == prefix[j];
        } else {
          assert n == last.countryName && m[n] == CountryOf(last);
          forall j | 0 <= j < k
            ensures records[j].countryName != n
          {
            assert records[j] == prefix[j];
          }
        }
      }
    }
  }

  /** The first half of InsertCountries: collect the distinct countries by name. */
  method CollectCountries(records: seq<Record>) returns (countrySet: map<string, CountryRecord>)
    ensures countrySet == FirstByName(records)
  {
    countrySet := map[];
    for i := 0 to |records|
      invariant countrySet == FirstByName(records[..i])
    {
      assert records[..i + 1][..i] == records[..i];
      var record := records[i];
      if record.countryName !in countrySet {
        countrySet := countrySet[record.countryName := CountryRecord(record.countryIso2, record.countryName)];
      }
    }
    assert records[..|records|] == records;
  }

  /** The ISO2 codes of a country set. */
  function CountryCodes(countrySet: map<string, CountryRecord>): set<string> {
    set n | n in countrySet :: countrySet[n].countryIso2
  }

  /** The countries table after every entry of `countrySet` has been inserted once, in some
      order: rows already there are kept, and every new row is one of the entries. When two
      names share an ISO2 code, which of them ends up stored depends on the order. */
  ghost predicate CountriesLoaded(before: map<string, string>, countrySet: map<string, CountryRecord>,
                                  after: map<string, string>)
  {
    && after.Keys == before.Keys + CountryCodes(countrySet)
    && (forall iso :: iso in before ==> after[iso] == before[iso])
    && (forall iso :: iso in after && iso !in before ==>
          exists n :: n in countrySet && countrySet[n] == CountryRecord(iso, after[iso]))
  }

  /** The inserts issued: exactly one per entry of the country set. */
  ghost predicate OneInsertPerName(issued: seq<CountryRecord>, countrySet: map<string, CountryRecord>) {
    && (forall c :: c in issued ==> c.countryName in countrySet && countrySet[c.countryName] == c)
    && (forall n :: n in countrySet ==> countrySet[n] in issued)
    && (forall i, j :: 0 <= i < j < |issued| ==> issued[i].countryName != issued[j].countryName)
  }

  /** insertCountry */
  method InsertCountry(db: Database, record: CountryRecord) returns (o: InsertOutcome)
    requires db.Valid()
    modifies db
    ensures db.Valid()
    ensures o == CountryInsertOutcome(old(db.countries), record.countryIso2)
    ensures db.countries == if o == Inserted then old(db.countries)[record.countryIso2 := record.countryName]
                            else old(db.countries)
    ensures db.branches == old(db.branches)
  {
    o := db.InsertCountry(record.countryIso2, record.countryName);
  }

  /** One more country inserted (or found already present) keeps CountriesLoaded. */
  lemma CountriesLoadedStep(before: map<string, string>, done: map<string, CountryRecord>, after: map<string, string>,
                            country: CountryRecord, after': map<string, string>)
    requires CountriesLoaded(before, done, after)
    requires country.countryName !in done
    requires after' == if country.countryIso2 in after then after else after[country.countryIso2 := country.countryName]
    ensures CountriesLoaded(before, done[country.countryName := country], after')
  {
    var done' := done[country.countryName := country];
    forall iso | iso in CountryCodes(done')
      ensures iso in CountryCodes(done) + {country.countryIso2}
    {
      var n :| n in done' && done'[n].countryIso2 == iso;
      if n != country.countryName {
        assert n in done;
      }
    }
    forall iso | iso in CountryCodes(done)
      ensures iso in CountryCodes(done')
    {
      var n :| n in done && done[n].countryIso2 == iso;
      assert n in done';
    }
    assert country.countryName in done';
    assert CountryCodes(done') == CountryCodes(done) + {country.countryIso2};
    forall iso | iso in after' && iso !in before
      ensures exists n :: n in done' && done'[n] == CountryRecord(iso, after'[iso])
    {
      if iso == country.countryIso2 && iso !in after {
        assert done'[country.countryName] == CountryRecord(iso, after'[iso]);
      } else {
        var n :| n in done && done[n] == CountryRecord(iso, after[iso]);
        assert done'[n] == done[n];
      }
    }
  }

  /** One more insert, for a name not yet handled, keeps OneInsertPerName. */
  lemma OneInsertPerNameStep(issued: seq<CountryRecord>, done: map<string, CountryRecord>, country: CountryRecord)
    requires OneInsertPerName(issued, done)
    requires country.countryName !in done
    ensures OneInsertPerName(issued + [country], done[country.countryName := country])
  {
  }

  /** InsertCountries: insert each distinct country, in the unspecified order in which Go
      iterates over a map; the ghost `issued` lists the inserts in the order they were made. */
  method InsertCountries(db: Database, records: seq<Record>) returns (ghost issued: seq<CountryRecord>)
    requires db.Valid()
    modifies db
    ensures db.Valid()
    ensures db.branches == old(db.branches)
    ensures CountriesLoaded(old(db.countries), FirstByName(records), db.countries)
    ensures OneInsertPerName(issued, FirstByName(records))
  {
    var countrySet := CollectCountries(records);
    var pending := countrySet.Keys;
    ghost var done: map<string, CountryRecord> := map[];
    issued := [];
    while pending != {}
      invariant pending !! done.Keys && pending + done.Keys == countrySet.Keys
      invariant forall n :: n in done ==> done[n] == countrySet[n]
      invariant db.Valid() && db.branches == old(db.branches)
      invariant OneInsertPerName(issued, done)
      invariant CountriesLoaded(old(db.countries), done, db.countries)
      decreases pending
    {
      var name :| name in pending;
      var country := countrySet[name];
      ghost var before := db.countries;
      var o := InsertCountry(db, country);
      match o {
        case Inserted =>
        case DuplicateKey => // already loaded by an earlier run
        case ForeignKeyViolation => assert false;
      }
      CountriesLoadedStep(old(db.countries), done, before, country, db.countries);
      OneInsertPerNameStep(issued, done, country);
      issued := issued + [country];
      done := done[name := country];
      pending := pending - {name};
    }
    assert done == countrySet;
  }

  // ---------------------------------------------------------------------------
  // Branches

  /** The row insertRecord stores: the headquarter flag is recomputed from the code,
      whatever the record's own flag says, and CODE_TYPE and COUNTRY_NAME are not stored. */
  function RowOf(record: Record): (row: BranchRow)
    ensures row.isHeadquarter <==> IsHeadquarterCode(record.swiftCode)
  {
    BranchRow(record.name, record.address, Some(record.townName), Some(record.timeZone),
              record.countryIso2, IsHeadquarterCode(record.swiftCode))
  }

  /** insertRecord */
  method InsertRecord(db: Database, record: Record) returns (o: InsertOutcome)
    requires db.Valid()
    modifies db
    ensures db.Valid()
    ensures o == BranchInsertOutcome(old(db.countries), old(db.branches), record.swiftCode, RowOf(record))
    ensures db.branches == if o == Inserted then old(db.branches)[record.swiftCode := RowOf(record)]
                           else old(db.branches)
    ensures db.countries == old(db.countries)
  {
    o := db.InsertBranch(record.swiftCode, RowOf(record));
  }

  /** The branches table, and how the loop ends, when records[i..] are inserted one after
      another into `branches`: duplicates are skipped, a foreign-key violation stops it. */
  function LoadBranchesFrom(branches: map<string, BranchRow>, countries: map<string, string>,
                            records: seq<Record>, i: nat): (map<string, BranchRow>, LoadOutcome)
    requires i <= |records|
    decreases |records| - i
  {
    if i == |records| then (branches, Completed)
    else
      var code, row := records[i].swiftCode, RowOf(records[i]);
      match BranchInsertOutcome(countries, branches, code, row)
      case Inserted => LoadBranchesFrom(branches[code := row], countries, records, i + 1)
      case DuplicateKey => LoadBranchesFrom(branches, countries, records, i + 1)
      case ForeignKeyViolation => (branches, Aborted(i))
  }

  /** InsertBranches: insert every record in order, skipping duplicate keys; any other
      failure is fatal. */
  method InsertBranches(db: Database, records: seq<Record>) returns (outcome: LoadOutcome)
    requires db.Valid()
    modifies db
    ensures db.Valid()
    ensures db.countries == old(db.countries)
    ensures (db.branches, outcome) == LoadBranchesFrom(old(db.branches), old(db.countries), records, 0)
  {
    for i := 0 to |records|
      invariant db.Valid() && db.countries == old(db.countries)
      invariant LoadBranchesFrom(db.branches, db.countries, records, i)
             == LoadBranchesFrom(old(db.branches), old(db.countries), records, 0)
    {
      var o := InsertRecord(db, records[i]);
      match o {
        case Inserted =>
        case DuplicateKey => // already loaded by an earlier run
        case ForeignKeyViolation => return Aborted(i); // log.Fatalf
      }
    }
    return Completed;
  }

  /** Rows already in the table are never overwritten by the loader. */
  lemma {:induction false} LoadBranchesKeepsRows(branches: map<string, BranchRow>, countries: map<string, string>,
                                                 records: seq<Record>, i: nat)
    requires i <= |records|
    ensures var after := LoadBranchesFrom(branches, countries, records, i).0;
      forall code :: code in branches ==> code in after && after[code] == branches[code]
    decreases |records| - i
  {
    if i < |records| {
      var code, row := records[i].swiftCode, RowOf(records[i]);
      match BranchInsertOutcome(countries, branches, code, row)
      case Inserted => LoadBranchesKeepsRows(branches[code := row], countries, records, i + 1);
      case DuplicateKey => LoadBranchesKeepsRows(branches, countries, records, i + 1);
      case ForeignKeyViolation =>
    }
  }

  /** Every new row comes from the first of the records with its code, carries the
      headquarter flag of the suffix rule and references a known country. */
  lemma {:induction false} LoadBranchesNewRows(branches: map<string, BranchRow>, countries: map<string, string>,
                                               records: seq<Record>, i: nat)
    requires i <= |records|
    ensures var after := LoadBranchesFrom(branches, countries, records, i).0;
      forall code :: code in after && code !in branches ==>
        && after[code].countryIso2 in countries
        && after[code].isHeadquarter == IsHeadquarterCode(code)
        && exists j :: i <= j < |records| && records[j].swiftCode == code && after[code] == RowOf(records[j])
             && forall j' :: i <= j' < j ==> records[j'].swiftCode != code
    decreases |records| - i
  {
    if i < |records| {
      var code, row := records[i].swiftCode, RowOf(records[i]);
      var after := LoadBranchesFrom(branches, countries, records, i).0;
      match BranchInsertOutcome(countries, branches, code, row)
      case Inserted =>
        var next := branches[code := row];
        LoadBranchesNewRows(next, countries, records, i + 1);
        LoadBranchesKeepsRows(next, countries, records, i + 1);
        forall c | c in after && c !in branches
          ensures exists j :: (i <= j < |records| && records[j].swiftCode == c && after[c] == RowOf(records[j])
                               && forall j' :: i <= j' < j ==> records[j'].swiftCode != c)
        {
          if c == code {
            assert after[c] == RowOf(records[i]);
          } else {
            var j :| i + 1 <= j < |records| && records[j].swiftCode == c && after[c] == RowOf(records[j])
               && forall j' :: i + 1 <= j' < j ==> records[j'].swiftCode != c;
            assert forall j' :: i <= j' < j ==> records[j'].swiftCode != c;
          }
        }
      case DuplicateKey =>
        LoadBranchesNewRows(branches, countries, records, i + 1);
        forall c | c in after && c !in branches
          ensures exists j :: (i <= j < |records| && records[j].swiftCode == c && after[c] == RowOf(records[j])
                               && forall j' :: i <= j' < j ==> records[j'].swiftCode != c)
        {
          var j :| i + 1 <= j < |records| && records[j].swiftCode == c && after[c] == RowOf(records[j])
             && forall j' :: i + 1 <= j' < j ==> records[j'].swiftCode != c;
          assert records[i].swiftCode == code && code in branches;
          assert forall j' :: i <= j' < j ==> records[j'].swiftCode != c;
        }
      case ForeignKeyViolation =>
    }
  }

  /** How the loop ends: a completed load leaves every record's code in the table; an
      aborted one stopped at the first record whose code is new and whose country is unknown. */
  lemma {:induction false} LoadBranchesOutcome(branches: map<string, BranchRow>, countries: map<string, string>,
                                               records: seq<Record>, i: nat)
    requires i <= |records|
    ensures var (after, outcome) := LoadBranchesFrom(branches, countries, records, i);
      && (outcome == Completed ==> forall j :: i <= j < |records| ==> records[j].swiftCode in after)
      && (outcome.Aborted? ==>
            && i <= outcome.at < |records|
            && records[outcome.at].swiftCode !in after
            && records[outcome.at].countryIso2 !in countries
            && forall j :: i <= j < outcome.at ==> records[j].swiftCode in after)
    decreases |records| - i
  {
    if i < |records| {
      var code, row := records[i].swiftCode, RowOf(records[i]);
      match BranchInsertOutcome(countries, branches, code, row)
      case Inserted =>
        LoadBranchesOutcome(branches[code := row], countries, records, i + 1);
        LoadBranchesKeepsRows(branches[code := row], countries, records, i + 1);
      case DuplicateKey =>
        LoadBranchesOutcome(branches, countries, records, i + 1);
        LoadBranchesKeepsRows(branches, countries, records, i + 1);
      case ForeignKeyViolation =>
    }
  }

  /** When every record's country is known, the branch loop never aborts. */
  lemma {:induction false} LoadBranchesCompletes(branches: map<string, BranchRow>, countries: map<string, string>,
                                                 records: seq<Record>, i: nat)
    requires i <= |records|
    requires forall j :: i <= j < |records| ==> records[j].countryIso2 in countries
    ensures LoadBranchesFrom(branches, countries, records, i).1 == Completed
    decreases |records| - i
  {
    if i < |records| {
      var code, row := records[i].swiftCode, RowOf(records[i]);
      if code in branches {
        LoadBranchesCompletes(branches, countries, records, i + 1);
      } else {
        LoadBranchesCompletes(branches[code := row], countries, records, i + 1);
      }
    }
  }

  /** Running the branch loop again over its own result changes nothing and ends the same way. */
  lemma {:induction false} LoadBranchesIdempotent(branches: map<string, BranchRow>, countries: map<string, string>,
                                                  records: seq<Record>, i: nat)
    requires i <= |records|
    ensures var first := LoadBranchesFrom(branches, countries, records, i);
      LoadBranchesFrom(first.0, countries, records, i) == first
    decreases |records| - i
  {
    if i < |records| {
      var code, row := records[i].swiftCode, RowOf(records[i]);
      match BranchInsertOutcome(countries, branches, code, row)
      case Inserted =>
        var next := branches[code := row];
        LoadBranchesIdempotent(next, countries, records, i + 1);
        LoadBranchesKeepsRows(next, countries, records, i + 1);
      case DuplicateKey =>
        LoadBranchesIdempotent(branches, countries, records, i + 1);
        LoadBranchesKeepsRows(branches, countries, records, i + 1);
      case ForeignKeyViolation =>
    }
  }

  // ---------------------------------------------------------------------------
  // The whole load

  /** The tables after the insert phase over `records`: countries first, then branches
      checked against the countries then present. */
  ghost predicate InsertPhase(countries: map<string, string>, branches: map<string, BranchRow>,
                              records: seq<Record>,
                              countries': map<string, string>, branches': map<string, BranchRow>,
                              outcome: LoadOutcome)
  {
    && CountriesLoaded(countries, FirstByName(records), countries')
    && (branches', outcome) == LoadBranchesFrom(branches, countries', records, 0)
  }

  /** Parse: parse the file, then insert countries, then branches. */
  method Parse(db: Database, file: CsvFile) returns (outcome: IngestOutcome)
    requires db.Valid()
    requires WellShaped(file)
    modifies db
    ensures db.Valid()
    ensures file.CannotOpen? ==> outcome == ParseFailed(OpenFailed)
    ensures file.CannotRead? ==> outcome == ParseFailed(ReadFailed)
    ensures !file.Table? ==> db.countries == old(db.countries) && db.branches == old(db.branches)
    ensures file.Table? ==>
      && outcome.Parsed?
      && InsertPhase(old(db.countries), old(db.branches), ParsedRecords(file.rows),
                     db.countries, db.branches, outcome.load)
  {
    var parsed := ParseCSV(file);
    if parsed.Failure? {
      return ParseFailed(parsed.error);
    }
    var records := parsed.value;
    ghost var _ := InsertCountries(db, records);
    var load := InsertBranches(db, records);
    return Parsed(load);
  }

  /** A second insert phase over the same records leaves both tables as the first left
      them, and ends the same way (the restart tolerated at cmd/server/main.go:63-66). */
  lemma InsertPhaseIdempotent(countries: map<string, string>, branches: map<string, BranchRow>,
                              records: seq<Record>,
                              countries1: map<string, string>, branches1: map<string, BranchRow>,
                              outcome1: LoadOutcome,
                              countries2: map<string, string>, branches2: map<string, BranchRow>,
                              outcome2: LoadOutcome)
    requires InsertPhase(countries, branches, records, countries1, branches1, outcome1)
    requires InsertPhase(countries1, branches1, records, countries2, branches2, outcome2)
    ensures countries2 == countries1 && branches2 == branches1 && outcome2 == outcome1
  {
    assert countries2.Keys == countries1.Keys;
    LoadBranchesIdempotent(branches, countries1, records, 0);
  }

  /** If every country name in the records comes with one ISO2 code, every record's
      country gets inserted and the branch loop completes. */
  lemma NameConsistentRecordsLoadCompletely(countries: map<string, string>, branches: map<string, BranchRow>,
                                            records: seq<Record>, countries': map<string, string>)
    requires forall i, j :: 0 <= i < |records| && 0 <= j < |records| && records[i].countryName == records[j].countryName
               ==> records[i].countryIso2 == records[j].countryIso2
    requires CountriesLoaded(countries, FirstByName(records), countries')
    ensures LoadBranchesFrom(branches, countries', records, 0).1 == Completed
  {
    var countrySet := FirstByName(records);
    FirstByNameIsFirstOccurrence(records);
    forall j | 0 <= j < |records|
      ensures records[j].countryIso2 in countries'
    {
      var n := records[j].countryName;
      var i :| 0 <= i < |records| && countrySet[n] == CountryOf(records[i])
        && forall j' :: 0 <= j' < i ==> records[j'].countryName != n;
      assert countrySet[n].countryIso2 in CountryCodes(countrySet);
    }
    LoadBranchesCompletes(branches, countries', records, 0);
  }

  /** The branch loop stops at record k when k's code is new and its country unknown,
      provided every earlier record has a known country and a different code. */
  lemma {:induction false} LoadBranchesAbortsAt(branches: map<string, BranchRow>, countries: map<string, string>,
                                                records: seq<Record>, i: nat, k: nat)
    requires i <= k < |records|
    requires records[k].swiftCode !in branches && records[k].countryIso2 !in countries
    requires forall j :: i <= j < k ==>
      records[j].countryIso2 in countries && records[j].swiftCode != records[k].swiftCode
    ensures LoadBranchesFrom(branches, countries, records, i).1 == Aborted(k)
    decreases k - i
  {
    if i < k {
      var code, row := records[i].swiftCode, RowOf(records[i]);
      if code in branches {
        LoadBranchesAbortsAt(branches, countries, records, i + 1, k);
      } else {
        LoadBranchesAbortsAt(branches[code := row], countries, records, i + 1, k);
      }
    }
  }

  /** Countries are deduplicated by name, so the ISO2 code of a record that is not the first
      with its country name is inserted only if some other name brings it. When it is not
      already registered and no name's first record carries it, that record's branch hits
      the foreign key and the load aborts there, unless its code was stored before or an
      earlier record has the same code, or an earlier record already aborted the load. */
  lemma ConflictingCountryCodeAbortsLoad(countries: map<string, string>, branches: map<string, BranchRow>,
                                         records: seq<Record>, countries': map<string, string>, k: nat)
    requires k < |records|
    requires CountriesLoaded(countries, FirstByName(records), countries')
    requires records[k].countryIso2 !in countries
    requires forall n :: n in FirstByName(records) ==> FirstByName(records)[n].countryIso2 != records[k].countryIso2
    requires records[k].swiftCode !in branches
    requires forall j :: 0 <= j < k ==> records[j].swiftCode != records[k].swiftCode
    requires forall j :: 0 <= j < k ==> records[j].countryIso2 in countries'
    ensures records[k].countryIso2 !in countries'
    ensures LoadBranchesFrom(branches, countries', records, 0).1 == Aborted(k)
  {
    assert records[k].countryIso2 !in CountryCodes(FirstByName(records));
    LoadBranchesAbortsAt(branches, countries', records, 0, k);
  }

  /** A name seen with two ISO2 codes satisfies the conditions above: loading
      [(PL, POLAND), (PO, POLAND)] into empty tables aborts at the second record. */
  lemma ConflictingCountryCodeExample(countries': map<string, string>)
    requires CountriesLoaded(map[], FirstByName([Record("PL", "AAAAPLPWXXX", "BIC11", "A", "", "", "POLAND", "", true),
                                                 Record("PO", "BBBBPLPWXXX", "BIC11", "B", "", "", "POLAND", "", true)]),
                             countries')
    ensures LoadBranchesFrom(map[], countries',
                             [Record("PL", "AAAAPLPWXXX", "BIC11", "A", "", "", "POLAND", "", true),
                              Record("PO", "BBBBPLPWXXX", "BIC11", "B", "", "", "POLAND", "", true)], 0).1 == Aborted(1)
  {
    var records := [Record("PL", "AAAAPLPWXXX", "BIC11", "A", "", "", "POLAND", "", true),
                    Record("PO", "BBBBPLPWXXX", "BIC11", "B", "", "", "POLAND", "", true)];
    assert records[..1][..0] == [];
    assert FirstByName(records) == map["POLAND" := CountryRecord("PL", "POLAND")];
    assert CountryCodes(FirstByName(records)) == {"PL"};
    ConflictingCountryCodeAbortsLoad(map[], map[], records, countries', 1);
  }

  /** The table of the parser's own test, a header and two data rows whose first column
      keeps the tab indentation of the test's raw string: two records, the first a branch,
      the second a headquarter. */
  lemma ParsedExampleTable()
    ensures var records := ParsedRecords([
        ["COUNTRY_ISO2_CODEID", "SWIFT_CODE", "CODE_TYPE", "NAME", "ADDRESS", "TOWN_NAME", "COUNTRY_NAME", "TIME_ZONE"],
        ["\t\t\t\t\tPL", "ABCABCABCAB", "BANK", "ABC BANK", "Main Street", "Warsaw", "POLAND", "Europe/Warsaw"],
        ["\t\t\t\t\tUS", "DEFDEFDEFDEFXXX", "BANK", "DEF BANK", "Wall Street", "New York", "USA", "America/New_York"]]);
      |records| == 2 && !records[0].isHeadquarter && records[1].isHeadquarter
  {
  }
}
