/**
 * An in-memory stand-in for the two MySQL tables the service runs on:
 *
 *   countries(country_iso2 PRIMARY KEY, country_name)
 *   branches(swift_code PRIMARY KEY, name, address, town_name, time_zone,
 *            country_iso2 REFERENCES countries, is_headquarter)
 *
 * Each table is a map from its primary key to the rest of the row. An INSERT reports one of
 * three outcomes: success, a duplicate primary key (MySQL error 1062) or a foreign-key
 * violation; a DELETE reports the number of rows it affected.
 */
module Store {
  import opened Wrappers

  /** A row of the branches table, without its key. Rows created through the write
      endpoint leave town_name and time_zone NULL. */
  datatype BranchRow = BranchRow(
    name: string,
    address: string,
    townName: Option<string>,
    timeZone: Option<string>,
    countryIso2: string,
    isHeadquarter: bool)

  datatype InsertOutcome = Inserted | DuplicateKey | ForeignKeyViolation

  /** The foreign key branches.country_iso2 -> countries.country_iso2. */
  predicate ForeignKeysHold(countries: map<string, string>, branches: map<string, BranchRow>) {
    forall code :: code in branches ==> branches[code].countryIso2 in countries
  }

  /** What `INSERT INTO countries` reports: the table has no foreign key, so only the
      primary key can refuse the row. */
  function CountryInsertOutcome(countries: map<string, string>, iso2: string): InsertOutcome {
    if iso2 in countries then DuplicateKey else Inserted
  }

  /** What `INSERT INTO branches` reports: the primary key is checked before the foreign key. */
  function BranchInsertOutcome(countries: map<string, string>, branches: map<string, BranchRow>,
                               code: string, row: BranchRow): InsertOutcome
  {
    if code in branches then DuplicateKey
    else if row.countryIso2 !in countries then ForeignKeyViolation
    else Inserted
  }

  class Database {
    /** country_iso2 -> country_name */
    var countries: map<string, string>
    /** swift_code -> the rest of the branch row */
    var branches: map<string, BranchRow>

    predicate Valid()
      reads this
    {
      ForeignKeysHold(countries, branches)
    }

    constructor ()
      ensures Valid()
      ensures countries == map[] && branches == map[]
    {
      countries := map[];
      branches := map[];
    }

    /** INSERT INTO countries (country_iso2, country_name) VALUES (?, ?) */
    method InsertCountry(iso2: string, name: string) returns (o: InsertOutcome)
      requires Valid()
      modifies this
      ensures Valid()
      ensures o == CountryInsertOutcome(old(countries), iso2)
      ensures countries == if o == Inserted then old(countries)[iso2 := name] else old(countries)
      ensures branches == old(branches)
    {
      o := CountryInsertOutcome(countries, iso2);
      if o == Inserted {
        countries := countries[iso2 := name];
      }
    }

    /** INSERT INTO branches (swift_code, ...) VALUES (?, ...) */
    method InsertBranch(code: string, row: BranchRow) returns (o: InsertOutcome)
      requires Valid()
      modifies this
      ensures Valid()
      ensures o == BranchInsertOutcome(old(countries), old(branches), code, row)
      ensures branches == if o == Inserted then old(branches)[code := row] else old(branches)
      ensures countries == old(countries)
    {
      o := BranchInsertOutcome(countries, branches, code, row);
      if o == Inserted {
        branches := branches[code := row];
      }
    }

    /** DELETE FROM branches WHERE swift_code = ?, reporting the rows affected. */
    method DeleteBranch(code: string) returns (rowsAffected: nat)
      requires Valid()
      modifies this
      ensures Valid()
      ensures rowsAffected == if code in old(branches) then 1 else 0
      ensures branches == old(branches) - {code}
      ensures countries == old(countries)
    {
      rowsAffected := if code in branches then 1 else 0;
      branches := branches - {code};
    }
  }
}
