/**
 * The branch directory (cmd/server/main.go): the four handlers without HTTP. The two read
 * handlers are functions of the tables; the two write handlers are methods on the store.
 * Every failure the handlers answer with 400 Bad Request is a Failure value here.
 */
module Server {
  import opened Wrappers
  import opened SwiftCode
  import opened Store

  datatype Branch = Branch(
    address: string,
    bankName: string,
    countryIso2: string,
    countryName: string,
    isHeadquarter: bool,
    swiftCode: string)

  datatype CountryBranch = CountryBranch(
    address: string,
    bankName: string,
    countryIso2: string,
    isHeadquarter: bool,
    swiftCode: string)

  /** The branch list is a set: the query has no ORDER BY. */
  datatype Headquarter = Headquarter(
    address: string,
    bankName: string,
    countryIso2: string,
    countryName: string,
    isHeadquarter: bool,
    swiftCode: string,
    branches: set<Branch>)

  datatype Country = Country(
    countryIso2: string,
    countryName: string,
    swiftCodes: set<CountryBranch>)

  /** What a lookup by SWIFT code answers with. */
  datatype SwiftLookup = BranchFound(branch: Branch) | HeadquarterFound(headquarter: Headquarter) {
    function Code(): string {
      match this
      case BranchFound(b) => b.swiftCode
      case HeadquarterFound(h) => h.swiftCode
    }
  }

  datatype HandlerError = NotFound | Incomplete | InsertRejected | DeleteFailed

  /** A branch row survives `branches INNER JOIN countries`. */
  predicate Joined(countries: map<string, string>, branches: map<string, BranchRow>, code: string) {
    code in branches && branches[code].countryIso2 in countries
  }

  /** The Branch view of a stored row, country name joined in. */
  function BranchView(countries: map<string, string>, branches: map<string, BranchRow>, code: string): Branch
    requires Joined(countries, branches, code)
  {
    var row := branches[code];
    Branch(row.address, row.name, row.countryIso2, countries[row.countryIso2], row.isHeadquarter, code)
  }

  /** The rows `swift_code LIKE prefix% AND swift_code NOT LIKE "%XXX"`, joined with countries. */
  function BranchesUnder(countries: map<string, string>, branches: map<string, BranchRow>, prefix: string): set<Branch> {
    set code | code in branches && HasPrefix(code, prefix) && !IsHeadquarterCode(code)
                 && Joined(countries, branches, code)
      :: BranchView(countries, branches, code)
  }

  /** getBranchBySwift */
  function GetBranchBySwift(countries: map<string, string>, branches: map<string, BranchRow>, code: string)
    : (r: Result<SwiftLookup, HandlerError>)
    ensures r.Failure? <==> !Joined(countries, branches, code)
    ensures r.Failure? ==> r.error == NotFound
    ensures r.Success? ==>
      && r.value.Code() == code
      && (r.value.HeadquarterFound? <==> branches[code].isHeadquarter)
    ensures r.Success? && r.value.BranchFound? ==> r.value.branch == BranchView(countries, branches, code)
    ensures r.Success? && r.value.HeadquarterFound? ==>
      var h, row := r.value.headquarter, branches[code];
      && h.address == row.address && h.bankName == row.name && h.countryIso2 == row.countryIso2
      && h.countryName == countries[row.countryIso2] && h.isHeadquarter
  {
    if !Joined(countries, branches, code) then
      Failure(NotFound)
    else
      var branch := BranchView(countries, branches, code);
      if !branch.isHeadquarter then
        Success(BranchFound(branch))
      else
        var swiftPrefix := BranchPrefix(code);
        Success(HeadquarterFound(Headquarter(branch.address, branch.bankName, branch.countryIso2,
                                             branch.countryName, branch.isHeadquarter, branch.swiftCode,
                                             BranchesUnder(countries, branches, swiftPrefix))))
  }

  /** With the foreign key in force the join hides nothing: a lookup fails exactly when
      no row has the code. */
  lemma LookupFailsOnlyForUnknownCode(countries: map<string, string>, branches: map<string, BranchRow>, code: string)
    requires ForeignKeysHold(countries, branches)
    ensures GetBranchBySwift(countries, branches, code).Failure? <==> code !in branches
  {
  }

  /** A headquarter lists a stored code exactly when the code starts with the headquarter's
      prefix (its code without "XXX") and does not itself end in "XXX"; each listed entry is
      that row's view. */
  lemma HeadquarterListsExactly(countries: map<string, string>, branches: map<string, BranchRow>,
                                                   code: string, other: string)
    requires ForeignKeysHold(countries, branches)
    requires GetBranchBySwift(countries, branches, code).Success?
    requires GetBranchBySwift(countries, branches, code).value.HeadquarterFound?
    ensures var listed := GetBranchBySwift(countries, branches, code).value.headquarter.branches;
      && (forall b :: b in listed ==> Joined(countries, branches, b.swiftCode) && b == BranchView(countries, branches, b.swiftCode))
      && ((exists b :: b in listed && b.swiftCode == other) <==>
            (other in branches && HasPrefix(other, BranchPrefix(code)) && !IsHeadquarterCode(other)))
  {
  }

  /** A headquarter whose code ends in "XXX" never lists itself, nor any other headquarter code. */
  lemma HeadquarterNeverListsItself(countries: map<string, string>, branches: map<string, BranchRow>, code: string)
    requires IsHeadquarterCode(code)
    requires GetBranchBySwift(countries, branches, code).Success?
    requires GetBranchBySwift(countries, branches, code).value.HeadquarterFound?
    ensures forall b :: b in GetBranchBySwift(countries, branches, code).value.headquarter.branches ==>
      b.swiftCode != code && !IsHeadquarterCode(b.swiftCode)
  {
  }

  /** The flag on a row created through postBranch is the caller's: a row flagged as a
      headquarter whose code does not end in "XXX" has the whole code as its prefix and
      lists itself among its branches. */
  lemma FlaggedCodeWithoutSuffixListsItself(countries: map<string, string>, branches: map<string, BranchRow>, code: string)
    requires Joined(countries, branches, code)
    requires branches[code].isHeadquarter && !IsHeadquarterCode(code)
    ensures GetBranchBySwift(countries, branches, code).Success?
    ensures var r := GetBranchBySwift(countries, branches, code).value;
      r.HeadquarterFound? && exists b :: b in r.headquarter.branches && b.swiftCode == code
  {
  }

  /** A headquarter with no stored code under its prefix resolves, with an empty branch list. */
  lemma LoneHeadquarterHasNoBranches(countries: map<string, string>, branches: map<string, BranchRow>, code: string)
    requires Joined(countries, branches, code) && branches[code].isHeadquarter
    requires forall other :: other in branches && HasPrefix(other, BranchPrefix(code)) ==> IsHeadquarterCode(other)
    ensures GetBranchBySwift(countries, branches, code).Success?
    ensures var r := GetBranchBySwift(countries, branches, code).value;
      r.HeadquarterFound? && r.headquarter.branches == {}
  {
  }

  /** The CountryBranch view of a stored row. */
  function CountryBranchView(branches: map<string, BranchRow>, code: string): CountryBranch
    requires code in branches
  {
    var row := branches[code];
    CountryBranch(row.address, row.name, row.countryIso2, row.isHeadquarter, code)
  }

  /** getBranchesByCountry */
  function GetBranchesByCountry(countries: map<string, string>, branches: map<string, BranchRow>, iso2: string)
    : (r: Result<Country, HandlerError>)
    ensures r.Failure? <==> iso2 !in countries
    ensures r.Failure? ==> r.error == NotFound
    ensures r.Success? ==> r.value.countryIso2 == iso2 && r.value.countryName == countries[iso2]
    ensures r.Success? ==> forall cb :: cb in r.value.swiftCodes ==>
      cb.swiftCode in branches && branches[cb.swiftCode].countryIso2 == iso2
      && cb == CountryBranchView(branches, cb.swiftCode)
  {
    if iso2 !in countries then
      Failure(NotFound)
    else
      var swiftCodes := set code | code in branches && branches[code].countryIso2 == iso2
                          :: CountryBranchView(branches, code);
      Success(Country(iso2, countries[iso2], swiftCodes))
  }

  /** Every branch of a known country is listed for it; a country without branches gets an
      empty list rather than a failure. */
  lemma {:induction false} CountryListsEveryBranch(countries: map<string, string>, branches: map<string, BranchRow>,
                                                   iso2: string, code: string)
    requires iso2 in countries
    ensures var r := GetBranchesByCountry(countries, branches, iso2);
      && r.Success?
      && (code in branches && branches[code].countryIso2 == iso2 <==>
            exists cb :: cb in r.value.swiftCodes && cb.swiftCode == code)
      && ((forall c :: c in branches ==> branches[c].countryIso2 != iso2) ==> r.value.swiftCodes == {})
  {
    var r := GetBranchesByCountry(countries, branches, iso2);
    if code in branches && branches[code].countryIso2 == iso2 {
      assert CountryBranchView(branches, code) in r.value.swiftCodes;
    }
  }

  /** The request fields postBranch insists on. */
  predicate MissesRequiredField(input: Branch) {
    input.address == "" || input.countryIso2 == "" || input.countryName == ""
    || input.bankName == "" || input.swiftCode == ""
  }

  /** The row postBranch inserts: town_name and time_zone stay NULL, the flag is the caller's,
      and the request's country name is not stored. */
  function StoredRow(input: Branch): BranchRow {
    BranchRow(input.bankName, input.address, None, None, input.countryIso2, input.isHeadquarter)
  }

  /** postBranch */
  method PostBranch(db: Database, input: Branch) returns (r: Result<(), HandlerError>)
    requires db.Valid()
    modifies db
    ensures db.Valid()
    ensures db.countries == old(db.countries)
    ensures MissesRequiredField(input) ==> r == Failure(Incomplete) && db.branches == old(db.branches)
    ensures !MissesRequiredField(input) && (input.swiftCode in old(db.branches) || input.countryIso2 !in db.countries)
      ==> r == Failure(InsertRejected) && db.branches == old(db.branches)
    ensures !MissesRequiredField(input) && input.swiftCode !in old(db.branches) && input.countryIso2 in db.countries
      ==> r == Success(()) && db.branches == old(db.branches)[input.swiftCode := StoredRow(input)]
  {
    if MissesRequiredField(input) {
      return Failure(Incomplete);
    }
    var o := db.InsertBranch(input.swiftCode, StoredRow(input));
    if o == Inserted {
      r := Success(());
    } else {
      r := Failure(InsertRejected);
    }
  }

  /** A created row resolves to what was sent, except that the country name comes from the
      countries table; a non-headquarter request whose country name matches the table comes
      back verbatim. */
  lemma CreatedBranchResolves(countries: map<string, string>, branches: map<string, BranchRow>, input: Branch)
    requires input.swiftCode !in branches && input.countryIso2 in countries
    ensures var r := GetBranchBySwift(countries, branches[input.swiftCode := StoredRow(input)], input.swiftCode);
      && r.Success?
      && (r.value.BranchFound? <==> !input.isHeadquarter)
      && (r.value.BranchFound? ==> r.value.branch == input.(countryName := countries[input.countryIso2]))
      && (r.value.HeadquarterFound? ==>
            var h := r.value.headquarter;
            h.address == input.address && h.bankName == input.bankName
            && h.countryIso2 == input.countryIso2 && h.swiftCode == input.swiftCode)
  {
  }

  /** deleteBranch */
  method DeleteBranch(db: Database, code: string) returns (r: Result<(), HandlerError>)
    requires db.Valid()
    modifies db
    ensures db.Valid()
    ensures r.Success? <==> code in old(db.branches)
    ensures r.Failure? ==> r.error == DeleteFailed && db.branches == old(db.branches)
    ensures db.branches == old(db.branches) - {code}
    ensures db.countries == old(db.countries)
    ensures GetBranchBySwift(db.countries, db.branches, code) == Failure(NotFound)
  {
    var rowsAffected := db.DeleteBranch(code);
    if rowsAffected == 0 {
      return Failure(DeleteFailed);
    }
    return Success(());
  }

  /** Deleting a code makes it unresolvable and leaves every other lookup as it was. */
  lemma DeleteOnlyAffectsItsCode(countries: map<string, string>, branches: map<string, BranchRow>,
                                 code: string, other: string)
    requires other != code
    ensures GetBranchBySwift(countries, branches - {code}, code) == Failure(NotFound)
    ensures Joined(countries, branches, other) && !branches[other].isHeadquarter ==>
      GetBranchBySwift(countries, branches - {code}, other) == GetBranchBySwift(countries, branches, other)
  {
  }

  /** postBranch followed by deleteBranch of the same code: when the create succeeds, the
      delete succeeds too and the store is back where it started. */
  method PostThenDelete(db: Database, input: Branch) returns (created: Result<(), HandlerError>, deleted: Result<(), HandlerError>)
    requires db.Valid()
    modifies db
    ensures db.Valid()
    ensures created.Success? ==> deleted.Success?
    ensures created.Success? ==> db.branches == old(db.branches) && db.countries == old(db.countries)
    ensures created.Failure? ==> db.branches == old(db.branches) - {input.swiftCode}
  {
    created := PostBranch(db, input);
    deleted := DeleteBranch(db, input.swiftCode);
  }
}
