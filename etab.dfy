/**
 * The establishments tab: one `EtabRow` per establishment, its four field
 * checks, and the `EtabRows` collection built from a worksheet.
 */
module Etab {
  import opened Wrappers
  import opened Errors
  import opened Fields
  import opened Base
  import Strings

  /** One establishment row's values, as read from the worksheet. */
  datatype EtabData = EtabData(
    siret: string,
    gerepid: string,
    companyTypes: seq<string>,
    givenName: string,
    contactEmail: string,
    contactPhone: string,
    webSite: string)

  /** `from_dict`'s test that every value of the row is falsy. */
  predicate IsBlank(d: EtabData) {
    d.siret == "" && d.gerepid == "" && d.companyTypes == [] && d.givenName == ""
    && d.contactEmail == "" && d.contactPhone == "" && d.webSite == ""
  }

  /** The fields `EtabRow.validate` checks, in the order it checks them. */
  const ETAB_CHECKED_FIELDS: seq<string> := ["siret", "companyTypes", "contactPhone", "contactEmail"]

  /** The error each check records when it fails. */
  function SiretError(index: int, d: EtabData): RowError {
    FieldError(index, "siret", Str(d.siret), ETABLISSEMENTS_TAB)
  }

  function CompanyTypesError(index: int, d: EtabData): RowError {
    FieldError(index, "companyTypes", StrList(d.companyTypes), ETABLISSEMENTS_TAB)
  }

  function ContactPhoneError(index: int, d: EtabData): RowError {
    FieldError(index, "contactPhone", Str(d.contactPhone), ETABLISSEMENTS_TAB)
  }

  function ContactEmailError(index: int, d: EtabData): RowError {
    FieldError(index, "contactEmail", Str(d.contactEmail), ETABLISSEMENTS_TAB)
  }

  /** The four checks of `EtabRow.validate`, in the order it runs them. */
  function EtabChecks(index: int, d: EtabData, s: Settings): seq<Check> {
    [Check(SiretIsValid(d.siret), SiretError(index, d)),
     Check(CompanyTypesAreValid(d.companyTypes, s), CompanyTypesError(index, d)),
     Check(PhoneNumberIsValid(d.contactPhone), ContactPhoneError(index, d)),
     Check(ContactEmailIsValid(d.contactEmail, s), ContactEmailError(index, d))]
  }

  /** The errors one run of `EtabRow.validate` appends. */
  function EtabErrors(index: int, d: EtabData, s: Settings): seq<RowError> {
    Reports(EtabChecks(index, d, s))
  }

  /** The four checks' reports, one after the other. */
  lemma EtabErrorsUnfold(index: int, d: EtabData, s: Settings)
    ensures EtabErrors(index, d, s)
      == Report(SiretIsValid(d.siret), SiretError(index, d))
       + Report(CompanyTypesAreValid(d.companyTypes, s), CompanyTypesError(index, d))
       + Report(PhoneNumberIsValid(d.contactPhone), ContactPhoneError(index, d))
       + Report(ContactEmailIsValid(d.contactEmail, s), ContactEmailError(index, d))
  {
    var cs := EtabChecks(index, d, s);
    ReportsChain([], cs[0], cs[1], cs[2], cs[3],
      Report(cs[0].passed, cs[0].error) + Report(cs[1].passed, cs[1].error)
      + Report(cs[2].passed, cs[2].error) + Report(cs[3].passed, cs[3].error));
    assert [cs[0], cs[1], cs[2], cs[3]] == cs;
  }

  /**
   * At most one error per check; each is a field error of this row on the
   * establishments tab, against one of the checked fields.
   */
  lemma EtabErrorsShape(index: int, d: EtabData, s: Settings)
    ensures |EtabErrors(index, d, s)| <= 4
    ensures forall e :: e in EtabErrors(index, d, s) ==>
      e.errorType == ERROR_FIELD && e.rowNumber == index && e.tab == ETABLISSEMENTS_TAB
      && e.fieldName in ETAB_CHECKED_FIELDS
  {
    ReportsFailures(EtabChecks(index, d, s));
  }

  /** What is recorded against the field of check `i`: that check's error exactly when it fails. */
  lemma EtabErrorsOnField(index: int, d: EtabData, s: Settings, i: nat)
    requires i < |ETAB_CHECKED_FIELDS|
    ensures ErrorsOn(EtabErrors(index, d, s), ETAB_CHECKED_FIELDS[i])
      == Report(EtabChecks(index, d, s)[i].passed, EtabChecks(index, d, s)[i].error)
  {
    ReportsOnSole(EtabChecks(index, d, s), ETAB_CHECKED_FIELDS[i], i);
  }

  /** The four instances of `EtabErrorsOnField`, written out. */
  lemma EtabErrorsPerField(index: int, d: EtabData, s: Settings)
    ensures ErrorsOn(EtabErrors(index, d, s), "siret") == Report(SiretIsValid(d.siret), SiretError(index, d))
    ensures ErrorsOn(EtabErrors(index, d, s), "companyTypes") == Report(CompanyTypesAreValid(d.companyTypes, s), CompanyTypesError(index, d))
    ensures ErrorsOn(EtabErrors(index, d, s), "contactPhone") == Report(PhoneNumberIsValid(d.contactPhone), ContactPhoneError(index, d))
    ensures ErrorsOn(EtabErrors(index, d, s), "contactEmail") == Report(ContactEmailIsValid(d.contactEmail, s), ContactEmailError(index, d))
  {
    EtabErrorsOnField(index, d, s, 0);
    EtabErrorsOnField(index, d, s, 1);
    EtabErrorsOnField(index, d, s, 2);
    EtabErrorsOnField(index, d, s, 3);
  }

  /** The errors come grouped by field, in the order the checks run. */
  lemma EtabErrorsInCheckOrder(index: int, d: EtabData, s: Settings)
    ensures var r := EtabErrors(index, d, s);
      r == ErrorsOn(r, "siret") + ErrorsOn(r, "companyTypes") + ErrorsOn(r, "contactPhone") + ErrorsOn(r, "contactEmail")
  {
    EtabErrorsPerField(index, d, s);
    EtabErrorsUnfold(index, d, s);
  }

  /** A row is error-free exactly when all four checks pass. */
  lemma EtabErrorsEmptyIff(index: int, d: EtabData, s: Settings)
    ensures EtabErrors(index, d, s) == [] <==>
      SiretIsValid(d.siret) && CompanyTypesAreValid(d.companyTypes, s)
      && PhoneNumberIsValid(d.contactPhone) && ContactEmailIsValid(d.contactEmail, s)
  {
    EtabErrorsUnfold(index, d, s);
  }

  /** An empty contact e-mail or phone is never reported. */
  lemma EmptyContactNeverReported(index: int, d: EtabData, s: Settings)
    ensures d.contactEmail == "" ==> ErrorsOn(EtabErrors(index, d, s), "contactEmail") == []
    ensures d.contactPhone == "" ==> ErrorsOn(EtabErrors(index, d, s), "contactPhone") == []
  {
    EtabErrorsPerField(index, d, s);
  }

  /** A well-formed establishment with a recognised company type has no error. */
  lemma WellFormedEstablishment(s: Settings)
    requires "EP" in s.companyTypes
    ensures EtabErrors(2, EtabData("12345678901234", "", ["EP"], "Usine", "", "06 12 34 56 78", ""), s) == []
  {
    PhoneSpacedAccepted();
    EtabErrorsEmptyIff(2, EtabData("12345678901234", "", ["EP"], "Usine", "", "06 12 34 56 78", ""), s);
  }

  /** One row of the establishments tab (`EtabRow`). */
  class EtabRow {
    const index: int
    const siret: string
    const gerepid: string
    const companyTypes: seq<string>
    const givenName: string
    const contactEmail: string
    const contactPhone: string
    const webSite: string
    var errors: seq<RowError>
    var validated: bool

    constructor (index: int, d: EtabData)
      ensures this.index == index && Data() == d
      ensures errors == [] && !validated
    {
      this.index := index;
      siret, gerepid, companyTypes, givenName := d.siret, d.gerepid, d.companyTypes, d.givenName;
      contactEmail, contactPhone, webSite := d.contactEmail, d.contactPhone, d.webSite;
      errors, validated := [], false;
    }

    /** The row's values as one record. */
    function Data(): EtabData {
      EtabData(siret, gerepid, companyTypes, givenName, contactEmail, contactPhone, webSite)
    }

    /** `is_valid`. */
    function IsValid(): Result<bool>
      reads this
    {
      Validity(validated, errors)
    }

    /** `EtabRow.validate`: run every check, append one error per failure, mark validated. */
    method Validate(s: Settings)
      modifies this
      ensures validated
      ensures errors == old(errors) + EtabErrors(index, Data(), s)
    {
      var d := Data();
      ghost var e0 := errors;
      if !SiretIsValid(siret) {
        errors := errors + [SiretError(index, d)];
      }
      ReportStep(e0, SiretIsValid(siret), SiretError(index, d), errors);
      ghost var e1 := errors;
      if !CompanyTypesAreValid(companyTypes, s) {
        errors := errors + [CompanyTypesError(index, d)];
      }
      ReportStep(e1, CompanyTypesAreValid(companyTypes, s), CompanyTypesError(index, d), errors);
      ghost var e2 := errors;
      if !PhoneNumberIsValid(contactPhone) {
        errors := errors + [ContactPhoneError(index, d)];
      }
      ReportStep(e2, PhoneNumberIsValid(contactPhone), ContactPhoneError(index, d), errors);
      ghost var e3 := errors;
      if !ContactEmailIsValid(contactEmail, s) {
        errors := errors + [ContactEmailError(index, d)];
      }
      ReportStep(e3, ContactEmailIsValid(contactEmail, s), ContactEmailError(index, d), errors);
      ghost var cs := EtabChecks(index, d, s);
      ReportsChain(e0, cs[0], cs[1], cs[2], cs[3], errors);
      validated := true;
    }

    /**
     * `EtabRow.as_list`: the index, the values (company types comma-joined)
     * and the error or valid marker; refused, like `is_valid`, before validation.
     */
    function AsList(s: Settings): (r: Result<seq<string>>)
      reads this
      ensures r.Err? <==> !validated
      ensures r.Ok? ==> |r.value| == 9 && r.value[8] == (if errors == [] then s.validStr else s.errorStr)
    {
      match IsValid()
      case Err(m) => Err(m)
      case Ok(valid) =>
        Ok([Strings.IntToDecimal(index), siret, gerepid, Strings.Join(companyTypes, ','), givenName,
            contactEmail, contactPhone, webSite, if !valid then s.errorStr else s.validStr])
    }
  }

  /** What `as_list` shows can be read back: index, values, tags (when comma-free) and validity. */
  lemma AsListRecovers(row: EtabRow, s: Settings)
    requires row.validated && s.errorStr != s.validStr
    ensures row.AsList(s).Ok?
    ensures var l := row.AsList(s).value;
      Strings.ParseInt(l[0]) == Some(row.index)
      && [l[1], l[2], l[4], l[5], l[6], l[7]]
         == [row.siret, row.gerepid, row.givenName, row.contactEmail, row.contactPhone, row.webSite]
      && (l[8] == s.validStr <==> row.errors == [])
    ensures |row.companyTypes| >= 1 && (forall k :: 0 <= k < |row.companyTypes| ==> ',' !in row.companyTypes[k])
      ==> Strings.Split(row.AsList(s).value[3], ',') == row.companyTypes
  {
    Strings.IntToDecimalRoundTrip(row.index);
    if |row.companyTypes| >= 1 && (forall k :: 0 <= k < |row.companyTypes| ==> ',' !in row.companyTypes[k]) {
      Strings.SplitJoin(row.companyTypes, ',');
    }
  }

  /** Validating a row a second time records its errors a second time. */
  method ValidateTwice(row: EtabRow, s: Settings)
    modifies row
    ensures row.validated
    ensures row.errors == old(row.errors) + EtabErrors(row.index, row.Data(), s) + EtabErrors(row.index, row.Data(), s)
  {
    row.Validate(s);
    row.Validate(s);
  }

  /** `EtabRow.from_dict`: no row for a blank record, else a fresh unvalidated one. */
  method FromDict(idx: int, d: EtabData) returns (r: EtabRow?)
    ensures r == null <==> IsBlank(d)
    ensures r != null ==> fresh(r) && r.index == idx && r.Data() == d && r.errors == [] && !r.validated
  {
    if IsBlank(d) {
      return null;
    }
    r := new EtabRow(idx, d);
  }

  /** The sirets of a sequence of rows, in row order. */
  function SiretsOf(rows: seq<EtabRow>): (r: seq<string>)
    ensures |r| == |rows| && forall i :: 0 <= i < |rows| ==> r[i] == rows[i].siret
  {
    seq(|rows|, i requires 0 <= i < |rows| => rows[i].siret)
  }

  /** The error lists of a sequence of rows, in row order. */
  function ErrorLists(rows: seq<EtabRow>): (r: seq<seq<RowError>>)
    reads rows
    ensures |r| == |rows| && forall i :: 0 <= i < |rows| ==> r[i] == rows[i].errors
  {
    seq(|rows|, i requires 0 <= i < |rows| reads rows => rows[i].errors)
  }

  /**
   * The loop of `EtabRows.validate`: validate every row in turn, with no
   * early exit, and report whether every one came out error-free.
   */
  method ValidateEach(rs: seq<EtabRow>, s: Settings) returns (allValid: bool)
    requires Distinct(rs)
    modifies rs
    ensures forall j :: 0 <= j < |rs| ==>
      rs[j].validated && rs[j].errors == old(rs[j].errors) + EtabErrors(rs[j].index, rs[j].Data(), s)
    ensures allValid <==> forall j :: 0 <= j < |rs| ==> rs[j].IsValid() == Ok(true)
  {
    allValid := true;
    for i := 0 to |rs|
      invariant forall j :: 0 <= j < i ==>
        rs[j].validated && rs[j].errors == old(rs[j].errors) + EtabErrors(rs[j].index, rs[j].Data(), s)
      invariant forall j :: i <= j < |rs| ==> rs[j].errors == old(rs[j].errors)
      invariant allValid <==> forall j :: 0 <= j < i ==> rs[j].errors == []
    {
      rs[i].Validate(s);
      var valid := rs[i].IsValid();
      assert valid == Ok(rs[i].errors == []);
      if valid != Ok(true) {
        allValid := false;
      }
    }
  }

  /** The establishments tab (`EtabRows`). */
  class EtabRows {
    var header: EtabRow?
    var rows: seq<EtabRow>
    var isValid: bool

    constructor (rows: seq<EtabRow>)
      ensures this.rows == rows && header == null && !isValid
    {
      this.rows := rows;
      header, isValid := null, false;
    }

    /** `append`: the first row appended becomes the header, later ones are rows. */
    method Append(row: EtabRow)
      modifies this
      ensures old(header) == null ==> header == row && rows == old(rows)
      ensures old(header) != null ==> header == old(header) && rows == old(rows) + [row]
      ensures isValid == old(isValid)
    {
      if header == null {
        header := row;
      } else {
        rows := rows + [row];
      }
    }

    /** `sirets()`: every non-empty siret of a row, once each. */
    function Sirets(): (r: set<string>)
      reads this
      ensures forall x :: x in r <==> x != "" && exists i :: 0 <= i < |rows| && rows[i].siret == x
    {
      NonEmptySirets(SiretsOf(rows))
    }

    /** `get_errors()`. */
    function GetErrors(): seq<RowError>
      reads this, rows
    {
      Flatten(ErrorLists(rows))
    }

    /**
     * `EtabRows.validate`: every row is validated, with no early exit; the
     * collection is valid exactly when every row is.
     */
    method Validate(s: Settings)
      requires Distinct(rows)
      modifies this, rows
      ensures rows == old(rows) && header == old(header)
      ensures forall i :: 0 <= i < |rows| ==>
        rows[i].validated && rows[i].errors == old(rows[i].errors) + EtabErrors(rows[i].index, rows[i].Data(), s)
      ensures isValid <==> forall i :: 0 <= i < |rows| ==> rows[i].IsValid() == Ok(true)
    {
      isValid := ValidateEach(rows, s);
    }
  }

  /** `get_errors()` is empty exactly when no row has an error. */
  lemma GetErrorsEmptyIff(c: EtabRows)
    ensures c.GetErrors() == [] <==> forall i :: 0 <= i < |c.rows| ==> c.rows[i].errors == []
  {
    FlattenEmpty(ErrorLists(c.rows));
  }

  /** Once every row is validated, all rows are valid exactly when `get_errors()` is empty. */
  lemma AllValidIffNoErrors(c: EtabRows)
    requires forall i :: 0 <= i < |c.rows| ==> c.rows[i].validated
    ensures (forall i :: 0 <= i < |c.rows| ==> c.rows[i].IsValid() == Ok(true)) <==> c.GetErrors() == []
  {
    GetErrorsEmptyIff(c);
  }

  /** `get_errors()` holds every error of every row and nothing else. */
  lemma GetErrorsMembers(c: EtabRows, e: RowError)
    ensures e in c.GetErrors() <==> exists i :: 0 <= i < |c.rows| && e in c.rows[i].errors
  {
    FlattenMembers(ErrorLists(c.rows), e);
  }

  /**
   * `EtabRows.from_worksheet`: the first source row is skipped, every other
   * non-blank one becomes a fresh row whose index is its 1-based position.
   */
  method FromWorksheet(worksheet: seq<EtabData>) returns (c: EtabRows)
    ensures fresh(c) && c.header == null && !c.isValid
    ensures |c.rows| == |Numbered(worksheet, IsBlank)| && Distinct(c.rows)
    ensures forall k :: 0 <= k < |c.rows| ==>
      fresh(c.rows[k]) && (c.rows[k].index, c.rows[k].Data()) == Numbered(worksheet, IsBlank)[k]
      && c.rows[k].errors == [] && !c.rows[k].validated
  {
    var etabRows: seq<EtabRow> := [];
    var idx := 1;
    for k := 0 to |worksheet|
      invariant idx == k + 1
      invariant |etabRows| == |Numbered(worksheet[..k], IsBlank)| && Distinct(etabRows)
      invariant forall j :: 0 <= j < |etabRows| ==>
        fresh(etabRows[j]) && (etabRows[j].index, etabRows[j].Data()) == Numbered(worksheet[..k], IsBlank)[j]
        && etabRows[j].errors == [] && !etabRows[j].validated
    {
      assert worksheet[..k + 1][..k] == worksheet[..k];
      var data := worksheet[k];
      if idx != 1 {
        var etabRow := FromDict(idx, data);
        if etabRow != null {
          etabRows := etabRows + [etabRow];
        }
      }
      idx := idx + 1;
    }
    assert worksheet[..|worksheet|] == worksheet;
    c := new EtabRows(etabRows);
  }
}
