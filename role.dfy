/**
 * The roles tab: one `RoleRow` per person and establishment, its four
 * checks (one of them against the sirets of the establishments tab), and the
 * `RoleRows` collection built from a worksheet.
 */
module Role {
  import opened Wrappers
  import opened Errors
  import opened Fields
  import opened Base
  import Strings
  import Etab

  /** One role row's values, as read from the worksheet. */
  datatype RoleData = RoleData(siret: string, email: string, role: string)

  /** `from_dict`'s test that every value of the row is falsy. */
  predicate IsBlank(d: RoleData) {
    d.siret == "" && d.email == "" && d.role == ""
  }

  /** The error each check records when it fails. */
  function RoleError(index: int, d: RoleData): RowError {
    FieldError(index, "role", Str(d.role), ROLES_TAB)
  }

  function SiretLengthError(index: int, d: RoleData): RowError {
    FieldError(index, "siret", Str(d.siret), ROLES_TAB)
  }

  /** The one error of the other kind: the siret is not among the establishments'. */
  function MissingSiretError(index: int, d: RoleData): RowError {
    RowError(index, "siret", Str(d.siret), ERROR_SIRET_MISSING_FROM_ETAB, ROLES_TAB)
  }

  function EmailError(index: int, d: RoleData): RowError {
    FieldError(index, "email", Str(d.email), ROLES_TAB)
  }

  /** The four checks of `RoleRow.validate`, in the order it runs them. */
  function RoleChecks(index: int, d: RoleData, etabSirets: set<string>, s: Settings): seq<Check> {
    [Check(RoleIsValid(d.role), RoleError(index, d)),
     Check(SiretIsValid(d.siret), SiretLengthError(index, d)),
     Check(SiretBelongsTo(d.siret, etabSirets), MissingSiretError(index, d)),
     Check(RoleEmailIsValid(d.email, s), EmailError(index, d))]
  }

  /** The errors one run of `RoleRow.validate` appends. */
  function RoleErrors(index: int, d: RoleData, etabSirets: set<string>, s: Settings): seq<RowError> {
    Reports(RoleChecks(index, d, etabSirets, s))
  }

  /** The four checks' reports, one after the other. */
  lemma RoleErrorsUnfold(index: int, d: RoleData, etabSirets: set<string>, s: Settings)
    ensures RoleErrors(index, d, etabSirets, s)
      == Report(RoleIsValid(d.role), RoleError(index, d))
       + Report(SiretIsValid(d.siret), SiretLengthError(index, d))
       + Report(SiretBelongsTo(d.siret, etabSirets), MissingSiretError(index, d))
       + Report(RoleEmailIsValid(d.email, s), EmailError(index, d))
  {
    var cs := RoleChecks(index, d, etabSirets, s);
    ReportsChain([], cs[0], cs[1], cs[2], cs[3],
      Report(cs[0].passed, cs[0].error) + Report(cs[1].passed, cs[1].error)
      + Report(cs[2].passed, cs[2].error) + Report(cs[3].passed, cs[3].error));
    assert [cs[0], cs[1], cs[2], cs[3]] == cs;
  }

  /**
   * At most one error per check, each of this row on the roles tab; only the
   * membership check records the missing-siret kind, and it is on `siret`.
   */
  lemma RoleErrorsShape(index: int, d: RoleData, etabSirets: set<string>, s: Settings)
    ensures |RoleErrors(index, d, etabSirets, s)| <= 4
    ensures forall e :: e in RoleErrors(index, d, etabSirets, s) ==>
      e.rowNumber == index && e.tab == ROLES_TAB && e.errorType in ERROR_TYPES
      && e.fieldName in ["role", "siret", "email"]
      && (e.errorType == ERROR_SIRET_MISSING_FROM_ETAB <==> e == MissingSiretError(index, d))
  {
    ReportsFailures(RoleChecks(index, d, etabSirets, s));
  }

  /** The role and e-mail fields are each checked once: their error exactly when the check fails. */
  lemma RoleErrorsOnRoleAndEmail(index: int, d: RoleData, etabSirets: set<string>, s: Settings)
    ensures ErrorsOn(RoleErrors(index, d, etabSirets, s), "role") == Report(RoleIsValid(d.role), RoleError(index, d))
    ensures ErrorsOn(RoleErrors(index, d, etabSirets, s), "email") == Report(RoleEmailIsValid(d.email, s), EmailError(index, d))
  {
    var cs := RoleChecks(index, d, etabSirets, s);
    ReportsOnSole(cs, "role", 0);
    ReportsOnSole(cs, "email", 3);
  }

  /**
   * The siret is checked twice, the length first and then the membership,
   * and each check records its own error.
   */
  lemma RoleErrorsOnSiret(index: int, d: RoleData, etabSirets: set<string>, s: Settings)
    ensures ErrorsOn(RoleErrors(index, d, etabSirets, s), "siret")
      == Report(SiretIsValid(d.siret), SiretLengthError(index, d))
       + Report(SiretBelongsTo(d.siret, etabSirets), MissingSiretError(index, d))
  {
    var cs := RoleChecks(index, d, etabSirets, s);
    ReportsOn(cs, "siret");
    ChecksOnBlock(cs, "siret", 1, 3);
    assert cs[1..3] == [cs[1], cs[2]];
    ReportsPair(cs[1], cs[2]);
  }

  /** A row is error-free exactly when all four checks pass. */
  lemma RoleErrorsEmptyIff(index: int, d: RoleData, etabSirets: set<string>, s: Settings)
    ensures RoleErrors(index, d, etabSirets, s) == [] <==>
      RoleIsValid(d.role) && SiretIsValid(d.siret) && SiretBelongsTo(d.siret, etabSirets)
      && RoleEmailIsValid(d.email, s)
  {
    RoleErrorsUnfold(index, d, etabSirets, s);
  }

  /** The errors come grouped by field: role, then siret, then e-mail. */
  lemma RoleErrorsInCheckOrder(index: int, d: RoleData, etabSirets: set<string>, s: Settings)
    ensures var r := RoleErrors(index, d, etabSirets, s);
      r == ErrorsOn(r, "role") + ErrorsOn(r, "siret") + ErrorsOn(r, "email")
  {
    RoleErrorsOnRoleAndEmail(index, d, etabSirets, s);
    RoleErrorsOnSiret(index, d, etabSirets, s);
    RoleErrorsUnfold(index, d, etabSirets, s);
    var r := RoleErrors(index, d, etabSirets, s);
    var byRole := Report(RoleIsValid(d.role), RoleError(index, d));
    var bySiret := Report(SiretIsValid(d.siret), SiretLengthError(index, d))
      + Report(SiretBelongsTo(d.siret, etabSirets), MissingSiretError(index, d));
    var byEmail := Report(RoleEmailIsValid(d.email, s), EmailError(index, d));
    assert r == byRole + bySiret + byEmail;
  }

  /** A missing-siret error is recorded exactly when the siret is not an establishment's. */
  lemma MissingSiretIffUnknown(index: int, d: RoleData, etabSirets: set<string>, s: Settings)
    ensures MissingSiretError(index, d) in RoleErrors(index, d, etabSirets, s) <==> d.siret !in etabSirets
  {
    RoleErrorsUnfold(index, d, etabSirets, s);
  }

  /** Unlike the contact e-mail of an establishment, an empty role e-mail is always an error. */
  lemma EmptyEmailReported(index: int, d: RoleData, etabSirets: set<string>, s: Settings)
    requires d.email == ""
    ensures ErrorsOn(RoleErrors(index, d, etabSirets, s), "email") == [FieldError(index, "email", Str(""), ROLES_TAB)]
  {
    RoleErrorsOnRoleAndEmail(index, d, etabSirets, s);
  }

  /** A well-sized siret that no establishment has gives exactly one siret error, of the missing kind. */
  lemma UnknownSiretReportedOnce(index: int, d: RoleData, etabSirets: set<string>, s: Settings)
    requires SiretIsValid(d.siret) && d.siret !in etabSirets
    ensures var r := ErrorsOn(RoleErrors(index, d, etabSirets, s), "siret");
      |r| == 1 && r[0].errorType == ERROR_SIRET_MISSING_FROM_ETAB && Verbose(r[0]) == MSG_MISSING_SIRET
  {
    RoleErrorsOnSiret(index, d, etabSirets, s);
  }

  /** An empty siret fails both siret checks when the establishments' sirets, as always, exclude "". */
  lemma EmptySiretReportedTwice(index: int, d: RoleData, etabSirets: set<string>, s: Settings)
    requires d.siret == "" && "" !in etabSirets
    ensures ErrorsOn(RoleErrors(index, d, etabSirets, s), "siret")
      == [SiretLengthError(index, d), MissingSiretError(index, d)]
  {
    RoleErrorsOnSiret(index, d, etabSirets, s);
  }

  /** An unknown role is one field error on `role`, whatever else the row holds. */
  lemma UnknownRoleReported(index: int, d: RoleData, etabSirets: set<string>, s: Settings)
    requires d.role == "OWNER"
    ensures ErrorsOn(RoleErrors(index, d, etabSirets, s), "role") == [FieldError(index, "role", Str("OWNER"), ROLES_TAB)]
  {
    RoleErrorsOnRoleAndEmail(index, d, etabSirets, s);
    RoleExamples();
  }

  /** One row of the roles tab (`RoleRow`). */
  class RoleRow {
    const index: int
    const siret: string
    const email: string
    const role: string
    var errors: seq<RowError>
    var validated: bool

    constructor (index: int, d: RoleData)
      ensures this.index == index && Data() == d
      ensures errors == [] && !validated
    {
      this.index := index;
      siret, email, role := d.siret, d.email, d.role;
      errors, validated := [], false;
    }

    /** The row's values as one record. */
    function Data(): RoleData {
      RoleData(siret, email, role)
    }

    /** `is_valid`. */
    function IsValid(): Result<bool>
      reads this
    {
      Validity(validated, errors)
    }

    /**
     * `RoleRow.validate(etab_sirets)`: run every check, append one error per
     * failure, mark validated.
     */
    method Validate(etabSirets: set<string>, s: Settings)
      modifies this
      ensures validated
      ensures errors == old(errors) + RoleErrors(index, Data(), etabSirets, s)
    {
      var d := Data();
      ghost var e0 := errors;
      if !RoleIsValid(role) {
        errors := errors + [RoleError(index, d)];
      }
      ReportStep(e0, RoleIsValid(role), RoleError(index, d), errors);
      ghost var e1 := errors;
      if !SiretIsValid(siret) {
        errors := errors + [SiretLengthError(index, d)];
      }
      ReportStep(e1, SiretIsValid(siret), SiretLengthError(index, d), errors);
      ghost var e2 := errors;
      if !SiretBelongsTo(siret, etabSirets) {
        errors := errors + [MissingSiretError(index, d)];
      }
      ReportStep(e2, SiretBelongsTo(siret, etabSirets), MissingSiretError(index, d), errors);
      ghost var e3 := errors;
      if !RoleEmailIsValid(email, s) {
        errors := errors + [EmailError(index, d)];
      }
      ReportStep(e3, RoleEmailIsValid(email, s), EmailError(index, d), errors);
      ghost var cs := RoleChecks(index, d, etabSirets, s);
      ReportsChain(e0, cs[0], cs[1], cs[2], cs[3], errors);
      validated := true;
    }

    /**
     * `RoleRow.as_list`: the index, the three values and the error or valid
     * marker; refused, like `is_valid`, before validation.
     */
    function AsList(s: Settings): (r: Result<seq<string>>)
      reads this
      ensures r.Err? <==> !validated
      ensures r.Ok? ==> |r.value| == 5 && r.value[4] == (if errors == [] then s.validStr else s.errorStr)
    {
      match IsValid()
      case Err(m) => Err(m)
      case Ok(valid) =>
        Ok([Strings.IntToDecimal(index), siret, email, role, if !valid then s.errorStr else s.validStr])
    }
  }

  /** What `as_list` shows can be read back: index, values and validity. */
  lemma AsListRecovers(row: RoleRow, s: Settings)
    requires row.validated && s.errorStr != s.validStr
    ensures row.AsList(s).Ok?
    ensures var l := row.AsList(s).value;
      Strings.ParseInt(l[0]) == Some(row.index)
      && l[1..4] == [row.siret, row.email, row.role]
      && (l[4] == s.validStr <==> row.errors == [])
  {
    Strings.IntToDecimalRoundTrip(row.index);
  }

  /** `RoleRow.from_dict`: no row for a blank record, else a fresh unvalidated one. */
  method FromDict(idx: int, d: RoleData) returns (r: RoleRow?)
    ensures r == null <==> IsBlank(d)
    ensures r != null ==> fresh(r) && r.index == idx && r.Data() == d && r.errors == [] && !r.validated
  {
    if IsBlank(d) {
      return null;
    }
    r := new RoleRow(idx, d);
  }

  /** The sirets of a sequence of rows, in row order. */
  function SiretsOf(rows: seq<RoleRow>): (r: seq<string>)
    ensures |r| == |rows| && forall i :: 0 <= i < |rows| ==> r[i] == rows[i].siret
  {
    seq(|rows|, i requires 0 <= i < |rows| => rows[i].siret)
  }

  /** The error lists of a sequence of rows, in row order. */
  function ErrorLists(rows: seq<RoleRow>): (r: seq<seq<RowError>>)
    reads rows
    ensures |r| == |rows| && forall i :: 0 <= i < |rows| ==> r[i] == rows[i].errors
  {
    seq(|rows|, i requires 0 <= i < |rows| reads rows => rows[i].errors)
  }

  /**
   * The loop of `RoleRows.validate`: validate every row in turn against the
   * establishments' sirets, with no early exit, and report whether every
   * one came out error-free.
   */
  method ValidateEach(rs: seq<RoleRow>, etabSirets: set<string>, s: Settings) returns (allValid: bool)
    requires Distinct(rs)
    modifies rs
    ensures forall j :: 0 <= j < |rs| ==>
      rs[j].validated && rs[j].errors == old(rs[j].errors) + RoleErrors(rs[j].index, rs[j].Data(), etabSirets, s)
    ensures allValid <==> forall j :: 0 <= j < |rs| ==> rs[j].IsValid() == Ok(true)
  {
    allValid := true;
    for i := 0 to |rs|
      invariant forall j :: 0 <= j < i ==>
        rs[j].validated && rs[j].errors == old(rs[j].errors) + RoleErrors(rs[j].index, rs[j].Data(), etabSirets, s)
      invariant forall j :: i <= j < |rs| ==> rs[j].errors == old(rs[j].errors)
      invariant allValid <==> forall j :: 0 <= j < i ==> rs[j].errors == []
    {
      rs[i].Validate(etabSirets, s);
      var valid := rs[i].IsValid();
      assert valid == Ok(rs[i].errors == []);
      if valid != Ok(true) {
        allValid := false;
      }
    }
  }

  /** The roles tab (`RoleRows`). */
  class RoleRows {
    var header: RoleRow?
    var rows: seq<RoleRow>
    var isValid: bool

    constructor (rows: seq<RoleRow>)
      ensures this.rows == rows && header == null && !isValid
    {
      this.rows := rows;
      header, isValid := null, false;
    }

    /** `append`: the first row appended becomes the header, later ones are rows. */
    method Append(row: RoleRow)
      modifies this
      ensures old(header) == null ==> header == row && rows == old(rows)
      ensures old(header) != null ==> header == old(header) && rows == old(rows) + [row]
      ensures isValid == old(isValid)
    {
      if header == null {
        header := row;
      } else {
        rows := rows + [row];
      }
    }

    /** `sirets()`: every non-empty siret of a row, once each. */
    function Sirets(): (r: set<string>)
      reads this
      ensures forall x :: x in r <==> x != "" && exists i :: 0 <= i < |rows| && rows[i].siret == x
    {
      NonEmptySirets(SiretsOf(rows))
    }

    /** `get_errors()`. */
    function GetErrors(): seq<RowError>
      reads this, rows
    {
      Flatten(ErrorLists(rows))
    }

    /**
     * `RoleRows.validate(etab_sirets)`: every row is validated against the
     * same sirets, with no early exit; the collection is valid exactly when
     * every row is.
     */
    method Validate(etabSirets: set<string>, s: Settings)
      requires Distinct(rows)
      modifies this, rows
      ensures rows == old(rows) && header == old(header)
      ensures forall i :: 0 <= i < |rows| ==>
        rows[i].validated && rows[i].errors == old(rows[i].errors) + RoleErrors(rows[i].index, rows[i].Data(), etabSirets, s)
      ensures isValid <==> forall i :: 0 <= i < |rows| ==> rows[i].IsValid() == Ok(true)
    {
      isValid := ValidateEach(rows, etabSirets, s);
    }
  }

  /** `get_errors()` is empty exactly when no row has an error. */
  lemma GetErrorsEmptyIff(c: RoleRows)
    ensures c.GetErrors() == [] <==> forall i :: 0 <= i < |c.rows| ==> c.rows[i].errors == []
  {
    FlattenEmpty(ErrorLists(c.rows));
  }

  /** Once every row is validated, all rows are valid exactly when `get_errors()` is empty. */
  lemma AllValidIffNoErrors(c: RoleRows)
    requires forall i :: 0 <= i < |c.rows| ==> c.rows[i].validated
    ensures (forall i :: 0 <= i < |c.rows| ==> c.rows[i].IsValid() == Ok(true)) <==> c.GetErrors() == []
  {
    GetErrorsEmptyIff(c);
  }

  /** `get_errors()` holds every error of every row and nothing else. */
  lemma GetErrorsMembers(c: RoleRows, e: RowError)
    ensures e in c.GetErrors() <==> exists i :: 0 <= i < |c.rows| && e in c.rows[i].errors
  {
    FlattenMembers(ErrorLists(c.rows), e);
  }

  /**
   * `RoleRows.from_worksheet`: the first source row is skipped, every other
   * non-blank one becomes a fresh row whose index is its 1-based position.
   */
  method FromWorksheet(worksheet: seq<RoleData>) returns (c: RoleRows)
    ensures fresh(c) && c.header == null && !c.isValid
    ensures |c.rows| == |Numbered(worksheet, IsBlank)| && Distinct(c.rows)
    ensures forall k :: 0 <= k < |c.rows| ==>
      fresh(c.rows[k]) && (c.rows[k].index, c.rows[k].Data()) == Numbered(worksheet, IsBlank)[k]
      && c.rows[k].errors == [] && !c.rows[k].validated
  {
    var roleRows: seq<RoleRow> := [];
    var idx := 1;
    for k := 0 to |worksheet|
      invariant idx == k + 1
      invariant |roleRows| == |Numbered(worksheet[..k], IsBlank)| && Distinct(roleRows)
      invariant forall j :: 0 <= j < |roleRows| ==>
        fresh(roleRows[j]) && (roleRows[j].index, roleRows[j].Data()) == Numbered(worksheet[..k], IsBlank)[j]
        && roleRows[j].errors == [] && !roleRows[j].validated
    {
      assert worksheet[..k + 1][..k] == worksheet[..k];
      var data := worksheet[k];
      if idx != 1 {
        var roleRow := FromDict(idx, data);
        if roleRow != null {
          roleRows := roleRows + [roleRow];
        }
      }
      idx := idx + 1;
    }
    assert worksheet[..|worksheet|] == worksheet;
    c := new RoleRows(roleRows);
  }

  /**
   * Across the two tabs: when the establishments were validated once and
   * came out error-free, a role whose siret is one of theirs has no siret
   * error at all, since each of their sirets passed the same length check.
   */
  lemma KnownSiretHasNoSiretError(etabs: Etab.EtabRows, s: Settings, index: int, d: RoleData)
    requires forall i :: 0 <= i < |etabs.rows| ==>
      etabs.rows[i].errors == Etab.EtabErrors(etabs.rows[i].index, etabs.rows[i].Data(), s)
      && etabs.rows[i].errors == []
    requires d.siret in etabs.Sirets()
    ensures ErrorsOn(RoleErrors(index, d, etabs.Sirets(), s), "siret") == []
  {
    var i :| 0 <= i < |etabs.rows| && etabs.rows[i].siret == d.siret;
    var row := etabs.rows[i];
    Etab.EtabErrorsEmptyIff(row.index, row.Data(), s);
    RoleErrorsOnSiret(index, d, etabs.Sirets(), s);
  }
}
