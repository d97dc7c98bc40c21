/**
 * The error record that row validation accumulates (`RowError`), the two
 * error kinds and the two tab names, and the user-facing message chosen by
 * the error kind.
 */
module Errors {

  /** Tab names, as they appear in the workbook. */
  const ETABLISSEMENTS_TAB: string := "Établissements"
  const ROLES_TAB: string := "Rôles"

  /** The recognised error kinds. */
  const ERROR_FIELD: string := "field"
  const ERROR_SIRET_MISSING_FROM_ETAB: string := "siret_missing_from_etab"
  const ERROR_TYPES: seq<string> := [ERROR_FIELD, ERROR_SIRET_MISSING_FROM_ETAB]

  /** End-user messages selected by `Verbose`. */
  const MSG_FIELD: string := "Valeur incorrecte"
  const MSG_MISSING_SIRET: string := "Siret absent de l'onglet établissements"

  /**
   * The offending value: a plain cell, or the list of company-type tags
   * (the only list-valued field of a row).
   */
  datatype FieldValue = Str(s: string) | StrList(items: seq<string>)

  /**
   * One recorded error. The kind is kept as a string, as in the source: the
   * attrs validator on `error_type` returns a boolean that attrs ignores, so
   * no kind is ever refused at construction.
   */
  datatype RowError = RowError(
    rowNumber: int,
    fieldName: string,
    fieldValue: FieldValue,
    errorType: string,
    tab: string)

  /** A `RowError` built with the default kind, as every field check does. */
  function FieldError(rowNumber: int, fieldName: string, value: FieldValue, tab: string): (e: RowError)
    ensures e.errorType == ERROR_FIELD && e.errorType in ERROR_TYPES
    ensures e.rowNumber == rowNumber && e.fieldName == fieldName && e.fieldValue == value && e.tab == tab
  {
    RowError(rowNumber, fieldName, value, ERROR_FIELD, tab)
  }

  /** `RowError.verbose`: the message depends on the kind alone. */
  function Verbose(e: RowError): (m: string)
    ensures m == MSG_MISSING_SIRET <==> e.errorType == ERROR_SIRET_MISSING_FROM_ETAB
    ensures m == MSG_FIELD <==> e.errorType != ERROR_SIRET_MISSING_FROM_ETAB
  {
    if e.errorType == ERROR_SIRET_MISSING_FROM_ETAB then MSG_MISSING_SIRET else MSG_FIELD
  }

  /** Two errors of the same kind read the same to the end user. */
  lemma VerboseOnlyByKind(e1: RowError, e2: RowError)
    requires e1.errorType == e2.errorType
    ensures Verbose(e1) == Verbose(e2)
  {
  }

  /** What one check contributes: nothing when it passes, its error when it fails. */
  function Report(passed: bool, e: RowError): (r: seq<RowError>)
    ensures |r| <= 1 && (r == [] <==> passed)
  {
    if passed then [] else [e]
  }

  /** Appending a check's error when it fails extends the list by its `Report`. */
  lemma ReportStep(before: seq<RowError>, passed: bool, e: RowError, after: seq<RowError>)
    requires after == if passed then before else before + [e]
    ensures after == before + Report(passed, e)
  {
  }

  /** One check of a row: whether it passed, and the error it records when it fails. */
  datatype Check = Check(passed: bool, error: RowError)

  /** The errors a run of checks records: each failing check's error, in check order. */
  function Reports(checks: seq<Check>): seq<RowError> {
    if checks == [] then [] else Report(checks[0].passed, checks[0].error) + Reports(checks[1..])
  }

  /** Four checks run one after the other append the `Reports` of the four. */
  lemma ReportsChain(before: seq<RowError>, c1: Check, c2: Check, c3: Check, c4: Check, after: seq<RowError>)
    requires after == before + Report(c1.passed, c1.error) + Report(c2.passed, c2.error)
      + Report(c3.passed, c3.error) + Report(c4.passed, c4.error)
    ensures after == before + Reports([c1, c2, c3, c4])
  {
    assert [c4][1..] == [];
    assert Reports([c4]) == Report(c4.passed, c4.error) + Reports([]);
    assert [c3, c4][1..] == [c4];
    assert Reports([c3, c4]) == Report(c3.passed, c3.error) + Reports([c4]);
    assert [c2, c3, c4][1..] == [c3, c4];
    assert Reports([c2, c3, c4]) == Report(c2.passed, c2.error) + Reports([c3, c4]);
    assert [c1, c2, c3, c4][1..] == [c2, c3, c4];
  }

  /** Two checks run one after the other append their two reports. */
  lemma ReportsPair(c1: Check, c2: Check)
    ensures Reports([c1, c2]) == Report(c1.passed, c1.error) + Report(c2.passed, c2.error)
  {
    assert [c2][1..] == [];
    assert Reports([c2]) == Report(c2.passed, c2.error) + Reports([]);
    assert [c1, c2][1..] == [c2];
  }

  /** Running more checks appends their errors. */
  lemma {:induction false} ReportsAppend(a: seq<Check>, b: seq<Check>)
    ensures Reports(a + b) == Reports(a) + Reports(b)
  {
    if a != [] {
      ReportsAppend(a[1..], b);
      assert (a + b)[1..] == a[1..] + b;
    } else {
      assert a + b == b;
    }
  }

  /**
   * At most one error per check; no error at all exactly when every check
   * passes; and the errors are exactly those of the failing checks.
   */
  lemma {:induction false} ReportsFailures(checks: seq<Check>)
    ensures |Reports(checks)| <= |checks|
    ensures Reports(checks) == [] <==> forall i :: 0 <= i < |checks| ==> checks[i].passed
    ensures forall e :: e in Reports(checks) <==>
      exists i :: 0 <= i < |checks| && !checks[i].passed && checks[i].error == e
  {
    if checks != [] {
      ReportsFailures(checks[1..]);
      assert forall i :: 1 <= i < |checks| ==> checks[i] == checks[1..][i - 1];
      forall e | e in Reports(checks[1..])
        ensures exists i :: 0 <= i < |checks| && !checks[i].passed && checks[i].error == e
      {
        var i :| 0 <= i < |checks[1..]| && !checks[1..][i].passed && checks[1..][i].error == e;
        assert checks[i + 1] == checks[1..][i];
      }
    }
  }

  /** The checks whose error is against `field`, in check order. */
  function ChecksOn(checks: seq<Check>, field: string): (r: seq<Check>)
    ensures |r| <= |checks|
  {
    if checks == [] then []
    else (if checks[0].error.fieldName == field then [checks[0]] else []) + ChecksOn(checks[1..], field)
  }

  /** What is recorded against one field is what the checks against that field record. */
  lemma {:induction false} ReportsOn(checks: seq<Check>, field: string)
    ensures ErrorsOn(Reports(checks), field) == Reports(ChecksOn(checks, field))
  {
    if checks != [] {
      var c := checks[0];
      ReportsOn(checks[1..], field);
      ErrorsOnAppend(Report(c.passed, c.error), Reports(checks[1..]), field);
      var first := if c.error.fieldName == field then [c] else [];
      ReportsAppend(first, ChecksOn(checks[1..], field));
      if c.error.fieldName == field {
        assert first[1..] == [];
      }
      if !c.passed {
        assert Report(c.passed, c.error)[1..] == [];
      }
    }
  }

  /** When the checks against `field` are exactly those at `lo..hi`, they are what the filter keeps. */
  lemma {:induction false} ChecksOnBlock(checks: seq<Check>, field: string, lo: nat, hi: nat)
    requires lo <= hi <= |checks|
    requires forall j :: 0 <= j < |checks| ==> (checks[j].error.fieldName == field <==> lo <= j < hi)
    ensures ChecksOn(checks, field) == checks[lo..hi]
  {
    if checks != [] {
      var rest := checks[1..];
      var lo', hi' := if lo == 0 then 0 else lo - 1, if hi == 0 then 0 else hi - 1;
      forall j | 0 <= j < |rest|
        ensures rest[j].error.fieldName == field <==> lo' <= j < hi'
      {
        assert rest[j] == checks[j + 1];
      }
      ChecksOnBlock(rest, field, lo', hi');
      if lo == 0 && hi > 0 {
        assert [checks[0]] + rest[..hi - 1] == checks[..hi];
      } else if lo > 0 {
        assert rest[lo - 1..hi - 1] == checks[lo..hi];
      }
    }
  }

  /** A field checked by one check alone carries that check's report. */
  lemma ReportsOnSole(checks: seq<Check>, field: string, i: nat)
    requires i < |checks|
    requires forall j :: 0 <= j < |checks| ==> (checks[j].error.fieldName == field <==> j == i)
    ensures ErrorsOn(Reports(checks), field) == Report(checks[i].passed, checks[i].error)
  {
    ReportsOn(checks, field);
    ChecksOnBlock(checks, field, i, i + 1);
    assert checks[i..i + 1] == [checks[i]];
    assert [checks[i]][1..] == [];
  }

  /** The errors recorded against one field, in recording order. */
  function ErrorsOn(errors: seq<RowError>, field: string): (r: seq<RowError>)
    ensures |r| <= |errors|
  {
    if errors == [] then []
    else (if errors[0].fieldName == field then [errors[0]] else []) + ErrorsOn(errors[1..], field)
  }

  /** The filter keeps exactly the errors against `field`. */
  lemma {:induction false} ErrorsOnMembers(errors: seq<RowError>, field: string, e: RowError)
    ensures e in ErrorsOn(errors, field) <==> e in errors && e.fieldName == field
  {
    if errors != [] {
      ErrorsOnMembers(errors[1..], field, e);
      assert errors == [errors[0]] + errors[1..];
    }
  }

  lemma {:induction false} ErrorsOnAppend(a: seq<RowError>, b: seq<RowError>, field: string)
    ensures ErrorsOn(a + b, field) == ErrorsOn(a, field) + ErrorsOn(b, field)
  {
    if a != [] {
      ErrorsOnAppend(a[1..], b, field);
      assert (a + b)[1..] == a[1..] + b;
    } else {
      assert a + b == b;
    }
  }
}
