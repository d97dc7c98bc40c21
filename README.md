# Mass validator: row validation

A model of the validation engine of the mass validator. The validator reads
an Excel workbook with two tabs. "Établissements" lists establishments: a
siret, company types, a contact e-mail and phone, and so on. "Rôles" lists
people, each with a role in an establishment given by its siret. The engine
checks every row of both tabs and records one `RowError` per failed check.

The model follows `src/mass_validator/validator/row_models.py`:

- `Errors`: the error record, its two kinds, the tab names, and `verbose`.
  It also holds the generic `Check`/`Reports` pair. A row's validation is a
  fixed list of checks, and its error list is the error of each failing
  check, in check order.
- `Phone`: the phone pattern as a deterministic matcher. It is proved to
  accept exactly the strings that `Render` produces from well-formed parts.
- `Fields`: the field predicates. It also defines `Settings`, which carries
  what other modules supply: the company-type list, Django's
  `EmailValidator` (as a `string -> bool`), and the `ERROR_STR`/`VALID_STR`
  markers.
- `Base`: `is_valid`, the flattened `get_errors`, the siret set, and the
  row numbering of `from_worksheet`.
- `Etab` and `Role`: the two row classes and the two collection classes,
  with mutable `errors`/`validated`/`isValid`/`header`/`rows` fields. Each
  has the pure function giving the errors one `validate` appends, and the
  lemmas about that function. Role rows are checked against the
  establishments' sirets (the cross-tab check).
- `Strings`: `str(int)` and `",".join` as used by `as_list`, each with the
  inverse that reads it back (for the join, on non-empty lists of
  comma-free parts).

An unknown error kind is not refused: the attrs validator on `error_type`
(row_models.py:73-75) returns a boolean instead of raising, and attrs
ignores that value, so `RowError.errorType` is any string. The
`EtabErrorsShape` and `RoleErrorsShape` lemmas show that validation only
ever records the two kinds.

## Model

| member | source | states |
|---|---|---|
| `Errors.FieldError` | src/mass_validator/validator/row_models.py:64-71 | an error built with the defaults has the `field` kind, one of the recognised kinds, and keeps row, field, value and tab |
| `Errors.Verbose` | src/mass_validator/validator/row_models.py:86-90 | the missing-siret message exactly for the missing-siret kind, "Valeur incorrecte" exactly for every other kind |
| `Errors.VerboseOnlyByKind` | src/mass_validator/validator/row_models.py:86-90 | two errors of the same kind have the same message, whatever their row, field or value |
| `Errors.Report` | src/mass_validator/validator/row_models.py:167-175 | one check appends at most one error, and none exactly when it passes |
| `Base.Validity` | src/mass_validator/validator/row_models.py:32-36 | `is_valid` fails with "Not validated yet" exactly when the row is unvalidated; otherwise it is true exactly when the error list is empty |
| `Fields.SiretIsLengthOnly` | src/mass_validator/validator/row_models.py:38-39 | a siret passes exactly when it is 14 characters long; letters pass, 13 digits fail |
| `Fields.CompanyTypesEmptyOrUnknown` | src/mass_validator/validator/row_models.py:146-147 | the empty tag list passes; a list holding one unrecognised tag fails |
| `Phone.MatchesIffRendered` | src/mass_validator/validator/row_models.py:21 | the pattern matches a string exactly when it renders some well-formed number: `0`, a digit 1-9, four groups of an optional separator from ` _.-` and two digits, and an optional final newline |
| `Phone.ParseSound` | src/mass_validator/validator/row_models.py:21 | every match yields well-formed parts whose rendering is the matched string |
| `Phone.ParseComplete` | src/mass_validator/validator/row_models.py:21 | every well-formed number is matched, and the parts are recovered |
| `Phone.MatchesLength` | src/mass_validator/validator/row_models.py:21 | every accepted number is 10 to 15 characters long and starts with `0` and a non-zero digit |
| `Fields.PhonePlainAccepted` | src/mass_validator/validator/row_models.py:149-152 | "0612345678" passes the phone check |
| `Fields.PhoneSpacedAccepted` | src/mass_validator/validator/row_models.py:149-152 | "06 12 34 56 78" passes the phone check |
| `Fields.PhoneDashedAccepted` | src/mass_validator/validator/row_models.py:149-152 | "06-12-34-56-78" passes the phone check |
| `Fields.PhoneExamplesRefused` | src/mass_validator/validator/row_models.py:149-152 | a number not starting with 0, and one with nine digits, fail |
| `Fields.EmptyStrings` | src/mass_validator/validator/row_models.py:149-163 | the contact phone and the contact e-mail are optional (empty passes); the role e-mail is not (empty fails) |
| `Fields.EmailChecksAgreeWhenNonEmpty` | src/mass_validator/validator/row_models.py:289-299 | on a non-empty e-mail the role check and the contact check agree |
| `Fields.RoleExamples` | src/mass_validator/validator/row_models.py:283-284 | MEMBER and ADMIN pass; OWNER, lower-case admin and the empty role fail |
| `Strings.IntToDecimalRoundTrip` | src/mass_validator/validator/row_models.py:122 | `str` of an index, negative ones included, reads back to the same integer |
| `Strings.SplitJoin` | src/mass_validator/validator/row_models.py:125 | a non-empty list of comma-free tags, comma-joined, splits back into the same list |
| `Strings.JoinNotInjective` | src/mass_validator/validator/row_models.py:125 | the join is not invertible: a tag holding a comma reads like two tags, and the empty list renders like the list of one empty tag |
| `Base.NonEmptySirets` | src/mass_validator/validator/row_models.py:221 | the siret set holds exactly the non-empty sirets of the rows, each once |
| `Base.FlattenAt` | src/mass_validator/validator/row_models.py:59-61 | in the flattened list, row i's errors come after those of the rows before it and before those of the rows after it |
| `Base.NumberedSound` | src/mass_validator/validator/row_models.py:237-249 | every kept row has position 2 or more, its own source values, and is not blank |
| `Base.NumberedIncreasing` | src/mass_validator/validator/row_models.py:240-248 | the indices strictly increase: source order is kept and no index repeats |
| `Base.NumberedComplete` | src/mass_validator/validator/row_models.py:243-247 | every non-blank row after the first is kept under its own position |
| `Base.NumberedDropsBlank` | src/mass_validator/validator/row_models.py:41-46 | a blank row takes no index, and its position is not given to another row |
| `Etab.EtabErrorsUnfold` | src/mass_validator/validator/row_models.py:165-202 | the errors of one validation are the reports of the siret, company-type, phone and e-mail checks, in that order |
| `Etab.EtabErrorsShape` | src/mass_validator/validator/row_models.py:167-201 | at most four errors, each of the `field` kind, of this row, on the establishments tab, against a checked field |
| `Etab.EtabErrorsOnField` | src/mass_validator/validator/row_models.py:167-202 | what is recorded against the field of check i is that check's error exactly when that check fails |
| `Etab.EtabErrorsPerField` | src/mass_validator/validator/row_models.py:167-202 | each of the four fields carries exactly its own check's report |
| `Etab.EtabErrorsInCheckOrder` | src/mass_validator/validator/row_models.py:166-202 | the errors come grouped by field in the order siret, companyTypes, contactPhone, contactEmail |
| `Etab.EtabErrorsEmptyIff` | src/mass_validator/validator/row_models.py:165-203 | no error exactly when all four checks pass |
| `Etab.EmptyContactNeverReported` | src/mass_validator/validator/row_models.py:149-163 | an empty contact e-mail or phone is never reported |
| `Etab.WellFormedEstablishment` | src/mass_validator/validator/row_models.py:165-203 | a 14-digit siret, a recognised company type and a spaced phone number give no error |
| `Etab.EtabRow.constructor` | src/mass_validator/validator/row_models.py:113-114 | a new row holds its index and values, no error, and is unvalidated |
| `Etab.EtabRow.Validate` | src/mass_validator/validator/row_models.py:165-203 | the row is validated whatever the outcome, and the old errors are kept as a prefix of the new ones, followed by this validation's errors |
| `Etab.ValidateTwice` | src/mass_validator/validator/row_models.py:168-203 | validating a row twice records its errors twice |
| `Etab.EtabRow.AsList` | src/mass_validator/validator/row_models.py:120-131 | refused before validation, like `is_valid`; otherwise nine cells, the last the error marker exactly when the row has errors |
| `Etab.AsListRecovers` | src/mass_validator/validator/row_models.py:121-130 | the index, the six plain values, the validity and (for a non-empty list of comma-free tags) the company types can be read back from the list |
| `Etab.FromDict` | src/mass_validator/validator/row_models.py:42-46 | no row exactly for an all-empty record, else a fresh unvalidated row with that index and those values |
| `Etab.ValidateEach` | src/mass_validator/validator/row_models.py:225-228 | every row is validated and gets its errors appended, with no early exit; the result is true exactly when every row is valid |
| `Etab.EtabRows.constructor` | src/mass_validator/validator/row_models.py:206-212 | the attrs initialiser that `from_worksheet` calls with `rows=` alone: the given rows, no header, and `is_valid` false |
| `Etab.EtabRows.Append` | src/mass_validator/validator/row_models.py:214-218 | the first row appended becomes the header; later ones are added at the end of the rows |
| `Etab.EtabRows.Sirets` | src/mass_validator/validator/row_models.py:220-221 | the sirets are exactly the non-empty sirets of the rows |
| `Etab.EtabRows.Validate` | src/mass_validator/validator/row_models.py:223-228 | rows and header are unchanged, every row is validated with its errors appended, and `is_valid` holds exactly when every row's `is_valid` does |
| `Etab.GetErrorsEmptyIff` | src/mass_validator/validator/row_models.py:59-61 | `get_errors()` is empty exactly when no row has an error |
| `Etab.AllValidIffNoErrors` | src/mass_validator/validator/row_models.py:32-36 | once every row is validated, all of them are valid exactly when `get_errors()` is empty |
| `Etab.GetErrorsMembers` | src/mass_validator/validator/row_models.py:60-61 | an error is in `get_errors()` exactly when it is in some row's errors |
| `Etab.FromWorksheet` | src/mass_validator/validator/row_models.py:237-249 | the rows are the numbered non-blank source rows after the first, in order, fresh, distinct and unvalidated |
| `Role.RoleErrorsUnfold` | src/mass_validator/validator/row_models.py:301-338 | the errors of one validation are the reports of the role, siret-length, siret-membership and e-mail checks, in that order |
| `Role.RoleErrorsShape` | src/mass_validator/validator/row_models.py:302-337 | at most four errors, of this row, on the roles tab, of a recognised kind, against role, siret or e-mail; the missing-siret kind only for the membership error |
| `Role.RoleErrorsOnRoleAndEmail` | src/mass_validator/validator/row_models.py:330-338 | role and e-mail each carry exactly their own check's report |
| `Role.RoleErrorsOnSiret` | src/mass_validator/validator/row_models.py:311-329 | the siret carries the length report followed by the membership report |
| `Role.RoleErrorsEmptyIff` | src/mass_validator/validator/row_models.py:301-339 | no error exactly when all four checks pass |
| `Role.RoleErrorsInCheckOrder` | src/mass_validator/validator/row_models.py:302-338 | the errors come grouped by field in the order role, siret, email |
| `Role.MissingSiretIffUnknown` | src/mass_validator/validator/row_models.py:320-329 | the missing-siret error is recorded exactly when the siret is not among the establishments' |
| `Role.EmptyEmailReported` | src/mass_validator/validator/row_models.py:289-291 | an empty e-mail gives exactly one e-mail error |
| `Role.UnknownSiretReportedOnce` | src/mass_validator/validator/row_models.py:311-328 | a siret of the right length that no establishment has gives exactly one siret error, of the missing kind, with the missing-siret message |
| `Role.EmptySiretReportedTwice` | src/mass_validator/validator/row_models.py:312-329 | an empty siret gives a length error and then a missing-siret error |
| `Role.UnknownRoleReported` | src/mass_validator/validator/row_models.py:302-310 | the role OWNER gives exactly one role error |
| `Role.RoleRow.constructor` | src/mass_validator/validator/row_models.py:253-259 | a new row holds its index and values, no error, and is unvalidated |
| `Role.RoleRow.Validate` | src/mass_validator/validator/row_models.py:301-339 | the row is validated whatever the outcome, and the old errors are kept as a prefix of the new ones, followed by this validation's errors |
| `Role.RoleRow.AsList` | src/mass_validator/validator/row_models.py:265-272 | refused before validation; otherwise five cells, the last the error marker exactly when the row has errors |
| `Role.AsListRecovers` | src/mass_validator/validator/row_models.py:266-271 | the index, the three values and the validity can be read back from the list |
| `Role.FromDict` | src/mass_validator/validator/row_models.py:43-46 | no row exactly for an all-empty record, else a fresh unvalidated row with that index and those values |
| `Role.ValidateEach` | src/mass_validator/validator/row_models.py:363-366 | every row is validated against the same sirets and gets its errors appended, with no early exit; the result is true exactly when every row is valid |
| `Role.RoleRows.constructor` | src/mass_validator/validator/row_models.py:342-348 | the attrs initialiser that `from_worksheet` calls with `rows=` alone: the given rows, no header, and `is_valid` false |
| `Role.RoleRows.Append` | src/mass_validator/validator/row_models.py:53-57 | the first row appended becomes the header; later ones are added at the end of the rows |
| `Role.RoleRows.Sirets` | src/mass_validator/validator/row_models.py:350-351 | the sirets are exactly the non-empty sirets of the rows |
| `Role.RoleRows.Validate` | src/mass_validator/validator/row_models.py:360-366 | rows and header are unchanged, every row is validated with its errors appended, and `is_valid` holds exactly when every row's `is_valid` does |
| `Role.GetErrorsEmptyIff` | src/mass_validator/validator/row_models.py:59-60 | `get_errors()` is empty exactly when no row has an error |
| `Role.AllValidIffNoErrors` | src/mass_validator/validator/row_models.py:33-36 | once every row is validated, all of them are valid exactly when `get_errors()` is empty |
| `Role.GetErrorsMembers` | src/mass_validator/validator/row_models.py:59-61 | an error is in `get_errors()` exactly when it is in some row's errors |
| `Role.FromWorksheet` | src/mass_validator/validator/row_models.py:368-380 | the rows are the numbered non-blank source rows after the first, in order, fresh, distinct and unvalidated |
| `Role.KnownSiretHasNoSiretError` | src/mass_validator/validator/row_models.py:286-287 | across the tabs: when the establishments were validated once without error, a role whose siret is one of theirs has no siret error |

## Left out

- Etab.EtabRows.Validate: requires the rows to be distinct objects. The source does not: a row object appended twice would be validated twice. Aliasing between rows is not modelled.
- Role.RoleRows.Validate: requires distinct rows, for the same reason.
- Etab.ValidateEach: requires distinct rows, for the same reason.
- Role.ValidateEach: requires distinct rows, for the same reason.
- Phone.MatchesIffRendered: `\d` is taken as the ASCII digits 0-9. Python's `re` on `str` also accepts other Unicode decimal digits.
- Fields.SiretIsLengthOnly: the siret is a string. The source measures `len(str(siret))`, so a numeric cell is measured by its decimal spelling, which is not modelled.
- The collection's `is_valid` update: the source sets it to true and clears it inside the loop when a row is invalid. The model assigns the loop's result once, after the loop. The final state is the same, but the intermediate states are not modelled.
- `get_errors` returns a lazy `itertools.chain`. The model returns the sequence it would produce.
- `__iter__` is the `rows` sequence itself.
- Reading the worksheet is not modelled: `iter_rows`, the `MIN_*`/`MAX_*` bounds and `dict_read`. A worksheet is the sequence of records that `dict_read` yields from the first iterated row onwards. Blankness is the empty string, or the empty tag list; other falsy cell values, such as `None` or `0`, are not modelled.
- `from_worksheet` builds the collection from `rows=` alone, so its `header` stays unset (null). That is what the model does.
- Django's `EmailValidator` is a foreign library. It is the `emailAccepted` predicate of `Settings`. `COMPANY_TYPES`, `ERROR_STR` and `VALID_STR` are settings too, since they live in a constants module that is not part of this model.
- `RowError._check_error_type`: it has no effect in the source, so no rejecting constructor is modelled.
- `as_csv`, `as_str`, `quote` and `format_csv_row`: text rendering through helpers that are not part of this model.
- The `siret_errors` and `verbose_errors` fields, which nothing in this file fills.
- `SiretError` (a constant message) and `search_api.py` (a remote search client) are not part of this model.
