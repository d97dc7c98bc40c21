/**
 * The field predicates the two row kinds apply, and the settings they read.
 * The company-type list, Django's `EmailValidator` and the two annotation
 * markers live in modules this model does not include, so they arrive as a
 * `Settings` value.
 */
module Fields {
  import Phone

  /**
   * `companyTypes`: the recognised company-type codes (`COMPANY_TYPES`);
   * `emailAccepted`: whether Django's `EmailValidator` accepts a string
   * (it raises `ValidationError` otherwise);
   * `errorStr`, `validStr`: the markers `ERROR_STR` and `VALID_STR`.
   */
  datatype Settings = Settings(
    companyTypes: set<string>,
    emailAccepted: string -> bool,
    errorStr: string,
    validStr: string)

  const SIRET_LENGTH: nat := 14
  const ROLES: seq<string> := ["MEMBER", "ADMIN"]

  /** `BaseRow.siret_is_valid`: the length alone is checked. */
  predicate SiretIsValid(siret: string) {
    |siret| == SIRET_LENGTH
  }

  /** `EtabRow.company_types_are_valid`: every tag is a recognised code. */
  predicate CompanyTypesAreValid(tags: seq<string>, s: Settings) {
    forall i :: 0 <= i < |tags| ==> tags[i] in s.companyTypes
  }

  /** `EtabRow.phone_number_is_valid`: optional, else it must match the pattern. */
  predicate PhoneNumberIsValid(phone: string) {
    phone == "" || Phone.Matches(phone)
  }

  /** `EtabRow.email_is_valid`: the contact e-mail is optional. */
  predicate ContactEmailIsValid(email: string, s: Settings) {
    email == "" || s.emailAccepted(email)
  }

  /** `RoleRow.role_is_valid`. */
  predicate RoleIsValid(role: string) {
    role in ROLES
  }

  /** `RoleRow.siret_belongs_to`. */
  predicate SiretBelongsTo(siret: string, etabSirets: set<string>) {
    siret in etabSirets
  }

  /** `RoleRow.email_is_valid`: the role holder's e-mail is required. */
  predicate RoleEmailIsValid(email: string, s: Settings) {
    email != "" && s.emailAccepted(email)
  }

  /** The siret check is a length check and nothing else: digits are not required. */
  lemma SiretIsLengthOnly(siret: string)
    ensures SiretIsValid(siret) <==> |siret| == 14
    ensures SiretIsValid("ABCDEFGHIJKLMN") && !SiretIsValid("1234567890123")
  {
  }

  /** The empty tag list is valid whatever the recognised codes; one unknown tag spoils the list. */
  lemma CompanyTypesEmptyOrUnknown(tags: seq<string>, s: Settings, k: nat)
    requires k < |tags| && tags[k] !in s.companyTypes
    ensures CompanyTypesAreValid([], s)
    ensures !CompanyTypesAreValid(tags, s)
  {
  }

  /** The optional fields accept the empty string; the role e-mail does not. */
  lemma EmptyStrings(s: Settings)
    ensures PhoneNumberIsValid("") && ContactEmailIsValid("", s)
    ensures !RoleEmailIsValid("", s)
  {
  }

  /** The two checks agree on every non-empty e-mail. */
  lemma EmailChecksAgreeWhenNonEmpty(email: string, s: Settings)
    requires email != ""
    ensures ContactEmailIsValid(email, s) <==> RoleEmailIsValid(email, s)
  {
  }

  /** Phone numbers written in the documented styles pass. */
  lemma PhonePlainAccepted()
    ensures PhoneNumberIsValid("0612345678")
  {
  }

  lemma PhoneSpacedAccepted()
    ensures PhoneNumberIsValid("06 12 34 56 78")
  {
  }

  lemma PhoneDashedAccepted()
    ensures PhoneNumberIsValid("06-12-34-56-78")
  {
  }

  /** A number not starting with 0, and one digit short, are refused. */
  lemma PhoneExamplesRefused()
    ensures !PhoneNumberIsValid("1612345678")
    ensures !PhoneNumberIsValid("061234567")
  {
    if Phone.Matches("061234567") {
      Phone.MatchesLength("061234567");
    }
  }

  /** Only the two documented roles pass, compared exactly. */
  lemma RoleExamples()
    ensures RoleIsValid("MEMBER") && RoleIsValid("ADMIN")
    ensures !RoleIsValid("OWNER") && !RoleIsValid("admin") && !RoleIsValid("")
  {
  }
}
