/** The row validator and normaliser of the upload handler: one parsed CSV
    row in, one normalised record (or a rejection) out. */
module Rows {
  import opened Options
  import opened Text
  import JsInt

  /** A row as the CSV parser delivers it, columns in header order. A
      column is `None` when the line has fewer fields than the header. */
  datatype RawRow = RawRow(
    id: Option<string>,
    firstname: Option<string>,
    lastname: Option<string>,
    email: Option<string>,
    email2: Option<string>,
    profession: Option<string>)

  /** The document handed to the store. `id` is `None` where `parseInt`
      yields `NaN`. */
  datatype Record = Record(
    id: Option<int>,
    firstname: string,
    lastname: string,
    email: string,
    email2: string,
    profession: string)

  /** JavaScript truthiness of a column: present and not the empty string. */
  predicate Truthy(v: Option<string>) {
    v.Some? && v.value != ""
  }

  /** `v ? v.trim() : ""` */
  function TrimOrEmpty(v: Option<string>): string {
    if Truthy(v) then Trim(v.value) else ""
  }

  /** `v ? v.trim().toLowerCase() : ""` */
  function LowerOrEmpty(v: Option<string>): string {
    if Truthy(v) then ToLower(Trim(v.value)) else ""
  }

  /** The required columns are checked BEFORE trimming: a column holding
      only whitespace passes the check. */
  predicate HasRequired(row: RawRow) {
    Truthy(row.id) && Truthy(row.firstname) && Truthy(row.email)
  }

  function Validate(row: RawRow): (r: Option<Record>)
    ensures r.None? <==> !HasRequired(row)
  {
    if !HasRequired(row) then None
    else Some(Record(
      JsInt.ParseInt(row.id.value),
      Trim(row.firstname.value),
      TrimOrEmpty(row.lastname),
      ToLower(Trim(row.email.value)),
      LowerOrEmpty(row.email2),
      TrimOrEmpty(row.profession)))
  }

  /** An accepted row's record: the id is whatever `parseInt` reads (NaN
      included), the required text columns are trimmed, the emails are
      trimmed and lower-cased, and an absent optional column becomes "". */
  lemma AcceptedRecord(row: RawRow)
    requires HasRequired(row)
    ensures Validate(row).Some?
    ensures var rec := Validate(row).value;
      && rec.id == JsInt.ParseInt(row.id.value)
      && rec.firstname == Trim(row.firstname.value)
      && rec.email == ToLower(Trim(row.email.value))
      && rec.lastname == (if row.lastname.Some? then Trim(row.lastname.value) else "")
      && rec.email2 == (if row.email2.Some? then ToLower(Trim(row.email2.value)) else "")
      && rec.profession == (if row.profession.Some? then Trim(row.profession.value) else "")
  {
    assert Trim("") == "";
    assert ToLower("") == "";
  }

  predicate IsNormalisedEmail(s: string) {
    IsTrimmed(s) && IsLower(s)
  }

  /** Every text field of an accepted record is free of surrounding
      whitespace, and both email fields are also free of upper-case letters. */
  lemma AcceptedIsNormalised(row: RawRow)
    requires Validate(row).Some?
    ensures var rec := Validate(row).value;
      && IsTrimmed(rec.firstname) && IsTrimmed(rec.lastname) && IsTrimmed(rec.profession)
      && IsNormalisedEmail(rec.email) && IsNormalisedEmail(rec.email2)
  {
    LowerTrimmedIsNormal(row.email.value);
    if Truthy(row.email2) {
      LowerTrimmedIsNormal(row.email2.value);
    }
  }

  /** The row a stored record would give if it were written back out as CSV. */
  function Export(rec: Record): RawRow
    requires rec.id.Some?
  {
    RawRow(Some(JsInt.Show(rec.id.value)), Some(rec.firstname), Some(rec.lastname),
           Some(rec.email), Some(rec.email2), Some(rec.profession))
  }

  /** Normalisation is idempotent: re-ingesting a record yields the same
      record, provided its id is a number and its required text fields did
      not trim down to "". */
  lemma RevalidateStable(row: RawRow)
    requires Validate(row).Some?
    requires var rec := Validate(row).value;
             rec.id.Some? && rec.firstname != "" && rec.email != ""
    ensures Validate(Export(Validate(row).value)) == Validate(row)
  {
    var rec := Validate(row).value;
    var again := Export(rec);
    assert HasRequired(again);
    JsInt.ParseShow(rec.id.value, "");
    assert JsInt.Show(rec.id.value) + "" == JsInt.Show(rec.id.value);
    AcceptedIsNormalised(row);
    TrimOfTrimmed(rec.firstname);
    TrimOfTrimmed(rec.lastname);
    TrimOfTrimmed(rec.profession);
    TrimOfTrimmed(rec.email);
    TrimOfTrimmed(rec.email2);
    LowerOfLower(rec.email);
    LowerOfLower(rec.email2);
  }

  /** The check-before-trim quirk: a whitespace-only first name passes the
      required-field check and is stored as "", so the record it yields
      would itself be rejected if re-ingested. */
  lemma BlankFirstnameAccepted(row: RawRow)
    requires Truthy(row.id) && Truthy(row.email)
    requires row.firstname.Some? && row.firstname.value != ""
    requires forall i :: 0 <= i < |row.firstname.value| ==> IsSpace(row.firstname.value[i])
    requires JsInt.ParseInt(row.id.value).Some?
    ensures Validate(row).Some? && Validate(row).value.firstname == ""
    ensures Validate(Export(Validate(row).value)) == None
  {
    assert LeadingSpaces(row.firstname.value) == |row.firstname.value|;
  }

  /** The same quirk for the email: a whitespace-only email passes the
      check and is stored as "". */
  lemma BlankEmailAccepted(row: RawRow)
    requires Truthy(row.id) && Truthy(row.firstname)
    requires row.email.Some? && row.email.value != ""
    requires forall i :: 0 <= i < |row.email.value| ==> IsSpace(row.email.value[i])
    ensures Validate(row).Some? && Validate(row).value.email == ""
  {
    assert LeadingSpaces(row.email.value) == |row.email.value|;
  }
}
