/**
 * Validation of the two forms: the create form's required-field check
 * (app.js `bindForm`) and the edit row's `collectRowPatch`.
 */
module Forms {
  import opened Wrappers
  import opened Text
  import opened Investments

  /**
   * Field values as read from a form: text fields as strings (a missing input
   * reads as ""), amounts as the result of `Number(...)`, `None` for NaN.
   */
  datatype Fields = Fields(
    name: string,
    category: string,
    amountInvested: Option<real>,
    currentValue: Option<real>,
    date: string,
    notes: string)

  /** A request body: the same fields with both amounts coerced to numbers. */
  datatype Draft = Draft(
    name: string,
    category: string,
    amountInvested: real,
    currentValue: real,
    date: string,
    notes: string)

  const CreateRequiredMessage: string := "Please fill Name, Category and Date"
  const RowRequiredMessage: string := "Name, Category and Date are required"

  /** The create form's check: name, category and date must be non-empty. The name is not trimmed. */
  predicate CreateFieldsFilled(d: Fields)
  {
    d.name != "" && d.category != "" && d.date != ""
  }

  /** `addInvestment`'s payload: the form's fields with both amounts passed through `safeNumber`. */
  function CreatePayload(d: Fields): (p: Draft)
    ensures p.name == d.name && p.category == d.category && p.date == d.date && p.notes == d.notes
    ensures p.amountInvested == SafeNumber(d.amountInvested) && p.currentValue == SafeNumber(d.currentValue)
  {
    Draft(d.name, d.category, SafeNumber(d.amountInvested), SafeNumber(d.currentValue), d.date, d.notes)
  }

  /**
   * `collectRowPatch`: throws when the trimmed name, the category or the date
   * is empty; otherwise returns the fields with the name trimmed and the
   * amounts coerced.
   */
  function CollectRowPatch(d: Fields): (r: Result<Draft, string>)
    ensures r.Failure? <==> Trim(d.name) == "" || d.category == "" || d.date == ""
    ensures r.Failure? ==> r.error == RowRequiredMessage
    ensures r.Success? ==>
      && r.value.name == Trim(d.name) && r.value.category == d.category
      && r.value.date == d.date && r.value.notes == d.notes
      && r.value.amountInvested == SafeNumber(d.amountInvested)
      && r.value.currentValue == SafeNumber(d.currentValue)
  {
    var name := Trim(d.name);
    var amountInvested := SafeNumber(d.amountInvested);
    var currentValue := SafeNumber(d.currentValue);
    if name == "" || d.category == "" || d.date == "" then Failure(RowRequiredMessage)
    else Success(Draft(name, d.category, amountInvested, currentValue, d.date, d.notes))
  }

  /** A patch that passes validation has a non-empty name with no white space at either end. */
  lemma RowPatchNameTrimmed(d: Fields)
    requires CollectRowPatch(d).Success?
    ensures var n := CollectRowPatch(d).value.name;
      n != "" && !IsSpace(n[0]) && !IsSpace(n[|n| - 1]) && Trim(n) == n
  {
    TrimIdempotent(d.name);
  }

  /**
   * The two checks disagree on white space: a name made only of white space
   * passes the create form but is rejected when a row is saved.
   */
  lemma WhiteSpaceNameAsymmetry(d: Fields)
    requires d.name != "" && AllSpace(d.name)
    requires d.category != "" && d.date != ""
    ensures CreateFieldsFilled(d)
    ensures CollectRowPatch(d).Failure?
  {
    TrimIsSlice(d.name);
  }

  /** Whatever passes the row check also passes the create check. */
  lemma RowCheckStricter(d: Fields)
    requires CollectRowPatch(d).Success?
    ensures CreateFieldsFilled(d)
  {
  }
}
