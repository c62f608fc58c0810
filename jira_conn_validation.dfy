/** The WPF validation rule and value converters of the connection dialog.
    `Uri.IsWellFormedUriString(_, UriKind.Absolute)` and the whitespace table
    of `char.IsWhiteSpace` are parameters: the model does not interpret them. */
module ConnValidation {
  import opened Common

  /** The result of a validation rule: whether the value is valid and the
      tooltip text shown when it is not. */
  datatype ValidationResult = ValidationResult(isValid: bool, errorContent: Option<string>)

  /** `string.IsNullOrWhiteSpace`, over the given whitespace table. */
  predicate NullOrWhiteSpace(value: Option<string>, isWhiteSpace: char -> bool)
  {
    value.None? || forall i :: 0 <= i < |value.value| ==> isWhiteSpace(value.value[i])
  }

  /** `UriValidation.Validate`: blank input is accepted without consulting the
      URI check; other input must be a well-formed absolute URI, and a
      rejection says so in its message. */
  function Validate(value: Option<string>, isWhiteSpace: char -> bool, wellFormed: string -> bool): (r: ValidationResult)
    ensures value.None? || value == Some("") ==> r == ValidationResult(true, None)
    ensures r.isValid <==> NullOrWhiteSpace(value, isWhiteSpace) || wellFormed(value.value)
    ensures r.isValid <==> r.errorContent.None?
    ensures !r.isValid ==> r.errorContent == Some(value.value + " is not a valid URL")
  {
    if NullOrWhiteSpace(value, isWhiteSpace) || wellFormed(value.value) then ValidationResult(true, None)
    else ValidationResult(false, Some(value.value + " is not a valid URL"))
  }

  /** Blank input is valid whatever the URI check says. */
  lemma BlankIgnoresUriCheck(value: Option<string>, isWhiteSpace: char -> bool, wf1: string -> bool, wf2: string -> bool)
    requires NullOrWhiteSpace(value, isWhiteSpace)
    ensures Validate(value, isWhiteSpace, wf1) == Validate(value, isWhiteSpace, wf2) == ValidationResult(true, None)
  {
  }

  /** `UriStringToBoolConverter.Convert`: the URI check itself; the check
      rejects null. */
  function UriStringToBool(value: Option<string>, wellFormed: string -> bool): (r: bool)
    ensures r <==> value.Some? && wellFormed(value.value)
  {
    value.Some? && wellFormed(value.value)
  }

  /** A non-blank value that enables the credentials is also accepted by the
      validation rule, and a value the rule rejects keeps them disabled. */
  lemma ConverterAgreesWithRule(value: Option<string>, isWhiteSpace: char -> bool, wellFormed: string -> bool)
    ensures UriStringToBool(value, wellFormed) ==> Validate(value, isWhiteSpace, wellFormed).isValid
    ensures !Validate(value, isWhiteSpace, wellFormed).isValid ==> !UriStringToBool(value, wellFormed)
  {
  }

  /** `SelectedProjectToBoolConverter.Convert`: with parameter "True" whether
      nothing is selected, with any other parameter whether something is. */
  function SelectedProjectToBool<T>(value: Option<T>, checkSelectedIsEmpty: Option<string>): (r: bool)
    ensures checkSelectedIsEmpty == Some("True") ==> (r <==> value.None?)
    ensures checkSelectedIsEmpty != Some("True") ==> (r <==> value.Some?)
  {
    if checkSelectedIsEmpty == Some("True") then value.None? else value.Some?
  }

  /** The "True" and "False" modes drive the Get Projects button and the Done
      button: exactly one of them is the default at any time. */
  lemma SelectedProjectModesComplement<T>(value: Option<T>)
    ensures SelectedProjectToBool(value, Some("True")) != SelectedProjectToBool(value, Some("False"))
  {
  }

  /** `ConvertBack` of either converter: not implemented, it always throws. */
  function ConvertBack<T>(value: T): (r: Reply<T>)
    ensures r.Threw?
  {
    Threw
  }
}
