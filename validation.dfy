/**
 * The title check shared by the create (POST /videos) and replace
 * (PUT /videos/:id) handlers. It stops at the first failing rule, so a
 * rejected request carries exactly one error.
 */
module Validation {
  import opened Wrappers
  import opened JsText

  /** One entry of the `errorsMessages` array of a 400 response. */
  datatype FieldError = FieldError(message: string, field: string)

  const TitleRequired: FieldError := FieldError("Title is required", "title")
  const TitleTooLong: FieldError := FieldError("Title should be less then 40 symbols", "title")

  /** Longest title, in JavaScript `length` units, that is accepted. */
  const MaxTitleLength: nat := 40

  /** A title that is absent, empty or whitespace only. */
  predicate IsBlankTitle(title: Option<string>) {
    title.None? || AllWhitespace(title.value)
  }

  /** The first rule `title` breaks, or None when it is acceptable. `title` is
      None when the request body has no `title`; a missing title, the empty
      string (falsy) and a title that trims to "" all fail the first rule. */
  function ValidateTitle(title: Option<string>): (r: Option<FieldError>)
    ensures r == Some(TitleRequired) <==> IsBlankTitle(title)
    ensures r == Some(TitleTooLong) <==>
      !IsBlankTitle(title) && Utf16Length(title.value) > MaxTitleLength
    ensures r == None <==>
      !IsBlankTitle(title) && Utf16Length(title.value) <= MaxTitleLength
    ensures r.None? || r == Some(TitleRequired) || r == Some(TitleTooLong)
  {
    if title.None? || title.value == "" || Trim(title.value) == "" then
      Some(TitleRequired)
    else if Utf16Length(title.value) > MaxTitleLength then
      Some(TitleTooLong)
    else
      None
  }

  /** A title that may be stored. */
  predicate IsValidTitle(title: string) {
    ValidateTitle(Some(title)).None?
  }

  /** The boundary is inclusive: a non-blank title of exactly 40 characters of
      the Basic Multilingual Plane is accepted, one of 41 is rejected as too long. */
  lemma TitleLengthBoundary(title: string)
    requires !AllWhitespace(title) && InBmp(title)
    ensures |title| == 40 ==> ValidateTitle(Some(title)) == None
    ensures |title| == 41 ==> ValidateTitle(Some(title)) == Some(TitleTooLong)
  {
    Utf16LengthIsSizeIffBmp(title);
  }
}
