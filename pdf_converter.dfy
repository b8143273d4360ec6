/**
 * The converter's own steps up to the rendering engine: `processContent`,
 * the lenient `validateSettings`, and the part of `generatePDF` that turns
 * content and settings into the print-ready HTML handed to the renderer.
 * The markdown renderer is a parameter; the rendering engine is not part of
 * this model.
 */
module PdfConverter {
  import opened Wrappers
  import opened Text
  import opened JsValues
  import opened PrintSettings
  import opened ErrorHandler
  import Validator
  import opened PdfStyles
  import opened TableOfContents

  /** `processContent(content, inputType)`: falsy content becomes the empty
      string, markdown goes through `marked`, anything else is returned as is. */
  function ProcessContent(content: Value, inputType: Value, marked: Value -> string): (r: Value)
    ensures r.Str? || r == content
    ensures content.Str? ==> r.Str?
  {
    if !Truthy(content) then Str("")
    else if inputType == Str("markdown") then Str(marked(content))
    else content
  }

  /** Content that is not markdown passes through unchanged, and processing
      it again changes nothing. */
  lemma ProcessContentPassThrough(content: Value, inputType: Value, marked: Value -> string)
    requires inputType != Str("markdown")
    ensures Truthy(content) ==> ProcessContent(content, inputType, marked) == content
    ensures !Truthy(content) ==> ProcessContent(content, inputType, marked) == Str("")
    ensures ProcessContent(ProcessContent(content, inputType, marked), inputType, marked)
      == ProcessContent(content, inputType, marked)
  {
  }

  /** `settings[field] < 0` for a margin: the value converts to a negative number. */
  predicate Negative(v: Value) {
    ToNumber(v).Some? && ToNumber(v).value < 0
  }

  /** What the converter's own check accepts: known page size and orientation
      when given, and no margin below zero; there is no upper bound. */
  predicate LenientOk(st: Settings) {
    && Validator.PageSizeOk(st.pageSize) && Validator.OrientationOk(st.orientation)
    && forall i :: 0 <= i < 4 ==> !Negative(MarginFields(st)[i].value)
  }

  function CheckNotNegative(f: Field): (r: Outcome<AppError>)
    ensures r.Pass? <==> !Negative(f.value)
  {
    if f.value != Undefined && Negative(f.value) then
      Fail(PlainError("Invalid margin: " + f.name + " cannot be negative"))
    else Pass
  }

  /** `validateSettings(settings)`: the first failing check throws a plain
      error (no status code), in the order page size, orientation, margins. */
  function ValidateSettings(st: Settings): (r: Outcome<AppError>)
    ensures r.Pass? <==> LenientOk(st)
    ensures r.Fail? ==> r.error.statusCode.None? && r.error.errType.None?
    ensures !Validator.PageSizeOk(st.pageSize) ==>
      r == Fail(PlainError("Invalid page size: " + ToText(st.pageSize)))
    ensures Validator.PageSizeOk(st.pageSize) && !Validator.OrientationOk(st.orientation) ==>
      r == Fail(PlainError("Invalid orientation: " + ToText(st.orientation)))
    ensures LenientOk(st) || !Validator.PageSizeOk(st.pageSize) || !Validator.OrientationOk(st.orientation) ||
      exists i :: 0 <= i < 4 && Negative(MarginFields(st)[i].value)
        && (forall j :: 0 <= j < i ==> !Negative(MarginFields(st)[j].value))
        && r == Fail(PlainError("Invalid margin: " + MarginFields(st)[i].name + " cannot be negative"))
  {
    if Truthy(st.pageSize) && !OneOf(st.pageSize, ValidPageSizes) then
      Fail(PlainError("Invalid page size: " + ToText(st.pageSize)))
    else if Truthy(st.orientation) && !OneOf(st.orientation, ValidOrientations) then
      Fail(PlainError("Invalid orientation: " + ToText(st.orientation)))
    else
      Validator.FirstFailure(MarginFields(st), CheckNotNegative)
  }

  /** Settings the request validator accepts also pass the converter's check. */
  lemma StrictImpliesLenient(st: Settings)
    requires Validator.ValidatePdfSettings(Validator.Object(st)).Pass?
    ensures ValidateSettings(st).Pass?
  {
    forall i | 0 <= i < 4 ensures !Negative(MarginFields(st)[i].value) {
      assert Validator.MarginOk(MarginFields(st)[i].value);
    }
  }

  /** The converter alone lets through a margin the request validator rejects. */
  lemma LenientAcceptsWideMargin()
    ensures var st := NoSettings.(marginTop := Num(150));
      ValidateSettings(st).Pass? && Validator.ValidatePdfSettings(Validator.Object(st)).Fail?
  {
    var st := NoSettings.(marginTop := Num(150));
    assert MarginFields(st)[0].value == Num(150);
    assert !Validator.MarginOk(st.marginTop);
  }

  /** The HTML `generatePDF` hands to the renderer, or the error it throws
      first: empty content, then the settings check. A truthy content that is
      not a string fails on `content.trim`. */
  function PrintHtml(content: Value, inputType: Value, st: Settings, marked: Value -> string): Result<string, AppError> {
    if !Truthy(content) then Err(PlainError("Content cannot be empty"))
    else if !content.Str? then Err(PlainError("content.trim is not a function"))
    else if Trim(content.s) == "" then Err(PlainError("Content cannot be empty"))
    else if ValidateSettings(st).Fail? then Err(ValidateSettings(st).error)
    else
      var processed := ProcessContent(content, inputType, marked).s;
      var withToc := if Truthy(st.enableTableOfContents) then GeneratedToc(processed) else processed;
      Ok(ApplyPdfStyles(withToc, st))
  }

  /** The prefix of `generatePDF` before the rendering engine. */
  method GeneratePrintHtml(content: Value, inputType: Value, st: Settings, marked: Value -> string)
    returns (r: Result<string, AppError>)
    ensures r == PrintHtml(content, inputType, st, marked)
    ensures r.Err? <==> !content.Str? || AllWhitespace(content.s) || !LenientOk(st)
    ensures r.Ok? ==> Contains(r.value, "</head>")
  {
    if !Truthy(content) || !content.Str? || Trim(content.s) == "" {
      TrimEmpty(content);
      if Truthy(content) && !content.Str? {
        return Err(PlainError("content.trim is not a function"));
      }
      return Err(PlainError("Content cannot be empty"));
    }
    TrimEmpty(content);
    match ValidateSettings(st)
    case Fail(e) =>
      return Err(e);
    case Pass =>
    var processed := ProcessContent(content, inputType, marked).s;
    if Truthy(st.enableTableOfContents) {
      processed := GenerateTableOfContents(processed);
    }
    InjectedHasHeadClose(processed, StyleBlock(st));
    r := Ok(ApplyPdfStyles(processed, st));
  }

  /** The empty-content guard: a falsy value, or a string whose trimmed text
      is empty, is exactly a value that is not a string or is all whitespace. */
  lemma TrimEmpty(content: Value)
    ensures content.Str? ==> (Trim(content.s) == "" <==> AllWhitespace(content.s))
    ensures content.Str? && !Truthy(content) ==> AllWhitespace(content.s)
  {
    if content.Str? {
      TrimEmptyIffWhitespace(content.s);
    }
  }
}
