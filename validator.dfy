/**
 * Request validation: the content, the input type, the print settings and
 * uploaded files are each checked in a fixed order and the first violation
 * is reported; every failure is a 400 error built by the error handler.
 * Also the rewrite that makes a user-supplied name safe as a file name.
 */
module Validator {
  import opened Wrappers
  import opened Text
  import opened JsValues
  import opened ErrorHandler
  import opened PrintSettings

  const MaxContentLength: nat := 10 * 1024 * 1024
  const MaxFileSize: nat := 10 * 1024 * 1024
  const MaxTextLength: nat := 500
  const MaxFilenameLength: nat := 100

  const AllowedExtensions: seq<string> := [".html", ".htm", ".md", ".markdown", ".txt"]
  const AllowedMimeTypes: seq<string> := ["text/html", "text/markdown", "text/plain", "application/octet-stream"]

  /** The message for an extension that is not allowed; it lists the extensions. */
  const FileTypeMessage: string := "Invalid file type. Allowed types: .html, .htm, .md, .markdown, .txt"

  // ---------------------------------------------------------------- content

  /** `validateContent`: a non-empty string that is not only white space and
      has at most 10 MiB characters. */
  function ValidateContent(content: Value): (r: Outcome<AppError>)
    ensures r.Pass? <==> content.Str? && !AllWhitespace(content.s) && |content.s| <= MaxContentLength
    ensures r.Fail? ==> r.error.statusCode == Some(400) && r.error.errType == Some("CONTENT_ERROR")
    ensures !content.Str? || content.s == "" ==>
      r == Fail(HandleContentError("Content must be a non-empty string"))
    ensures content.Str? && content.s != "" && AllWhitespace(content.s) ==>
      r == Fail(HandleContentError("Content cannot be empty"))
  {
    if !Truthy(content) || TypeOf(content) != "string" then
      Fail(HandleContentError("Content must be a non-empty string"))
    else if AllWhitespace(content.s) then
      Fail(HandleContentError("Content cannot be empty"))
    else if |content.s| > MaxContentLength then
      Fail(HandleContentError("Content size exceeds 10MB limit"))
    else
      Pass
  }

  // ------------------------------------------------------------- input type

  /** `validateInputType`: exactly the strings `html` and `markdown`. */
  function ValidateInputType(inputType: Value): (r: Outcome<AppError>)
    ensures r.Pass? <==> inputType == Str("html") || inputType == Str("markdown")
    ensures r.Fail? ==> r.error == HandleValidationError(
      "inputType", ToText(inputType), "Must be either \"html\" or \"markdown\"")
  {
    if !OneOf(inputType, ["html", "markdown"]) then
      Fail(HandleValidationError("inputType", ToText(inputType), "Must be either \"html\" or \"markdown\""))
    else
      Pass
  }

  // --------------------------------------------------------------- settings

  /** The argument of `validatePDFSettings`: an object carrying the settings
      properties, or some other value. */
  datatype SettingsArg = Object(st: Settings) | Other(v: Value)

  /** `fields.forEach(...)` whose callback throws: the first failing check. */
  function FirstFailure(fields: seq<Field>, check: Field -> Outcome<AppError>): (r: Outcome<AppError>)
    ensures r.Pass? <==> forall i :: 0 <= i < |fields| ==> check(fields[i]).Pass?
    ensures r.Fail? ==>
      exists i :: 0 <= i < |fields| && r == check(fields[i]) && forall j :: 0 <= j < i ==> check(fields[j]).Pass?
  {
    if fields == [] then Pass
    else if check(fields[0]).Fail? then check(fields[0])
    else
      var rest := FirstFailure(fields[1..], check);
      assert forall i :: 1 <= i < |fields| ==> fields[i] == fields[1..][i - 1];
      rest
  }

  predicate PageSizeOk(v: Value) { !Truthy(v) || OneOf(v, ValidPageSizes) }
  predicate OrientationOk(v: Value) { !Truthy(v) || OneOf(v, ValidOrientations) }

  /** A margin is absent, or converts to a number in [0, 100]. */
  predicate MarginOk(v: Value) {
    v == Undefined || (ToNumber(v).Some? && 0 <= ToNumber(v).value <= 100)
  }

  /** A text field is absent or empty, or a string of at most 500 characters. */
  predicate TextOk(v: Value) { !Truthy(v) || (v.Str? && |v.s| <= MaxTextLength) }

  predicate BooleanOk(v: Value) { v == Undefined || v.Bool? }

  predicate MarginsOk(st: Settings) {
    MarginOk(st.marginTop) && MarginOk(st.marginBottom) && MarginOk(st.marginLeft) && MarginOk(st.marginRight)
  }

  predicate TextsOk(st: Settings) {
    TextOk(st.headerText) && TextOk(st.footerText) && TextOk(st.watermarkText)
  }

  predicate BooleansOk(st: Settings) {
    BooleanOk(st.enablePageNumbers) && BooleanOk(st.enableTableOfContents)
  }

  /** Every rule of the strict validator, stated field by field. */
  predicate SettingsOk(st: Settings) {
    PageSizeOk(st.pageSize) && OrientationOk(st.orientation) && MarginsOk(st) && TextsOk(st) && BooleansOk(st)
  }

  function CheckMargin(f: Field): (r: Outcome<AppError>)
    ensures r.Pass? <==> MarginOk(f.value)
    ensures r.Fail? ==> IsValidationError(r.error)
  {
    if f.value != Undefined then
      var n := ToNumber(f.value);
      if n.None? || n.value < 0 || n.value > 100 then
        Fail(HandleValidationError(f.name, ToText(f.value), "Must be a number between 0 and 100"))
      else Pass
    else Pass
  }

  function CheckText(f: Field): (r: Outcome<AppError>)
    ensures r.Pass? <==> TextOk(f.value)
    ensures r.Fail? ==> IsValidationError(r.error)
  {
    if Truthy(f.value) && TypeOf(f.value) != "string" then
      Fail(HandleValidationError(f.name, TypeOf(f.value), "Must be a string"))
    else if Truthy(f.value) && |f.value.s| > MaxTextLength then
      Fail(HandleValidationError(f.name, IntToString(|f.value.s|), "Must be less than 500 characters"))
    else Pass
  }

  function CheckBoolean(f: Field): (r: Outcome<AppError>)
    ensures r.Pass? <==> BooleanOk(f.value)
    ensures r.Fail? ==> IsValidationError(r.error)
  {
    if f.value != Undefined && TypeOf(f.value) != "boolean" then
      Fail(HandleValidationError(f.name, TypeOf(f.value), "Must be a boolean"))
    else Pass
  }

  function CheckPageSize(v: Value): (r: Outcome<AppError>)
    ensures r.Pass? <==> PageSizeOk(v)
    ensures r.Fail? ==> IsValidationError(r.error)
  {
    if Truthy(v) && !OneOf(v, ValidPageSizes) then
      Fail(HandleValidationError("pageSize", ToText(v), "Must be one of: A4, A3, A5, Letter, Legal"))
    else Pass
  }

  function CheckOrientation(v: Value): (r: Outcome<AppError>)
    ensures r.Pass? <==> OrientationOk(v)
    ensures r.Fail? ==> IsValidationError(r.error)
  {
    if Truthy(v) && !OneOf(v, ValidOrientations) then
      Fail(HandleValidationError("orientation", ToText(v), "Must be one of: portrait, landscape"))
    else Pass
  }

  /** The checks `validatePDFSettings` runs on an object, in source order:
      the first failing one decides the error. */
  function CheckSettings(st: Settings): (r: Outcome<AppError>)
    ensures r.Pass? <==> SettingsOk(st)
    ensures r.Fail? ==> IsValidationError(r.error)
    ensures !PageSizeOk(st.pageSize) ==> r == CheckPageSize(st.pageSize)
    ensures PageSizeOk(st.pageSize) && !OrientationOk(st.orientation) ==> r == CheckOrientation(st.orientation)
    ensures PageSizeOk(st.pageSize) && OrientationOk(st.orientation) && !MarginsOk(st) ==>
      r == FirstFailure(MarginFields(st), CheckMargin)
    ensures PageSizeOk(st.pageSize) && OrientationOk(st.orientation) && MarginsOk(st) && !TextsOk(st) ==>
      r == FirstFailure(TextFields(st), CheckText)
    ensures PageSizeOk(st.pageSize) && OrientationOk(st.orientation) && MarginsOk(st) && TextsOk(st) ==>
      r == FirstFailure(BooleanFields(st), CheckBoolean)
  {
    MarginChecks(st);
    TextChecks(st);
    BooleanChecks(st);
    var page, orientation := CheckPageSize(st.pageSize), CheckOrientation(st.orientation);
    var margins := FirstFailure(MarginFields(st), CheckMargin);
    var texts := FirstFailure(TextFields(st), CheckText);
    var booleans := FirstFailure(BooleanFields(st), CheckBoolean);
    if page.Fail? then page
    else if orientation.Fail? then orientation
    else if margins.Fail? then margins
    else if texts.Fail? then texts
    else booleans
  }

  /** The margin loop passes exactly when every margin is acceptable, and
      otherwise fails with a validation error. */
  lemma MarginChecks(st: Settings)
    ensures var r := FirstFailure(MarginFields(st), CheckMargin);
      && (r.Pass? <==> MarginsOk(st))
      && (r.Fail? ==> IsValidationError(r.error))
  {
    var ms := MarginFields(st);
    assert ms[0].value == st.marginTop && ms[1].value == st.marginBottom;
    assert ms[2].value == st.marginLeft && ms[3].value == st.marginRight;
  }

  lemma TextChecks(st: Settings)
    ensures var r := FirstFailure(TextFields(st), CheckText);
      && (r.Pass? <==> TextsOk(st))
      && (r.Fail? ==> IsValidationError(r.error))
  {
    var ts := TextFields(st);
    assert ts[0].value == st.headerText && ts[1].value == st.footerText && ts[2].value == st.watermarkText;
  }

  lemma BooleanChecks(st: Settings)
    ensures var r := FirstFailure(BooleanFields(st), CheckBoolean);
      && (r.Pass? <==> BooleansOk(st))
      && (r.Fail? ==> IsValidationError(r.error))
  {
    var bs := BooleanFields(st);
    assert bs[0].value == st.enablePageNumbers && bs[1].value == st.enableTableOfContents;
  }

  /** `validatePDFSettings`: accepts exactly the settings objects that satisfy
      every rule (a truthy object with none of the properties among them), and
      otherwise reports the first violation in the order page size,
      orientation, margins, text fields, flags. */
  function ValidatePdfSettings(arg: SettingsArg): (r: Outcome<AppError>)
    ensures r.Pass? <==> (arg.Object? && SettingsOk(arg.st)) || arg == Other(Obj)
    ensures r.Fail? ==> IsValidationError(r.error)
    ensures arg.Other? && arg.v != Obj ==>
      r == Fail(HandleValidationError("settings", TypeOf(arg.v), "Must be an object"))
    ensures arg.Object? && !PageSizeOk(arg.st.pageSize) ==>
      r == Fail(HandleValidationError("pageSize", ToText(arg.st.pageSize), "Must be one of: A4, A3, A5, Letter, Legal"))
    ensures arg.Object? && PageSizeOk(arg.st.pageSize) && !OrientationOk(arg.st.orientation) ==>
      r == Fail(HandleValidationError("orientation", ToText(arg.st.orientation), "Must be one of: portrait, landscape"))
    ensures arg.Object? ==> r == CheckSettings(arg.st)
  {
    match arg
    case Other(v) =>
      if !Truthy(v) || TypeOf(v) != "object" then
        Fail(HandleValidationError("settings", TypeOf(v), "Must be an object"))
      else
        CheckSettings(NoSettings)
    case Object(st) =>
      CheckSettings(st)
  }

  /** A margin given as a number or as that number's text is accepted exactly
      when it lies in [0, 100], both ends included. */
  lemma MarginRange(n: int)
    ensures MarginOk(Num(n)) <==> 0 <= n <= 100
    ensures MarginOk(Str(IntToString(n))) <==> 0 <= n <= 100
  {
    NumberTextRoundTrip(n);
  }

  /** The defaults the convert route merges in pass validation, whatever
      text fields and flags a valid request adds. */
  lemma DefaultsAccepted(st: Settings)
    requires st.pageSize == Undefined && st.orientation == Undefined
    requires forall i :: 0 <= i < 4 ==> MarginFields(st)[i].value == Undefined
    requires TextOk(st.headerText) && TextOk(st.footerText) && TextOk(st.watermarkText)
    requires BooleanOk(st.enablePageNumbers) && BooleanOk(st.enableTableOfContents)
    ensures ValidatePdfSettings(Object(WithDefaults(st))).Pass?
  {
    var d := WithDefaults(st);
    assert MarginFields(st)[0].value == Undefined && MarginFields(st)[1].value == Undefined;
    assert MarginFields(st)[2].value == Undefined && MarginFields(st)[3].value == Undefined;
    assert MarginFields(d)[0].value == Num(20);
    assert MarginFields(d)[1].value == Num(20);
    assert MarginFields(d)[2].value == Num(20);
    assert MarginFields(d)[3].value == Num(20);
    assert OneOf(d.pageSize, ValidPageSizes);
    assert OneOf(d.orientation, ValidOrientations);
  }

  // ------------------------------------------------------------------ files

  /** An uploaded file as the upload middleware describes it. */
  datatype UploadedFile = UploadedFile(size: int, originalName: string, mimeType: string)

  /** `s.split('.').pop()`: the text after the last dot, or all of `s`. */
  function AfterLastDot(s: string): (r: string)
    ensures |r| <= |s| && r == s[|s| - |r|..]
    ensures forall k :: 0 <= k < |r| ==> r[k] != '.'
    ensures |r| < |s| ==> s[|s| - |r| - 1] == '.'
  {
    if s == [] || s[|s| - 1] == '.' then []
    else AfterLastDot(s[..|s| - 1]) + [s[|s| - 1]]
  }

  /** The extension `validateFile` checks: lower-cased text after the last dot. */
  function FileExtension(name: string): (r: string)
    ensures |r| <= |name|
    ensures forall k :: 0 <= k < |r| ==> r[k] != '.'
  {
    AfterLastDot(ToLower(name))
  }

  /** A name without a dot is its own extension, lower-cased. */
  lemma {:induction false} NoDotWholeName(name: string)
    requires forall k :: 0 <= k < |name| ==> name[k] != '.'
    ensures FileExtension(name) == ToLower(name)
  {
  }

  /** `validateFile`: a file must be present, at most 10 MiB, have an allowed
      extension and an allowed MIME type; checked in that order. */
  function ValidateFile(file: Option<UploadedFile>): (r: Outcome<AppError>)
    ensures r.Pass? <==>
      && file.Some? && file.value.size <= MaxFileSize
      && "." + FileExtension(file.value.originalName) in AllowedExtensions
      && file.value.mimeType in AllowedMimeTypes
    ensures r.Fail? ==> r.error.statusCode == Some(400) && r.error.errType == Some("FILE_ERROR")
    ensures file.None? ==> r == Fail(HandleFileError("No file provided"))
    ensures file.Some? && file.value.size > MaxFileSize ==>
      r == Fail(HandleFileError("File size exceeds 10MB limit"))
    ensures (file.Some? && file.value.size <= MaxFileSize
      && "." + FileExtension(file.value.originalName) !in AllowedExtensions) ==>
      r == Fail(HandleFileError(FileTypeMessage))
    ensures (file.Some? && file.value.size <= MaxFileSize
      && "." + FileExtension(file.value.originalName) in AllowedExtensions
      && file.value.mimeType !in AllowedMimeTypes) ==>
      r == Fail(HandleFileError("Invalid MIME type: " + file.value.mimeType))
  {
    match file
    case None => Fail(HandleFileError("No file provided"))
    case Some(f) =>
      if f.size > MaxFileSize then
        Fail(HandleFileError("File size exceeds 10MB limit"))
      else if "." + FileExtension(f.originalName) !in AllowedExtensions then
        Fail(HandleFileError(FileTypeMessage))
      else if f.mimeType !in AllowedMimeTypes then
        Fail(HandleFileError("Invalid MIME type: " + f.mimeType))
      else
        Pass
  }

  // -------------------------------------------------------------- file name

  /** The characters `[a-zA-Z0-9.-]` keeps. */
  predicate IsFilenameChar(c: char) {
    ('a' <= c <= 'z') || ('A' <= c <= 'Z') || ('0' <= c <= '9') || c == '.' || c == '-'
  }

  predicate IsSafeChar(c: char) { IsFilenameChar(c) || c == '_' }

  predicate AllSafe(s: string) {
    forall k :: 0 <= k < |s| ==> IsSafeChar(s[k])
  }

  predicate NoDoubleUnderscore(s: string) {
    forall k :: 0 <= k < |s| - 1 ==> s[k] != '_' || s[k + 1] != '_'
  }

  /** `.replace(/[^a-zA-Z0-9.-]/g, '_')`. */
  function ReplaceUnsafe(s: string): (r: string)
    ensures |r| == |s| && AllSafe(r)
    ensures forall k :: 0 <= k < |s| ==>
      (IsFilenameChar(s[k]) ==> r[k] == s[k]) && (!IsFilenameChar(s[k]) ==> r[k] == '_')
    ensures AllSafe(s) ==> r == s
  {
    seq(|s|, k requires 0 <= k < |s| => if IsFilenameChar(s[k]) then s[k] else '_')
  }

  /** The length of the run of underscores `s` starts with. */
  function UnderscoreRun(s: string): (n: nat)
    ensures n <= |s| && forall k :: 0 <= k < n ==> s[k] == '_'
    ensures n < |s| ==> s[n] != '_'
  {
    if s != [] && s[0] == '_' then 1 + UnderscoreRun(s[1..]) else 0
  }

  /** The characters of `s` other than `_`, in order. */
  function WithoutUnderscores(s: string): string
    decreases |s|
  {
    if s == [] then [] else (if s[0] == '_' then [] else [s[0]]) + WithoutUnderscores(s[1..])
  }

  /** `.replace(/_{2,}/g, '_')`: every run of two or more underscores becomes one. */
  function CollapseUnderscores(s: string): (r: string)
    ensures |r| <= |s|
    ensures s != [] ==> r != [] && r[0] == s[0]
    ensures NoDoubleUnderscore(r)
    ensures NoDoubleUnderscore(s) ==> r == s
    decreases |s|
  {
    if s == [] then []
    else
      var n := UnderscoreRun(s);
      if n >= 2 then
        var rest := CollapseUnderscores(s[n..]);
        assert n < |s| ==> rest[0] == s[n];
        ConsNoDouble('_', rest);
        "_" + rest
      else
        var rest := CollapseUnderscores(s[1..]);
        assert s[0] == '_' && |s| > 1 ==> s[1] != '_';
        assert NoDoubleUnderscore(s) ==> NoDoubleUnderscore(s[1..]);
        ConsNoDouble(s[0], rest);
        [s[0]] + rest
  }

  /** Collapsing introduces no new characters: a safe name stays safe. */
  lemma {:induction false} CollapseKeepsSafe(s: string)
    requires AllSafe(s)
    ensures AllSafe(CollapseUnderscores(s))
    decreases |s|
  {
    if s != [] {
      var n := UnderscoreRun(s);
      var m := if n >= 2 then n else 1;
      assert AllSafe(s[m..]) by {
        assert forall k :: 0 <= k < |s[m..]| ==> s[m..][k] == s[m + k];
      }
      CollapseKeepsSafe(s[m..]);
      var rest := CollapseUnderscores(s[m..]);
      var c := if n >= 2 then '_' else s[0];
      assert IsSafeChar(c);
      assert CollapseUnderscores(s) == [c] + rest;
      assert forall k :: 1 <= k < |[c] + rest| ==> ([c] + rest)[k] == rest[k - 1];
    }
  }

  /** Collapsing removes underscores only: the other characters survive in
      order. */
  lemma {:induction false} CollapseKeepsOthers(s: string)
    ensures WithoutUnderscores(CollapseUnderscores(s)) == WithoutUnderscores(s)
    decreases |s|
  {
    if s != [] {
      var n := UnderscoreRun(s);
      var m := if n >= 2 then n else 1;
      CollapseKeepsOthers(s[m..]);
      var rest := CollapseUnderscores(s[m..]);
      var c := if n >= 2 then '_' else s[0];
      assert CollapseUnderscores(s) == [c] + rest;
      assert ([c] + rest)[1..] == rest;
      DropRun(s, m);
    }
  }

  /** Collapsing keeps an underscore wherever a run of them was: the result
      has one exactly when the name has one. */
  lemma {:induction false} CollapseKeepsUnderscore(s: string)
    ensures '_' in CollapseUnderscores(s) <==> '_' in s
    decreases |s|
  {
    if s != [] {
      if s[0] == '_' {
        assert CollapseUnderscores(s)[0] == '_';
      } else {
        CollapseKeepsUnderscore(s[1..]);
        assert s == [s[0]] + s[1..];
        assert CollapseUnderscores(s) == [s[0]] + CollapseUnderscores(s[1..]);
      }
    }
  }

  /** A leading run of underscores contributes nothing to `WithoutUnderscores`,
      nor does the first character when it is the whole of the step. */
  lemma {:induction false} DropRun(s: string, m: nat)
    requires 1 <= m <= |s|
    requires m > 1 ==> forall k :: 0 <= k < m ==> s[k] == '_'
    ensures WithoutUnderscores(s) == (if s[0] == '_' then [] else [s[0]]) + WithoutUnderscores(s[m..])
    decreases m
  {
    if m > 1 {
      DropRun(s[1..], m - 1);
      assert s[1..][m - 1..] == s[m..];
    }
  }

  lemma ConsNoDouble(c: char, rest: string)
    requires NoDoubleUnderscore(rest)
    requires c == '_' && rest != [] ==> rest[0] != '_'
    ensures NoDoubleUnderscore([c] + rest)
  {
    var r := [c] + rest;
    assert forall k :: 1 <= k < |r| ==> r[k] == rest[k - 1];
  }

  /** `sanitizeFilename`: a non-string or empty name becomes `converted.pdf`;
      any other name becomes a non-empty name of at most 100 characters from
      `[A-Za-z0-9._-]` with no two underscores in a row. */
  function SanitizeFilename(name: Value): (r: string)
    ensures r != "" && |r| <= MaxFilenameLength && AllSafe(r) && NoDoubleUnderscore(r)
    ensures !Truthy(name) || !name.Str? ==> r == "converted.pdf"
    ensures name.Str? && name.s != "" ==>
      var c := CollapseUnderscores(ReplaceUnsafe(name.s));
      |r| == (if |c| < MaxFilenameLength then |c| else MaxFilenameLength) && r == c[..|r|]
    ensures name.Str? && name.s != "" && |name.s| <= MaxFilenameLength ==>
      r == CollapseUnderscores(ReplaceUnsafe(name.s))
    ensures (name.Str? && name.s != "" && |name.s| <= MaxFilenameLength
      && AllSafe(name.s) && NoDoubleUnderscore(name.s)) ==> r == name.s
  {
    if !Truthy(name) || TypeOf(name) != "string" then
      assert AllSafe("converted.pdf") by {
        var c := "converted.pdf";
        assert forall k :: 0 <= k < |c| ==> IsFilenameChar(c[k]);
      }
      "converted.pdf"
    else
      var collapsed := CollapseUnderscores(ReplaceUnsafe(name.s));
      CollapseKeepsSafe(ReplaceUnsafe(name.s));
      var r := collapsed[..if |collapsed| < MaxFilenameLength then |collapsed| else MaxFilenameLength];
      assert forall k :: 0 <= k < |r| ==> r[k] == collapsed[k];
      r
  }

  /** Sanitizing a sanitized name changes nothing. */
  lemma SanitizeFilenameIdempotent(name: Value)
    ensures SanitizeFilename(Str(SanitizeFilename(name))) == SanitizeFilename(name)
  {
    var r := SanitizeFilename(name);
    assert ReplaceUnsafe(r) == r;
    assert CollapseUnderscores(r) == r;
    assert r[..|r|] == r;
  }
}
