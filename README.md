# SnipDoc print pipeline: a Dafny model

SnipDoc turns HTML or Markdown into a PDF. This project models the part of
`PDFConverter` that builds the print-ready HTML handed to the headless
browser, together with the request `Validator`, the sliding-window
`RateLimiter` and the `ErrorHandler` helpers the server uses around it.

The pipeline is modelled in these steps:

- `processContent` runs Markdown through the markdown renderer.
- `generateTableOfContents` collects the headings with the heading regular
  expression, gives anchors to headings that lack one, builds the nested
  `<ul>` list and inserts it after `<body>`.
- `applyPDFStyles` builds the `@page`, typography, watermark and print rules
  and puts the `<style>` element into the document.
- `generatePDF` first guards against empty content and runs the converter's
  own lenient settings check.

The modules are:

- `Wrappers`: `Option`, `Result` and `Outcome` (pass, or fail with an error).
- `Text`: the JavaScript string operations the code relies on:
  - `indexOf`, `includes` and a first-occurrence `replace`;
  - `trim` with JavaScript's whitespace set;
  - ASCII `toLowerCase`;
  - decimal integer text.
- `JsValues`: the JavaScript values that reach the validators, with their
  truthiness, `typeof`, template-literal text and `Number()` conversion.
- `ErrorHandler`: the error objects (`statusCode`, `type`, `isOperational`),
  the response body and the choice of log channel.
- `PrintSettings`: the settings object and the defaults `server.js` fills in.
- `Validator`: the content, input type, PDF settings and upload checks, and
  `sanitizeFilename`.
- `RateLimiting`: the `RateLimiter` class, a map from client id to
  timestamps, with `isAllowed` and `cleanup`.
- `HeadingScanner`: the regular expression `<h([1-6])([^>]*)>(.*?)<\/h\1>`
  with flags `g` and `i`.
  - `MatchAt` and `NextMatch` find the leftmost match.
  - `Scan` lists all matches the way repeated `exec` calls do.
  - `Headings` gives the records the `exec` loop pushes.
- `TocBuilder`: the list builder, stated over a token sequence (open list,
  close list, entry) whose depth never drops below zero and ends at zero.
- `TableOfContents`: the three passes of `generateTableOfContents` as
  methods, each proved equal to a specification function.
- `PdfStyles`: the style sheet as a list of CSS rules and the three ways of
  inserting it.
- `PdfConverter`: `processContent`, `validateSettings` and the part of
  `generatePDF` that comes before rendering.

Things the source reads from outside are parameters of the model:

- The current time (`Date.now()`) is the `now` argument of the rate limiter
  methods.
- The markdown renderer `marked` is an uninterpreted function argument.

The model keeps two behaviours of the code that are easy to miss:

- The anchor counter advances once for every heading, including headings that
  already have an id. A synthesized id `heading-k` therefore always carries
  the heading's position in the document.
- A heading whose attributes contain `id=` keeps its markup unchanged, and
  its table-of-contents entry links to whatever quoted value the id pattern
  finds. Two cases give a link that names no anchor:
  - with an unquoted `id=intro` the entry links to `#heading-k`
    (`TableOfContents.UnquotedIdDangles`);
  - with another attribute ending in `id=`, such as `data-id="x"`, the entry
    links to `#x` (`TableOfContents.OtherAttributeIdMisdirects`).

## Model

| member | source | states |
|---|---|---|
| ErrorHandler.CreateError | src/utils/ErrorHandler.js:2-7 | keeps the message; the status code defaults to 500 and the type to `GENERIC_ERROR`; values that are given are kept |
| ErrorHandler.HandleValidationError | src/utils/ErrorHandler.js:9-15 | message `Invalid <field>: <value>. <constraint>`; status 400, type `VALIDATION_ERROR`; operational |
| ErrorHandler.HandleFileError | src/utils/ErrorHandler.js:17-19 | keeps the message; status 400, type `FILE_ERROR`; operational |
| ErrorHandler.HandlePdfGenerationError | src/utils/ErrorHandler.js:21-27 | the message gets the `PDF Generation Error: ` prefix; status 500, type `PDF_GENERATION_ERROR`; not operational |
| ErrorHandler.HandleContentError | src/utils/ErrorHandler.js:29-35 | the message gets the `Content Processing Error: ` prefix; status 400, type `CONTENT_ERROR`; operational |
| ErrorHandler.IsOperationalError | src/utils/ErrorHandler.js:37-39 | an error is operational when its flag is exactly `true` or its status is below 500; a missing status never counts as below 500 (its contract is stated by `OperationalIffWarning` and `MissingStatusLoggedAsWarning`) |
| ErrorHandler.FormatErrorResponse | src/utils/ErrorHandler.js:41-48 | the body carries the message; its type is the error's own type exactly when that is present and non-empty, and `UNKNOWN_ERROR` otherwise |
| ErrorHandler.LogRecord | src/utils/ErrorHandler.js:50-66 | the logged status is the error's status, or 500 when it is missing or zero; the logged type is the one the response body gets; the log goes to the server-error channel exactly when the error's own status is at least 500 |
| ErrorHandler.MissingStatusLoggedAsWarning | src/utils/ErrorHandler.js:50-65 | an error with no status is logged as status 500 and `UNKNOWN_ERROR`, but on the warning channel, and is not operational |
| ErrorHandler.OperationalIffWarning | src/utils/ErrorHandler.js:37-39 | for an error with a status and no operational flag, it counts as operational exactly when it is logged as a warning |
| JsValues.StringToNumber | src/utils/Validator.js:70 | text gives a number exactly when, once trimmed, it is empty or an optionally signed non-empty run of decimal digits; blank text is 0 and the value carries the sign of the text |
| JsValues.ToNumber | src/utils/Validator.js:70 | `Number(v)`: a number converts to itself, a string converts exactly as `StringToNumber` says; NaN arises only from `undefined`, objects and strings |
| JsValues.SameTrimSameNumber | src/utils/Validator.js:70 | two texts with the same trimmed text convert to the same number |
| JsValues.LeadingWhitespaceIgnored | src/utils/Validator.js:70 | a white space character in front of any text does not change what it converts to |
| JsValues.PlusSignIgnored | src/utils/Validator.js:70 | a `+` in front of a run of digits does not change its value |
| JsValues.MinusSignNegates | src/utils/Validator.js:70 | a `-` in front of a run of digits negates its value, so `-0` and `-00` are 0 and `-05` is -5 |
| JsValues.LeadingZeroIgnored | src/utils/Validator.js:70 | a `0` in front of a run of digits does not change its value |
| JsValues.ToText | src/utils/ErrorHandler.js:11 | template-literal text: a string interpolates to itself (the text of a number is tied to it by `NumberTextRoundTrip`) |
| JsValues.Truthy | src/utils/Validator.js:34 | JavaScript truthiness; stated against `Number()` by `TruthyIffNonZeroNumber` |
| JsValues.TruthyIffNonZeroNumber | src/utils/Validator.js:34 | for `undefined`, `null`, booleans and numbers, a value is truthy exactly when `Number()` gives a number other than 0 |
| JsValues.TypeOf | src/utils/Validator.js:34 | the `typeof` operator; stated by `TypeOfObject` |
| JsValues.TypeOfObject | src/utils/Validator.js:34 | `typeof` is `object` exactly for `null` and objects, and `string` exactly for strings |
| JsValues.NumberTextRoundTrip | src/utils/Validator.js:67-79 | converting the template text of any integer back with `Number()` gives the same integer |
| Text.IndexOfFrom | src/converters/PDFConverter.js:191 | finds the leftmost occurrence at or after the start, and no occurrence exists when none is returned |
| Text.ReplaceFirst | src/converters/PDFConverter.js:78 | a string without the pattern is returned unchanged; otherwise the length changes by the replacement's length minus the pattern's (where the text goes is stated by `ReplaceFirstWraps`) |
| Text.ReplaceFirstWraps | src/converters/PDFConverter.js:78 | replacing the first occurrence with a wrapped copy of itself inserts text around that occurrence and leaves the rest of the input intact |
| Text.Trim | src/utils/Validator.js:9 | `trim()` does not grow the text and leaves no JavaScript whitespace at either end; `TrimRemovesOnlyWhitespace` states that it removes whitespace and nothing else |
| Text.TrimRemovesOnlyWhitespace | src/utils/Validator.js:9 | the trimmed text is the slice of the input that starts after the leading whitespace, and everything before and after that slice is JavaScript whitespace |
| Text.TrimSkipsLeadingWhitespace | src/utils/Validator.js:9 | a whitespace character in front does not change the trimmed text |
| Text.ParseLeadingZero | src/utils/Validator.js:70 | a leading `0` does not change the value of a digit string |
| Text.TrimEmptyIffWhitespace | src/utils/Validator.js:9 | `trim()` is empty exactly when every character is JavaScript whitespace |
| Text.ToLower | src/utils/Validator.js:127 | has the same length and lowercases each character |
| Validator.ValidateContent | src/utils/Validator.js:4-18 | passes exactly for a string that is not all whitespace and has at most 10 MB of characters; the two failure messages; failures are 400 `CONTENT_ERROR` |
| Validator.ValidateInputType | src/utils/Validator.js:20-31 | passes exactly for `html` and `markdown`; otherwise returns the validation error naming the value |
| Validator.FirstFailure | src/utils/Validator.js:67-79 | passes exactly when every field passes; otherwise returns the error of the first failing field |
| Validator.CheckPageSize | src/utils/Validator.js:43-52 | passes exactly for a falsy page size or one of A4, A3, A5, Letter, Legal; failures are validation errors |
| Validator.CheckOrientation | src/utils/Validator.js:55-64 | passes exactly for a falsy orientation, `portrait` or `landscape` |
| Validator.CheckMargin | src/utils/Validator.js:69-77 | passes exactly for an absent margin or a value that converts to a number from 0 to 100 |
| Validator.CheckText | src/utils/Validator.js:84-97 | passes exactly for a falsy value or a string of at most 500 characters |
| Validator.CheckBoolean | src/utils/Validator.js:104-109 | passes exactly for an absent flag or a boolean |
| Validator.MarginChecks | src/utils/Validator.js:67-79 | the margin loop passes exactly when all four margins are valid |
| Validator.TextChecks | src/utils/Validator.js:82-99 | the text loop passes exactly when header, footer and watermark are valid |
| Validator.BooleanChecks | src/utils/Validator.js:102-111 | the flag loop passes exactly when both flags are absent or boolean |
| Validator.CheckSettings | src/utils/Validator.js:43-111 | passes exactly when every rule holds; a failure is the first broken rule in the source's order: page size, orientation, then the first failing margin, text and flag field in their lists |
| Validator.ValidatePdfSettings | src/utils/Validator.js:33-114 | a falsy value or one that is not an object fails with its `typeof` in the message; for an object the result is exactly the result of `CheckSettings`, failures in the same order |
| Validator.MarginRange | src/utils/Validator.js:67-79 | an integer margin, given as a number or as text, is accepted exactly when it is between 0 and 100 inclusive |
| Validator.DefaultsAccepted | src/server.js:61-69 | settings completed with the server defaults pass validation whenever the other fields are valid |
| Validator.AfterLastDot | src/utils/Validator.js:127 | gives the dot-free suffix after the last dot, or the whole name when there is no dot |
| Validator.NoDotWholeName | src/utils/Validator.js:127 | a name without a dot is its own lowercased "extension" |
| Validator.FileExtension | src/utils/Validator.js:127 | the extension is no longer than the name and contains no dot (the suffix after the last dot is stated by `AfterLastDot`) |
| Validator.ValidateFile | src/utils/Validator.js:116-149 | passes exactly when a file is present, within 10 MB, with an allowed extension and an allowed MIME type; failures come in that order, each with its own message (missing file, size, file type listing the allowed extensions, MIME type naming the given type); every failure is 400 `FILE_ERROR` |
| Validator.ReplaceUnsafe | src/utils/Validator.js:172 | keeps the length; each character from `[A-Za-z0-9.-]` stays in place and every other character becomes `_` |
| Validator.CollapseUnderscores | src/utils/Validator.js:173 | leaves no `__`; does not grow the name; keeps the first character; a name without `__` is unchanged |
| Validator.CollapseKeepsSafe | src/utils/Validator.js:172-173 | collapsing underscores keeps a safe name safe |
| Validator.CollapseKeepsOthers | src/utils/Validator.js:173 | collapsing underscore runs keeps every other character, in order |
| Validator.CollapseKeepsUnderscore | src/utils/Validator.js:173 | the collapsed name has an underscore exactly when the name has one |
| Validator.SanitizeFilename | src/utils/Validator.js:165-175 | the result is non-empty, at most 100 characters, safe and free of `__`; a missing or non-string name gives `converted.pdf`; any other non-empty string becomes the first 100 characters of its replaced and collapsed form, so a safe name of at most 100 characters without `__` is kept as it is |
| Validator.SanitizeFilenameIdempotent | src/utils/Validator.js:165-175 | sanitizing a sanitized name changes nothing |
| PrintSettings.WithDefaults | src/server.js:61-69 | an absent page size becomes A4, an absent orientation becomes portrait and absent margins become 20; page size, orientation and margins that are given, and the text and flag fields, are kept |
| RateLimiting.InWindow | src/utils/RateLimiter.js:19 | keeps exactly the timestamps after the window start, and all of them when all are inside |
| RateLimiting.InWindowCounts | src/utils/RateLimiter.js:19 | every copy of a timestamp inside the window is kept and no copy of one outside it |
| RateLimiting.InWindowConcat | src/utils/RateLimiter.js:19 | filtering a concatenation filters each part, so kept timestamps stay in bucket order |
| RateLimiting.InWindowAscending | src/utils/RateLimiter.js:19 | filtering keeps the timestamps in ascending order |
| RateLimiting.CeilDiv | src/utils/RateLimiter.js:26 | `Math.ceil(x / d)`: the least integer c with x at most c times d |
| RateLimiting.Admit | src/utils/RateLimiter.js:8-38 | admits exactly when the pruned bucket holds fewer than the maximum, and then appends `now`; reports the remaining quota; a denial's retry-after is the number of whole seconds, rounded up, until the pruned bucket's first entry leaves the window, and at least one; the bucket never exceeds the maximum |
| RateLimiting.RetryAfterExample | src/utils/RateLimiter.js:23-28 | a full bucket [1000, 2000] at 2500 ms with a one-minute window is denied with a retry-after of 59 seconds and keeps both entries |
| RateLimiting.AdmitKeepsAscending | src/utils/RateLimiter.js:19-32 | with a clock that does not go back, a bucket stays in ascending order, so its first entry is the oldest |
| RateLimiting.AppendLatestAscending | src/utils/RateLimiter.js:31 | appending the current time to an ascending bucket keeps it ascending |
| RateLimiting.Swept | src/utils/RateLimiter.js:62-75 | keeps exactly the clients that still have a timestamp in the window, each pruned to the window |
| RateLimiting.RateLimiter.constructor | src/utils/RateLimiter.js:2-6 | the defaults are 60000 ms and 10 requests; starts with no clients |
| RateLimiting.RateLimiter.IsAllowed | src/utils/RateLimiter.js:8-38 | the client's bucket becomes the result of `Admit`; the client is added if new; every other client is unchanged; no bucket exceeds the maximum |
| RateLimiting.RateLimiter.Cleanup | src/utils/RateLimiter.js:62-75 | the map becomes `Swept` of the old map at the window start |
| RateLimiting.RateLimiter.SweepStep | src/utils/RateLimiter.js:66-74 | handling one client either deletes it, when nothing is left in the window, or sets it to its pruned bucket |
| RateLimiting.RateLimiter.SweepDone | src/utils/RateLimiter.js:66-74 | once every client is handled the map is the swept map, and buckets stay within the maximum |
| HeadingScanner.LazyInnerEnd | src/converters/PDFConverter.js:21 | finds the first closing tag of the same level, with no line terminator before it, or proves there is none |
| HeadingScanner.MatchAt | src/converters/PDFConverter.js:21 | returns a match at a position exactly when the regular expression matches there |
| HeadingScanner.FoundMatch | src/converters/PDFConverter.js:21 | an opening tag, its first `>` and the nearest closing tag of the same level, with no line break in between, form a match |
| HeadingScanner.NoMatchWithoutGt | src/converters/PDFConverter.js:21 | without a `>` after the tag name there is no match |
| HeadingScanner.NoMatchWithoutClose | src/converters/PDFConverter.js:21 | without a reachable closing tag there is no match |
| HeadingScanner.NextMatch | src/converters/PDFConverter.js:26 | finds the leftmost match at or after the position, and no match exists when none is returned |
| HeadingScanner.Scan | src/converters/PDFConverter.js:26-41 | the matches are in order, do not overlap and each is a real match; the list is empty exactly when there is no match |
| HeadingScanner.ScanStep | src/converters/PDFConverter.js:26-41 | scanning continues from the end of the match just found |
| HeadingScanner.NonQuoteRun | src/converters/PDFConverter.js:32 | finds the run of non-quote characters, which ends at a quote or at the end of the input |
| HeadingScanner.QuotedIdFrom | src/converters/PDFConverter.js:32 | finds nothing exactly when the pattern `id=["']([^"']+)["']` matches at no position from the start on; otherwise the value at the first position where it matches, which is non-empty, has no quotes and follows an `id=` |
| HeadingScanner.QuotedId | src/converters/PDFConverter.js:32-37 | finds nothing exactly when the id pattern matches nowhere in the attributes; otherwise the value of its leftmost match, which is non-empty and quote-free |
| HeadingScanner.StripTags | src/converters/PDFConverter.js:29 | does not grow the text, adds no character, leaves no `<` before a `>`, and keeps text without `<` unchanged |
| HeadingScanner.StripTagsCons | src/converters/PDFConverter.js:29 | a character other than `<` is kept and stripping goes on after it |
| HeadingScanner.StripTagsKeepsPlainPrefix | src/converters/PDFConverter.js:29 | text before the first `<` passes through unchanged |
| HeadingScanner.StripTagsDropsTag | src/converters/PDFConverter.js:29 | a complete tag `<y>`, with no `>` inside, is deleted |
| HeadingScanner.StripTagsKeepsText | src/converters/PDFConverter.js:29 | plain text, then a tag, then a rest strips to the plain text followed by the stripped rest |
| HeadingScanner.StripTagsKeepsUnclosed | src/converters/PDFConverter.js:29 | text containing no `>` is kept unchanged, every `<` included, since an unclosed `<` does not start a tag |
| HeadingScanner.HeadingOf | src/converters/PDFConverter.js:27-39 | the level is between 1 and 6 |
| HeadingScanner.Headings | src/converters/PDFConverter.js:26-41 | gives one heading per match, the i-th numbered i |
| HeadingScanner.HeadingsAppend | src/converters/PDFConverter.js:39-40 | one more match appends one heading, numbered by its position |
| HeadingScanner.SynthesizedIdsDistinct | src/converters/PDFConverter.js:36 | two different headings without a quoted id get different synthesized ids |
| TableOfContents.CollectHeadings | src/converters/PDFConverter.js:21-41 | the `exec` loop returns exactly the heading records of all matches in order |
| TableOfContents.ReadHeading | src/converters/PDFConverter.js:27-38 | the loop body computes exactly `HeadingOf` of the match: its level, its inner text with tags stripped, and its quoted id or else `heading-k` |
| TableOfContents.CollectStep | src/converters/PDFConverter.js:26-41 | one loop step extends the found matches and the headings by one and keeps the rest of the scan |
| TableOfContents.Replacement | src/converters/PDFConverter.js:50-56 | what the replace callback returns (stated by `EntryTargets` and `RewriteFromUnchanged`) |
| TableOfContents.RewriteFrom | src/converters/PDFConverter.js:50-56 | the replace pass from one position on (stated by `RewriteFromUnchanged`; `AddHeadingIds` is proved to compute it) |
| TableOfContents.Rewrite | src/converters/PDFConverter.js:47-56 | `html.replace(headingRegex, callback)` over the matches of the `exec` loop (stated by `RewriteFromUnchanged`; `AddHeadingIds` is proved to compute it) |
| TableOfContents.AddHeadingIds | src/converters/PDFConverter.js:47-56 | the replace pass equals `Rewrite`: headings without `id=` get `id="heading-k"` and the others are left as they are |
| TableOfContents.RewriteFromUnchanged | src/converters/PDFConverter.js:50-54 | when every heading already has `id=`, the rewrite returns the input unchanged |
| TableOfContents.IdAttrsQuotedId | src/converters/PDFConverter.js:51 | the id the rewrite inserts is the id the entry links to |
| TableOfContents.NonQuoteRunStops | src/converters/PDFConverter.js:32 | the non-quote run stops at the first quote |
| TableOfContents.EntryTargets | src/converters/PDFConverter.js:31-56 | a heading with no `id=` gets `id="heading-k"` and its entry links to that id; a heading whose attributes mention `id=` is left unchanged and its entry links to the leftmost quoted value the id pattern finds, or to `heading-k` when there is none |
| TableOfContents.UnquotedIdDangles | src/converters/PDFConverter.js:32 | an attribute `id=intro` counts as having an id, but yields no quoted id |
| TableOfContents.OtherAttributeIdMisdirects | src/converters/PDFConverter.js:32-51 | the attributes ` data-id="x"` count as having an id, so the heading is left unchanged, yet the id pattern reads `x`, so its entry links to `#x` |
| TableOfContents.DataIdMatch | src/converters/PDFConverter.js:32 | in ` data-id="x"` the id pattern matches nowhere before index 6, and at index 6, inside `data-id`, it reads `x` |
| TableOfContents.InsertTocPlacement | src/converters/PDFConverter.js:77-81 | the list goes right after the first `<body>`, or in front of the document, and nothing of the document is lost |
| TableOfContents.InsertToc | src/converters/PDFConverter.js:77-81 | the result is exactly as long as the document and the list together (where the list goes is stated by `InsertTocPlacement`) |
| TableOfContents.GeneratedToc | src/converters/PDFConverter.js:20-84 | a document with no heading match is returned unchanged; otherwise the rewritten document with the list inserted (the method `GenerateTableOfContents` is proved to compute it) |
| TableOfContents.GenerateTableOfContents | src/converters/PDFConverter.js:20-84 | the result equals `GeneratedToc`; a document with no heading is returned unchanged |
| TocBuilder.DepthOpens | src/converters/PDFConverter.js:63-64 | n list openings nest n levels deeper |
| TocBuilder.DepthCloses | src/converters/PDFConverter.js:65-66 | n list closings go n levels up |
| TocBuilder.AdjustDepth | src/converters/PDFConverter.js:63-67 | the open or close run between two levels changes the depth by their difference and never goes below the smaller level |
| TocBuilder.StepsDepth | src/converters/PDFConverter.js:62-71 | after the entries the depth is the level of the last heading, and it never goes below 1 |
| TocBuilder.StepDepth | src/converters/PDFConverter.js:62-71 | one heading moves the depth to its own level and keeps it at 1 or more |
| TocBuilder.EntryDepth | src/converters/PDFConverter.js:69 | each entry sits at the nesting depth of its heading's level |
| TocBuilder.TocNesting | src/converters/PDFConverter.js:59-74 | every `<ul>` is closed: the depth never goes below zero and ends at zero |
| TocBuilder.StepsEntries | src/converters/PDFConverter.js:62-71 | the entries, in order, are exactly one per heading |
| TocBuilder.TocEntries | src/converters/PDFConverter.js:59-74 | the whole list holds exactly one entry per heading, in document order |
| TocBuilder.RenderOpens | src/converters/PDFConverter.js:64 | n openings render as n `<ul>` |
| TocBuilder.RenderCloses | src/converters/PDFConverter.js:73 | n closings render as n `</ul>` |
| TocBuilder.RenderAdjust | src/converters/PDFConverter.js:63-67 | the tokens between two levels render as the text the loop appends |
| TocBuilder.RenderStep | src/converters/PDFConverter.js:62-71 | rendering one more heading appends its level change and its entry |
| TocBuilder.BuildStep | src/converters/PDFConverter.js:62-71 | one callback call extends the text to the rendering of one more heading and moves `currentLevel` to that heading's level |
| TocBuilder.AppendEntry | src/converters/PDFConverter.js:63-69 | appends the level change and then the entry link |
| TocBuilder.BuildTocHtml | src/converters/PDFConverter.js:59-74 | the built text is the title, the rendered token list and the footer (`TocHtml`) |
| TocBuilder.TocHtml | src/converters/PDFConverter.js:59-74 | the list starts with the title block and ends with the page break (its entries and nesting are stated by `TocEntries` and `TocNesting`) |
| PdfStyles.PageRule | src/converters/PDFConverter.js:89-92 | the size is the page size and the orientation; the margins are in millimetres in the order top, right, bottom, left |
| PdfStyles.PageRuleFirst | src/converters/PDFConverter.js:88-187 | the style sheet opens with the `@page` rule and ends with the print rule |
| PdfStyles.StyleRules | src/converters/PDFConverter.js:87-189 | the page rule, the typography rules, a watermark rule only when the watermark text is truthy, and the print rule |
| PdfStyles.StyleBlock | src/converters/PDFConverter.js:87-189 | the style sheet is one `<style>` element |
| PdfStyles.WatermarkIffTruthy | src/converters/PDFConverter.js:168-180 | there is a watermark rule exactly when the watermark text is truthy, and it then carries that text |
| PdfStyles.WatermarkRotated | src/converters/PDFConverter.js:168-180 | the watermark shows the text, turned by -45 degrees |
| PdfStyles.InjectTiers | src/converters/PDFConverter.js:191-197 | the styles go before the first `</head>`, or into a new head after `<html>`, or around the whole input; the input is kept intact |
| PdfStyles.HeadTier | src/converters/PDFConverter.js:191-192 | the `</head>` case inserts the styles at that position |
| PdfStyles.HtmlTier | src/converters/PDFConverter.js:193-194 | the `<html>` case inserts a head after the tag |
| PdfStyles.InjectedHasHeadClose | src/converters/PDFConverter.js:191-197 | the result always has a `</head>` |
| PdfStyles.NoInjectionGuard | src/converters/PDFConverter.js:191-197 | applying the styles twice adds a second style element |
| PdfStyles.InjectStyles | src/converters/PDFConverter.js:191-197 | nothing of the document or the styles is lost: the result is at least as long as both together (the three cases are stated by `InjectTiers`) |
| PdfStyles.ApplyPdfStyles | src/converters/PDFConverter.js:86-198 | the document grows by at least the style element |
| PdfConverter.ProcessContent | src/converters/PDFConverter.js:10-18 | the result is a string or the content itself; string content gives a string |
| PdfConverter.ProcessContentPassThrough | src/converters/PDFConverter.js:10-18 | non-markdown content passes through unchanged; falsy content becomes empty; a second pass changes nothing |
| PdfConverter.CheckNotNegative | src/converters/PDFConverter.js:210-214 | passes exactly when the margin is not a negative number |
| PdfConverter.ValidateSettings | src/converters/PDFConverter.js:200-215 | passes exactly when the page size and orientation are known and no margin is negative; failures are plain errors in the order page size, orientation, then the first negative margin in the order top, bottom, left, right, named in the message |
| PdfConverter.StrictImpliesLenient | src/converters/PDFConverter.js:200-215 | settings the request validator accepts also pass the converter's check |
| PdfConverter.LenientAcceptsWideMargin | src/converters/PDFConverter.js:209-214 | a 150 mm margin passes the converter's check but not the request validator |
| PdfConverter.TrimEmpty | src/converters/PDFConverter.js:218-220 | the empty-content guard rejects exactly the strings that are all whitespace |
| PdfConverter.PrintHtml | src/converters/PDFConverter.js:217-233 | the HTML `generatePDF` hands to the renderer or the error it throws first (stated by `GeneratePrintHtml`) |
| PdfConverter.GeneratePrintHtml | src/converters/PDFConverter.js:217-233 | fails exactly for non-string, blank or badly set content; otherwise gives the styled HTML, table of contents included when enabled, which always has a `</head>` |

## Left out

- The PDF rendering itself (`generatePDF` from `puppeteer.launch` on, PDFConverter.js:235-290) is left out: it calls an external headless browser. This includes the renderer options and their `|| 20` margin fallbacks, the settle delay, header and footer templates, and closing the browser.
- The test-environment mock buffer in `generatePDF` is left out; it depends on the process environment.
- `marked` is an uninterpreted function argument; Markdown parsing is not modelled.
- `server.js` is left out apart from the settings defaults: routing, uploads, CORS, the preview endpoint, and choosing the input type from the file extension.
- `RateLimiter.middleware`, `startCleanup` and `stopCleanup` are left out: they deal with HTTP headers and timers. `Date.now()` is the `now` parameter.
- RateLimiting.RateLimiter.constructor: requires `maxRequests >= 1`. The source accepts any value, but with zero or less every request is denied and `validRequests[0]` is undefined.
- RateLimiting.RateLimiter.Cleanup: does not model the visiting order of the JavaScript `Map`. The result does not depend on it.
- `sanitizeHTML` (Validator.js:151-163) is left out: its first pass is a script-tag pattern with a negative lookahead, and its `on\w+\s*=` pass is a pattern too, not a literal token.
- JsValues.StringToNumber: only optional-sign decimal integers are numbers. Fractions, exponents, hex, binary and octal literals and `Infinity` become NaN (`None`), and numbers are integers throughout, so fractional margins are not modelled.
- Text.IntToString: does not model JavaScript's exponent notation for numbers of 1e21 and above.
- Validator.ValidateContent: lengths count characters, not UTF-16 code units. The same holds for the 500-character text limit and the 100-character filename limit.
- Text.ToLower: lowercases ASCII letters only; the source uses full Unicode case mapping.
- Text.ReplaceFirst: `$`-patterns in replacement strings are treated as literal text.
- PdfStyles.StyleBlock: renders the CSS rules without the indentation and line breaks of the source's template literal.
- ErrorHandler.LogRecord: leaves out the timestamp, the stack trace, the `NODE_ENV` check and console output.
- ErrorHandler.IsOperationalError: `isOperational` is optional and counts only when it is `true`.
- PdfConverter.PrintHtml: truthy content that is not a string fails, approximating the `TypeError` from `content.trim` by the message `content.trim is not a function`.
- The settings argument of `generatePDF` is assumed to be an object.
- JsValues.Value: JSON arrays are not modelled, and `Obj` stands for every object. The source converts a one-element array like a scalar (`Number([50])` is 50, `[-5] < 0` holds), so `{"marginTop": [50]}` passes the source's `validatePDFSettings` but fails `CheckMargin`, and a margin of `[-5]` fails the source's converter check but passes `CheckNotNegative`.
- HeadingScanner.HeadingOf: its contract states only the level range. The text it records is the stripped inner text and the id is the quoted id or `heading-k`, by its definition; `ReadHeading` is proved to compute it and `EntryTargets` states which id an entry links to.
