/**
 * `applyPDFStyles`: the print style sheet built from the settings and the
 * three ways it is put into the document. The style sheet is modelled as a
 * list of rules (a selector and its declarations in order) rendered without
 * the indentation and line breaks of the source's template.
 */
module PdfStyles {
  import opened Wrappers
  import opened Text
  import opened JsValues
  import opened PrintSettings

  /** A CSS rule; `media` is empty for a plain rule, otherwise the rule sits
      inside `@media <media>`. */
  datatype CssRule = CssRule(media: string, selector: string, declarations: seq<string>)

  function Plain(selector: string, declarations: seq<string>): CssRule {
    CssRule("", selector, declarations)
  }

  /** `@page`: the paper size and orientation, then the four margins in
      millimetres in the order top, right, bottom, left. */
  function PageRule(st: Settings): (r: CssRule)
    ensures r.selector == "@page" && |r.declarations| == 2
    ensures r.declarations[0] == "size: " + ToText(st.pageSize) + " " + ToText(st.orientation)
    ensures r.declarations[1] == "margin: " + ToText(st.marginTop) + "mm " + ToText(st.marginRight) + "mm "
      + ToText(st.marginBottom) + "mm " + ToText(st.marginLeft) + "mm"
  {
    Plain("@page", [
      "size: " + ToText(st.pageSize) + " " + ToText(st.orientation),
      "margin: " + ToText(st.marginTop) + "mm " + ToText(st.marginRight) + "mm "
        + ToText(st.marginBottom) + "mm " + ToText(st.marginLeft) + "mm"])
  }

  /** The fixed typography of the document and of the table of contents. */
  const TypographyRules: seq<CssRule> := [
    Plain("body", ["font-family: 'Malgun Gothic', 'Segoe UI', Arial, sans-serif", "line-height: 1.6", "color: #333"]),
    Plain(".table-of-contents", ["border: 1px solid #ddd", "padding: 20px", "margin-bottom: 30px",
      "border-radius: 5px", "background-color: #f9f9f9"]),
    Plain(".table-of-contents h2", ["margin-top: 0", "color: #2563eb"]),
    Plain(".table-of-contents ul", ["list-style-type: none", "padding-left: 20px"]),
    Plain(".table-of-contents li", ["margin: 5px 0"]),
    Plain(".table-of-contents a", ["text-decoration: none", "color: #2563eb"]),
    Plain(".table-of-contents a:hover", ["text-decoration: underline"]),
    Plain(".page-break", ["page-break-before: always"]),
    Plain(".avoid-break", ["page-break-inside: avoid"]),
    Plain("h1, h2, h3, h4, h5, h6", ["page-break-after: avoid", "margin-top: 1.5em", "color: #1e293b"]),
    Plain("pre", ["background-color: #f4f4f4", "border: 1px solid #ddd", "border-radius: 4px",
      "padding: 10px", "overflow-x: auto"]),
    Plain("code", ["background-color: #f4f4f4", "padding: 2px 4px", "border-radius: 3px",
      "font-family: 'Courier New', monospace"]),
    Plain("blockquote", ["border-left: 4px solid #2563eb", "padding-left: 15px", "margin-left: 0",
      "color: #666", "font-style: italic"])
  ]

  const WatermarkSelector: string := "body::before"

  /** The watermark: the text, centred and turned by -45 degrees. */
  function WatermarkRule(text: string): CssRule {
    Plain(WatermarkSelector, [
      "content: \"" + text + "\"", "position: fixed", "top: 50%", "left: 50%",
      "transform: translate(-50%, -50%) rotate(-45deg)", "font-size: 72px",
      "color: rgba(0, 0, 0, 0.1)", "z-index: -1", "white-space: nowrap", "pointer-events: none"])
  }

  /** Keep background colours when printing. */
  const PrintRule: CssRule := CssRule("print", "body", [
    "-webkit-print-color-adjust: exact !important", "print-color-adjust: exact !important"])

  /** The rules of the style sheet, in order. */
  function StyleRules(st: Settings): (rs: seq<CssRule>)
    ensures |rs| == |TypographyRules| + (if Truthy(st.watermarkText) then 3 else 2)
  {
    [PageRule(st)] + TypographyRules
      + (if Truthy(st.watermarkText) then [WatermarkRule(ToText(st.watermarkText))] else [])
      + [PrintRule]
  }

  function Join(ds: seq<string>): string
    decreases |ds|
  {
    if ds == [] then "" else ds[0] + "; " + Join(ds[1..])
  }

  function RuleText(r: CssRule): string {
    var body := r.selector + " { " + Join(r.declarations) + "}";
    if r.media == "" then body else "@media " + r.media + " { " + body + " }"
  }

  function RulesText(rs: seq<CssRule>): string
    decreases |rs|
  {
    if rs == [] then "" else RuleText(rs[0]) + " " + RulesText(rs[1..])
  }

  /** The `<style>` element. */
  function StyleBlock(st: Settings): (r: string)
    ensures |r| >= 15 && r[..7] == "<style>" && r[|r| - 8..] == "</style>"
  {
    "<style>" + RulesText(StyleRules(st)) + "</style>"
  }

  /** Put a style element into a document: before the first `</head>`; else
      in a new head right after the first `<html>`; else around the whole
      input. */
  function InjectStyles(html: string, styles: string): (r: string)
    ensures |r| >= |html| + |styles|
  {
    if Contains(html, "</head>") then ReplaceFirst(html, "</head>", styles + "</head>")
    else if Contains(html, "<html>") then ReplaceFirst(html, "<html>", "<html><head>" + styles + "</head>")
    else "<html><head>" + styles + "</head><body>" + html + "</body></html>"
  }

  /** `applyPDFStyles(html, settings)`. */
  function ApplyPdfStyles(html: string, st: Settings): (r: string)
    ensures |r| >= |html| + |StyleBlock(st)|
  {
    InjectStyles(html, StyleBlock(st))
  }

  // ----------------------------------------------------------- lemmas

  /** The style sheet opens with the `@page` rule, size before margin, and
      ends with the print rule. */
  lemma PageRuleFirst(st: Settings)
    ensures var rs := StyleRules(st);
      |rs| >= 2 && rs[0] == PageRule(st) && rs[|rs| - 1] == PrintRule
  {
  }

  /** There is a `body::before` rule exactly when the watermark text is
      truthy, and it is then the watermark rule with the text interpolated. */
  lemma WatermarkIffTruthy(st: Settings)
    ensures (exists i :: 0 <= i < |StyleRules(st)| && StyleRules(st)[i].selector == WatermarkSelector)
      <==> Truthy(st.watermarkText)
    ensures Truthy(st.watermarkText) ==> WatermarkRule(ToText(st.watermarkText)) in StyleRules(st)
  {
    var rs := StyleRules(st);
    var w := if Truthy(st.watermarkText) then [WatermarkRule(ToText(st.watermarkText))] else [];
    assert rs == [PageRule(st)] + TypographyRules + w + [PrintRule];
    assert forall i :: 0 <= i < |TypographyRules| ==> TypographyRules[i].selector != WatermarkSelector;
    if Truthy(st.watermarkText) {
      assert rs[1 + |TypographyRules|] == WatermarkRule(ToText(st.watermarkText));
    } else {
      forall i | 0 <= i < |rs| ensures rs[i].selector != WatermarkSelector {
        if 1 <= i < 1 + |TypographyRules| {
          assert rs[i] == TypographyRules[i - 1];
        }
      }
    }
  }

  /** The watermark rule turns the text by -45 degrees. */
  lemma WatermarkRotated(text: string)
    ensures "transform: translate(-50%, -50%) rotate(-45deg)" in WatermarkRule(text).declarations
    ensures WatermarkRule(text).declarations[0] == "content: \"" + text + "\""
  {
    assert WatermarkRule(text).declarations[4] == "transform: translate(-50%, -50%) rotate(-45deg)";
  }

  lemma OccursContains(s: string, pat: string, j: nat)
    requires OccursAt(s, pat, j)
    ensures Contains(s, pat)
  {
    assert IndexOfFrom(s, pat, 0).Some?;
  }

  /** The three tiers: the input survives intact around what is inserted. */
  lemma InjectTiers(html: string, styles: string)
    ensures IndexOf(html, "</head>").Some? ==>
      var i := IndexOf(html, "</head>").value;
      InjectStyles(html, styles) == html[..i] + styles + html[i..]
    ensures IndexOf(html, "</head>").None? && IndexOf(html, "<html>").Some? ==>
      var i := IndexOf(html, "<html>").value;
      i + 6 <= |html| && InjectStyles(html, styles) == html[..i + 6] + "<head>" + styles + "</head>" + html[i + 6..]
    ensures IndexOf(html, "</head>").None? && IndexOf(html, "<html>").None? ==>
      InjectStyles(html, styles) == "<html><head>" + styles + "</head><body>" + html + "</body></html>"
  {
    if IndexOf(html, "</head>").Some? {
      HeadTier(html, styles, IndexOf(html, "</head>").value);
    } else if IndexOf(html, "<html>").Some? {
      HtmlTier(html, styles, IndexOf(html, "<html>").value);
    }
  }

  lemma HeadTier(html: string, styles: string, i: nat)
    requires IndexOf(html, "</head>") == Some(i)
    ensures InjectStyles(html, styles) == html[..i] + styles + html[i..]
  {
    ReplaceFirstWraps(html, "</head>", styles, "", i);
    assert styles + "</head>" + "" == styles + "</head>";
    assert html[i..i + 7] + html[i + 7..] == html[i..];
  }

  lemma HtmlTier(html: string, styles: string, i: nat)
    requires IndexOf(html, "</head>").None? && IndexOf(html, "<html>") == Some(i)
    ensures i + 6 <= |html|
    ensures InjectStyles(html, styles) == html[..i + 6] + "<head>" + styles + "</head>" + html[i + 6..]
  {
    ReplaceFirstWraps(html, "<html>", "", "<head>" + styles + "</head>", i);
    assert "" + "<html>" + ("<head>" + styles + "</head>") == "<html><head>" + styles + "</head>";
    assert html[..i] + "" + html[i..i + 6] == html[..i + 6];
  }

  /** Whatever the input, the result has a `</head>`. */
  lemma InjectedHasHeadClose(html: string, styles: string)
    ensures Contains(InjectStyles(html, styles), "</head>")
  {
    InjectTiers(html, styles);
    var r := InjectStyles(html, styles);
    if IndexOf(html, "</head>").Some? {
      var i := IndexOf(html, "</head>").value;
      assert OccursAt(html, "</head>", i);
      assert r[i + |styles|..i + |styles| + 7] == html[i..i + 7];
      OccursContains(r, "</head>", i + |styles|);
    } else if IndexOf(html, "<html>").Some? {
      var i := IndexOf(html, "<html>").value;
      assert r[i + 12 + |styles|..i + 12 + |styles| + 7] == "</head>";
      OccursContains(r, "</head>", i + 12 + |styles|);
    } else {
      assert r[12 + |styles|..12 + |styles| + 7] == "</head>";
      OccursContains(r, "</head>", 12 + |styles|);
    }
  }

  /** Nothing stops a second application: it takes the first tier and adds
      a second style element. */
  lemma NoInjectionGuard(html: string, styles: string)
    ensures var once := InjectStyles(html, styles);
      |InjectStyles(once, styles)| == |once| + |styles|
  {
    var once := InjectStyles(html, styles);
    InjectedHasHeadClose(html, styles);
    InjectTiers(once, styles);
  }
}
