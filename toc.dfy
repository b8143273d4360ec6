/**
 * `generateTableOfContents`: collect the headings of a document, give every
 * heading without an `id=` attribute the id `heading-k` (k counting all
 * heading matches from zero), build the nested list of links, and put it
 * after the first `<body>` or, failing that, in front of the document.
 *
 * The functions state what the result is; the methods follow the source's
 * three passes (the `exec` loop, the `replace` pass with its counter, the
 * builder loop) and are proved to compute those functions.
 */
module TableOfContents {
  import opened Wrappers
  import opened Text
  import opened HeadingScanner
  import opened TocBuilder

  /** The attributes given to a heading that has no `id=`: the synthesized
      id, then the original attributes. */
  function IdAttrs(k: nat, attrs: string): string {
    " id=\"heading-" + NatToString(k) + "\"" + attrs
  }

  /** What the replace callback returns for match `m` when the counter is
      `k`: the match itself when its attributes mention `id=`, otherwise the
      heading rebuilt with the synthesized id. */
  function Replacement(s: string, m: HeadingMatch, k: nat): string
    requires m.start <= m.end <= |s|
  {
    if Contains(m.attrs, "id=") then s[m.start..m.end]
    else "<h" + [m.digit] + IdAttrs(k, m.attrs) + ">" + m.inner + "</h" + [m.digit] + ">"
  }

  /** The replace pass over the matches `ms` from index `pos` on, the counter
      standing at `k`: text between matches is copied, each match replaced. */
  function RewriteFrom(s: string, pos: nat, ms: seq<HeadingMatch>, k: nat): string
    requires pos <= |s| && Ordered(ms, pos, |s|)
    decreases |ms|
  {
    if ms == [] then s[pos..]
    else s[pos..ms[0].start] + Replacement(s, ms[0], k) + RewriteFrom(s, ms[0].end, ms[1..], k + 1)
  }

  /** `html.replace(headingRegex, callback)`: the callback sees the same
      matches the `exec` loop saw. */
  function Rewrite(s: string): string {
    RewriteFrom(s, 0, Scan(s, 0), 0)
  }

  /** Insert the table of contents right after the first `<body>`, or in
      front of the document when there is none. */
  function InsertToc(doc: string, toc: string): (r: string)
    ensures |r| == |doc| + |toc|
  {
    if Contains(doc, "<body>") then ReplaceFirst(doc, "<body>", "<body>" + toc)
    else toc + doc
  }

  /** The result of `generateTableOfContents(html)`. */
  function GeneratedToc(html: string): (r: string)
    ensures Scan(html, 0) == [] ==> r == html
  {
    var ms := Scan(html, 0);
    if ms == [] then html
    else
      assert AllLevelDigits(ms);
      InsertToc(Rewrite(html), TocHtml(Headings(ms)))
  }

  // ----------------------------------------------------------- lemmas

  /** A heading whose attributes mention `id=` is left as it was; when all do,
      the replace pass returns its input unchanged. */
  lemma {:induction false} RewriteFromUnchanged(s: string, pos: nat, ms: seq<HeadingMatch>, k: nat)
    requires pos <= |s| && Ordered(ms, pos, |s|)
    requires forall i :: 0 <= i < |ms| ==> Contains(ms[i].attrs, "id=")
    ensures RewriteFrom(s, pos, ms, k) == s[pos..]
    decreases |ms|
  {
    if ms != [] {
      var m := ms[0];
      assert RewriteFrom(s, pos, ms, k)
        == s[pos..m.start] + Replacement(s, m, k) + RewriteFrom(s, m.end, ms[1..], k + 1);
      assert Replacement(s, m, k) == s[m.start..m.end];
      RewriteFromUnchanged(s, m.end, ms[1..], k + 1);
      assert s[pos..m.start] + s[m.start..m.end] == s[pos..m.end];
      assert s[pos..m.end] + s[m.end..] == s[pos..];
    }
  }

  /** The synthesized attributes carry exactly the synthesized id: the id
      pattern finds `heading-k` in them whatever attributes follow. */
  lemma IdAttrsQuotedId(k: nat, attrs: string)
    ensures QuotedId(IdAttrs(k, attrs)) == Some("heading-" + NatToString(k))
  {
    var id := "heading-" + NatToString(k);
    var a := IdAttrs(k, attrs);
    assert a == " id=\"" + id + "\"" + attrs;
    assert IdAt(a, 0).None?;
    assert forall i :: 0 <= i < |id| ==> !IsQuote(id[i]) by {
      forall i | 0 <= i < |id| ensures !IsQuote(id[i]) {
        if i >= 8 {
          assert id[i] == NatToString(k)[i - 8];
        }
      }
    }
    NonQuoteRunStops(a, 5, |id|);
    assert a[5..5 + |id|] == id;
    assert IdAt(a, 1) == Some(id);
    assert QuotedIdFrom(a, 1) == Some(id);
  }

  /** `NonQuoteRun` stops at the first quote. */
  lemma NonQuoteRunStops(a: string, i: nat, n: nat)
    requires i + n < |a| && IsQuote(a[i + n])
    requires forall k :: i <= k < i + n ==> !IsQuote(a[k])
    ensures NonQuoteRun(a, i) == n
  {
  }

  /** Where each table-of-contents link points. A heading without `id=` is
      rebuilt with `id="heading-k"` and its entry links to `#heading-k`. A
      heading with a quoted id keeps it and its entry links to it. A heading
      whose attributes mention `id=` without a quoted value (`data-id=x`,
      `id=intro`) is left unchanged while its entry links to `#heading-k`,
      which then names no heading the rewrite produced. */
  lemma EntryTargets(m: HeadingMatch, s: string, k: nat)
    requires IsLevelDigit(m.digit) && m.start <= m.end <= |s|
    ensures !Contains(m.attrs, "id=") ==>
      HeadingOf(m, k).id == "heading-" + NatToString(k) &&
      QuotedId(IdAttrs(k, m.attrs)) == Some(HeadingOf(m, k).id)
    ensures QuotedId(m.attrs).Some? ==>
      Replacement(s, m, k) == s[m.start..m.end] && QuotedId(m.attrs) == Some(HeadingOf(m, k).id)
    ensures Contains(m.attrs, "id=") && QuotedId(m.attrs).None? ==>
      Replacement(s, m, k) == s[m.start..m.end] && HeadingOf(m, k).id == "heading-" + NatToString(k)
  {
    IdAttrsQuotedId(k, m.attrs);
  }

  /** An unquoted id is such a case: the heading keeps `id=intro` and its
      entry links to `#heading-0`. */
  lemma UnquotedIdDangles()
    ensures Contains(" id=intro", "id=") && QuotedId(" id=intro").None?
  {
    var a := " id=intro";
    assert OccursAt(a, "id=", 1);
    assert IndexOfFrom(a, "id=", 1).Some?;
    assert IndexOfFrom(a, "id=", 0).Some?;
    assert forall j :: 0 <= j < |a| ==> !IsQuote(a[j]);
    assert forall j :: 0 <= j ==> IdAt(a, j).None?;
  }

  /** Another attribute ending in `id=` is a second such case: a heading
      with ` data-id="x"` counts as having an id and is left unchanged, yet
      the id pattern reads `x`, so its entry links to `#x`, which no `id`
      attribute names. */
  lemma OtherAttributeIdMisdirects()
    ensures Contains(DataIdAttrs, "id=") && QuotedId(DataIdAttrs) == Some("x")
  {
    DataIdMatch();
  }

  /** The attributes ` data-id="x"`. */
  const DataIdAttrs: string := " data-id=\"x\""

  /** The id pattern first matches ` data-id="x"` inside `data-id`, at
      index 6, reading `x`. */
  lemma DataIdMatch()
    ensures IdAt(DataIdAttrs, 6) == Some("x")
    ensures forall i :: 0 <= i < 6 ==> IdAt(DataIdAttrs, i).None?
  {
    var a := DataIdAttrs;
    assert NonQuoteRun(a, 11) == 0;
    assert NonQuoteRun(a, 10) == 1;
    assert a[6..9] == "id=" && a[10..11] == "x";
    forall i | 0 <= i < 6 ensures IdAt(a, i).None? {
      assert a[i] == " data-"[i];
      assert a[i..i + 3][0] == a[i];
    }
  }

  /** The table of contents goes right after the first `<body>`, or in front
      of the document; nothing of the document is lost or reordered. */
  lemma InsertTocPlacement(doc: string, toc: string)
    ensures IndexOf(doc, "<body>").Some? ==>
      var i := IndexOf(doc, "<body>").value;
      i + 6 <= |doc| && InsertToc(doc, toc) == doc[..i + 6] + toc + doc[i + 6..]
    ensures IndexOf(doc, "<body>").None? ==> InsertToc(doc, toc) == toc + doc
  {
    if IndexOf(doc, "<body>").Some? {
      var i := IndexOf(doc, "<body>").value;
      ReplaceFirstWraps(doc, "<body>", "", toc, i);
      assert "" + "<body>" + toc == "<body>" + toc;
      assert doc[..i] + doc[i..i + 6] == doc[..i + 6];
    }
  }

  // ---------------------------------------------------------- methods

  /** The `exec` loop: one heading per match, the counter advancing on every
      match. */
  method CollectHeadings(html: string) returns (headings: seq<Heading>)
    ensures AllLevelDigits(Scan(html, 0)) && headings == Headings(Scan(html, 0))
  {
    headings := [];
    var lastIndex := 0;
    var index := 0;
    ghost var found: seq<HeadingMatch> := [];
    ghost var all := Scan(html, 0);
    var next := NextMatch(html, lastIndex);
    while next.Some?
      invariant lastIndex <= |html|
      invariant next == NextMatch(html, lastIndex)
      invariant all == found + Scan(html, lastIndex)
      invariant index == |found| && AllLevelDigits(found) && headings == Headings(found)
      decreases |html| - lastIndex
    {
      var m := next.value;
      var h := ReadHeading(m, index);
      CollectStep(html, lastIndex, found);
      headings := headings + [h];
      index := index + 1;
      found := found + [m];
      lastIndex := m.end;
      next := NextMatch(html, lastIndex);
    }
    assert Scan(html, lastIndex) == [];
    assert found == Scan(html, 0);
  }

  /** The body of the `exec` loop for one match: the level from the tag's
      digit, the text without tags, the quoted id or `heading-<index>`. */
  method ReadHeading(m: HeadingMatch, index: nat) returns (h: Heading)
    requires IsLevelDigit(m.digit)
    ensures h == HeadingOf(m, index)
  {
    var level := m.digit as int - '0' as int;
    var text := StripTags(m.inner);
    var id := "";
    var idMatch := QuotedId(m.attrs);
    if idMatch.Some? {
      id := idMatch.value;
    } else {
      id := "heading-" + NatToString(index);
    }
    h := Heading(level, text, id);
  }

  /** One iteration of the `exec` loop records the next match and its heading:
      the matches found so far, followed by the rest of the scan, stay the same. */
  lemma CollectStep(html: string, pos: nat, found: seq<HeadingMatch>)
    requires pos <= |html| && NextMatch(html, pos).Some? && AllLevelDigits(found)
    ensures var m := NextMatch(html, pos).value;
      && pos < m.end <= |html|
      && found + Scan(html, pos) == (found + [m]) + Scan(html, m.end)
      && AllLevelDigits(found + [m]) && Headings(found + [m]) == Headings(found) + [HeadingOf(m, |found|)]
  {
    var m := NextMatch(html, pos).value;
    ScanStep(html, pos);
    AppendAssoc(found, [m], Scan(html, m.end));
    HeadingsAppend(found, m);
  }

  /** The replace pass: the callback bumps the counter on every match and
      rebuilds the headings without `id=`. */
  method AddHeadingIds(html: string) returns (out: string)
    ensures out == Rewrite(html)
  {
    out := "";
    var lastIndex := 0;
    var index := 0;
    var next := NextMatch(html, lastIndex);
    while next.Some?
      invariant lastIndex <= |html|
      invariant next == NextMatch(html, lastIndex)
      invariant out + RewriteFrom(html, lastIndex, Scan(html, lastIndex), index) == Rewrite(html)
      decreases |html| - lastIndex
    {
      var m := next.value;
      var replacement;
      if !Contains(m.attrs, "id=") {
        replacement := "<h" + [m.digit] + IdAttrs(index, m.attrs) + ">" + m.inner + "</h" + [m.digit] + ">";
        index := index + 1;
      } else {
        replacement := html[m.start..m.end];
        index := index + 1;
      }
      var gap := html[lastIndex..m.start];
      ScanStep(html, lastIndex);
      assert RewriteFrom(html, lastIndex, Scan(html, lastIndex), index - 1)
        == gap + replacement + RewriteFrom(html, m.end, Scan(html, m.end), index);
      AppendAssoc(out, gap + replacement, RewriteFrom(html, m.end, Scan(html, m.end), index));
      out := out + (gap + replacement);
      lastIndex := m.end;
      next := NextMatch(html, lastIndex);
    }
    assert Scan(html, lastIndex) == [];
    out := out + html[lastIndex..];
  }

  /** `generateTableOfContents(html)`. A document without headings comes
      back unchanged. */
  method GenerateTableOfContents(html: string) returns (r: string)
    ensures r == GeneratedToc(html)
    ensures (forall p :: MatchAt(html, p).None?) ==> r == html
  {
    var headings := CollectHeadings(html);
    if |headings| == 0 {
      return html;
    }
    var modified := AddHeadingIds(html);
    var toc := BuildTocHtml(headings);
    if Contains(modified, "<body>") {
      modified := ReplaceFirst(modified, "<body>", "<body>" + toc);
    } else {
      modified := toc + modified;
    }
    r := modified;
  }
}
