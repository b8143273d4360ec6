/**
 * The nested list the table of contents is built from. The builder walks the
 * headings in document order, opening `<ul>`s to go deeper and closing them
 * to come back up before each entry, and closing every open list at the end.
 * The walk is stated here as a sequence of tokens; `Render` turns tokens into
 * the markup the builder concatenates.
 */
module TocBuilder {
  import opened Text
  import opened HeadingScanner

  datatype TocToken = Open | Close | Entry(id: string, text: string)

  function Opens(n: nat): (r: seq<TocToken>)
    ensures |r| == n && forall i :: 0 <= i < n ==> r[i] == Open
  {
    seq(n, _ => Open)
  }

  function Closes(n: nat): (r: seq<TocToken>)
    ensures |r| == n && forall i :: 0 <= i < n ==> r[i] == Close
  {
    seq(n, _ => Close)
  }

  /** What is emitted before an entry at level `to` when the current level is
      `from`: enough `<ul>`s or `</ul>`s to get there. */
  function Adjust(from: nat, to: nat): seq<TocToken> {
    if to > from then Opens(to - from)
    else if to < from then Closes(from - to)
    else []
  }

  function EntryOf(h: Heading): TocToken {
    Entry(h.id, h.text)
  }

  /** `currentLevel` after the given headings have been emitted. */
  function LevelAfter(hs: seq<Heading>): nat {
    if hs == [] then 1 else hs[|hs| - 1].level
  }

  /** The tokens the `forEach` emits for the given headings, in order. */
  function Steps(hs: seq<Heading>): seq<TocToken>
    decreases |hs|
  {
    if hs == [] then []
    else
      var init := hs[..|hs| - 1];
      Steps(init) + Adjust(LevelAfter(init), hs[|hs| - 1].level) + [EntryOf(hs[|hs| - 1])]
  }

  /** The whole list: the outer `<ul>`, the steps, and one `</ul>` per open level. */
  function TocTokens(hs: seq<Heading>): seq<TocToken> {
    [Open] + Steps(hs) + Closes(LevelAfter(hs))
  }

  predicate LevelsPositive(hs: seq<Heading>) {
    forall i :: 0 <= i < |hs| ==> hs[i].level >= 1
  }

  // ----------------------------------------------------------- depth

  function Delta(t: TocToken): int {
    match t
    case Open => 1
    case Close => -1
    case Entry(_, _) => 0
  }

  /** Opened minus closed lists. */
  function Depth(ts: seq<TocToken>): int
    decreases |ts|
  {
    if ts == [] then 0 else Depth(ts[..|ts| - 1]) + Delta(ts[|ts| - 1])
  }

  lemma {:induction false} DepthConcat(a: seq<TocToken>, b: seq<TocToken>)
    ensures Depth(a + b) == Depth(a) + Depth(b)
    decreases |b|
  {
    if b == [] {
      assert a + b == a;
    } else {
      var b' := b[..|b| - 1];
      assert (a + b)[..|a + b| - 1] == a + b';
      assert (a + b)[|a + b| - 1] == b[|b| - 1];
      DepthConcat(a, b');
    }
  }

  lemma {:induction false} DepthOpens(n: nat)
    ensures Depth(Opens(n)) == n
  {
    if n > 0 {
      assert Opens(n)[..n - 1] == Opens(n - 1);
      DepthOpens(n - 1);
    }
  }

  lemma {:induction false} DepthCloses(n: nat)
    ensures Depth(Closes(n)) == -(n as int)
  {
    if n > 0 {
      assert Closes(n)[..n - 1] == Closes(n - 1);
      DepthCloses(n - 1);
    }
  }

  /** Going from level `from` to level `to` changes the depth by `to - from`
      and passes through no level below the lower of the two. */
  lemma AdjustDepth(from: nat, to: nat)
    ensures Depth(Adjust(from, to)) == to - from
    ensures forall j :: 0 <= j <= |Adjust(from, to)| ==>
      from + Depth(Adjust(from, to)[..j]) >= (if from < to then from else to)
  {
    var adj := Adjust(from, to);
    forall j | 0 <= j <= |adj|
      ensures from + Depth(adj[..j]) >= (if from < to then from else to)
      ensures j == |adj| ==> Depth(adj[..j]) == to - from
    {
      if to > from {
        assert adj[..j] == Opens(j);
        DepthOpens(j);
      } else if to < from {
        assert adj[..j] == Closes(j);
        DepthCloses(j);
      }
    }
    assert adj[..|adj|] == adj;
  }

  /** If no non-empty prefix of `a` and no prefix of `b` taken after `a`
      goes below `lo`, no non-empty prefix of `a + b` does. */
  lemma PrefixDepthConcat(a: seq<TocToken>, b: seq<TocToken>, lo: int)
    requires |a| >= 1
    requires forall k :: 1 <= k <= |a| ==> Depth(a[..k]) >= lo
    requires forall j :: 0 <= j <= |b| ==> Depth(a) + Depth(b[..j]) >= lo
    ensures forall k :: 1 <= k <= |a + b| ==> Depth((a + b)[..k]) >= lo
  {
    forall k | 1 <= k <= |a + b| ensures Depth((a + b)[..k]) >= lo {
      if k <= |a| {
        assert (a + b)[..k] == a[..k];
      } else {
        assert (a + b)[..k] == a + b[..k - |a|];
        DepthConcat(a, b[..k - |a|]);
      }
    }
  }

  /** Inside the outer list the depth never falls below one, and right after
      the entry of a heading it equals that heading's level. */
  lemma {:induction false} StepsDepth(hs: seq<Heading>)
    requires LevelsPositive(hs)
    ensures Depth([Open] + Steps(hs)) == LevelAfter(hs)
    ensures forall k :: 1 <= k <= 1 + |Steps(hs)| ==> Depth(([Open] + Steps(hs))[..k]) >= 1
    decreases |hs|
  {
    if hs == [] {
      assert [Open] + Steps(hs) == [Open];
      assert [Open][..0] == [];
      assert [Open][..1] == [Open];
    } else {
      var init, h := hs[..|hs| - 1], hs[|hs| - 1];
      assert LevelsPositive(init);
      StepsDepth(init);
      var adj, e := Adjust(LevelAfter(init), h.level), EntryOf(h);
      StepDepth([Open] + Steps(init), LevelAfter(init), h.level, e);
      assert Steps(hs) == Steps(init) + adj + [e];
      AppendAssoc([Open], Steps(init) + adj, [e]);
      AppendAssoc([Open], Steps(init), adj);
    }
  }

  /** Appending one step at level `to` to a list at depth `from` that never
      went below one: depth `to`, and still never below one. */
  lemma StepDepth(a: seq<TocToken>, from: nat, to: nat, e: TocToken)
    requires e.Entry? && |a| >= 1 && Depth(a) == from && from >= 1 && to >= 1
    requires forall k :: 1 <= k <= |a| ==> Depth(a[..k]) >= 1
    ensures Depth(a + Adjust(from, to) + [e]) == to
    ensures forall k :: 1 <= k <= |a + Adjust(from, to) + [e]| ==> Depth((a + Adjust(from, to) + [e])[..k]) >= 1
  {
    var adj := Adjust(from, to);
    AdjustDepth(from, to);
    DepthConcat(a, adj);
    PrefixDepthConcat(a, adj, 1);
    assert [e][..0] == [] && [e][..1] == [e];
    assert Depth([e]) == 0 by { assert [e][..|[e]| - 1] == []; }
    DepthConcat(a + adj, [e]);
    PrefixDepthConcat(a + adj, [e], 1);
  }

  /** The list is balanced: as many `</ul>` as `<ul>`, and no prefix closes
      more lists than it has opened. */
  lemma TocNesting(hs: seq<Heading>)
    requires LevelsPositive(hs)
    ensures Depth(TocTokens(hs)) == 0
    ensures forall k :: 0 <= k <= |TocTokens(hs)| ==> Depth(TocTokens(hs)[..k]) >= 0
  {
    var a := [Open] + Steps(hs);
    var c := Closes(LevelAfter(hs));
    StepsDepth(hs);
    DepthCloses(LevelAfter(hs));
    DepthConcat(a, c);
    forall j | 0 <= j <= |c| ensures Depth(a) + Depth(c[..j]) >= 0 {
      assert c[..j] == Closes(j);
      DepthCloses(j);
    }
    PrefixDepthConcat(a, c, 0);
    assert (a + c)[..0] == [];
  }

  /** Right after the entry of the `i`-th heading, the number of open lists is
      that heading's level. */
  lemma EntryDepth(hs: seq<Heading>, i: nat)
    requires LevelsPositive(hs) && i < |hs|
    ensures Depth([Open] + Steps(hs[..i + 1])) == hs[i].level
  {
    StepsDepth(hs[..i + 1]);
  }

  // --------------------------------------------------------- entries

  /** The entry tokens, in order. */
  function Entries(ts: seq<TocToken>): seq<TocToken>
    decreases |ts|
  {
    if ts == [] then []
    else if ts[0].Entry? then [ts[0]] + Entries(ts[1..])
    else Entries(ts[1..])
  }

  lemma {:induction false} EntriesConcat(a: seq<TocToken>, b: seq<TocToken>)
    ensures Entries(a + b) == Entries(a) + Entries(b)
    decreases |a|
  {
    if a == [] {
      assert a + b == b;
    } else {
      assert (a + b)[0] == a[0] && (a + b)[1..] == a[1..] + b;
      EntriesConcat(a[1..], b);
    }
  }

  lemma {:induction false} NoEntriesWithout(ts: seq<TocToken>)
    requires forall i :: 0 <= i < |ts| ==> !ts[i].Entry?
    ensures Entries(ts) == []
    decreases |ts|
  {
    if ts != [] {
      NoEntriesWithout(ts[1..]);
    }
  }

  /** One entry per heading, in document order, linking to its id and showing
      its text. */
  lemma {:induction false} TocEntries(hs: seq<Heading>)
    ensures Entries(TocTokens(hs)) == seq(|hs|, i requires 0 <= i < |hs| => EntryOf(hs[i]))
    decreases |hs|
  {
    NoEntriesWithout([Open]);
    NoEntriesWithout(Closes(LevelAfter(hs)));
    EntriesConcat([Open], Steps(hs));
    EntriesConcat([Open] + Steps(hs), Closes(LevelAfter(hs)));
    StepsEntries(hs);
  }

  lemma {:induction false} StepsEntries(hs: seq<Heading>)
    ensures Entries(Steps(hs)) == seq(|hs|, i requires 0 <= i < |hs| => EntryOf(hs[i]))
    decreases |hs|
  {
    if hs != [] {
      var init, h := hs[..|hs| - 1], hs[|hs| - 1];
      StepsEntries(init);
      var adj := Adjust(LevelAfter(init), h.level);
      NoEntriesWithout(adj);
      EntriesConcat(Steps(init), adj);
      EntriesConcat(Steps(init) + adj, [EntryOf(h)]);
      assert Entries([EntryOf(h)]) == [EntryOf(h)] by { assert [EntryOf(h)][1..] == []; }
    }
  }

  // ---------------------------------------------------------- markup

  function TokenText(t: TocToken): string {
    match t
    case Open => "<ul>"
    case Close => "</ul>"
    case Entry(id, text) => "<li><a href=\"#" + id + "\">" + text + "</a></li>"
  }

  function Render(ts: seq<TocToken>): string
    decreases |ts|
  {
    if ts == [] then "" else TokenText(ts[0]) + Render(ts[1..])
  }

  lemma {:induction false} RenderConcat(a: seq<TocToken>, b: seq<TocToken>)
    ensures Render(a + b) == Render(a) + Render(b)
    decreases |a|
  {
    if a == [] {
      assert a + b == b;
    } else {
      assert (a + b)[0] == a[0] && (a + b)[1..] == a[1..] + b;
      RenderConcat(a[1..], b);
    }
  }

  lemma {:induction false} RenderOpens(n: nat)
    ensures Render(Opens(n)) == Repeat("<ul>", n)
  {
    if n > 0 {
      assert Opens(n)[1..] == Opens(n - 1);
      RenderOpens(n - 1);
    }
  }

  lemma {:induction false} RenderCloses(n: nat)
    ensures Render(Closes(n)) == Repeat("</ul>", n)
  {
    if n > 0 {
      assert Closes(n)[1..] == Closes(n - 1);
      RenderCloses(n - 1);
    }
  }

  /** The title block the list follows; the heading reads "table of contents" in Korean. */
  const TocTitle: string := "<div class=\"table-of-contents\"><h2>\U{BAA9}\U{CC28}</h2>"

  /** The close of the block and the page break that follows it. */
  const TocFooter: string := "</div><div class=\"page-break\"></div>"

  /** The table-of-contents markup for the given headings. */
  function TocHtml(hs: seq<Heading>): (r: string)
    ensures |r| >= |TocTitle| + |TocFooter|
    ensures r[..|TocTitle|] == TocTitle && r[|r| - |TocFooter|..] == TocFooter
  {
    TocTitle + Render(TocTokens(hs)) + TocFooter
  }

  /** The `<ul>`s or `</ul>`s the builder appends to go from level `cur` to
      level `to`. */
  function AdjustText(cur: nat, to: nat): string {
    if to > cur then Repeat("<ul>", to - cur)
    else if to < cur then Repeat("</ul>", cur - to)
    else ""
  }

  lemma RenderAdjust(cur: nat, to: nat)
    ensures Render(Adjust(cur, to)) == AdjustText(cur, to)
  {
    if to > cur {
      RenderOpens(to - cur);
    } else if to < cur {
      RenderCloses(cur - to);
    } else {
      assert Adjust(cur, to) == [];
    }
  }

  /** One iteration of the builder appends the rendering of one step. */
  lemma RenderStep(hs: seq<Heading>, i: nat)
    requires i < |hs|
    ensures Render([Open] + Steps(hs[..i + 1])) ==
      Render([Open] + Steps(hs[..i])) + Render(Adjust(LevelAfter(hs[..i]), hs[i].level)) + TokenText(EntryOf(hs[i]))
  {
    var before := [Open] + Steps(hs[..i]);
    var cur, h := LevelAfter(hs[..i]), hs[i];
    var adj := Adjust(cur, h.level);
    assert hs[..i + 1][..i] == hs[..i];
    assert [Open] + Steps(hs[..i + 1]) == before + adj + [EntryOf(h)];
    RenderConcat(before, adj);
    RenderConcat(before + adj, [EntryOf(h)]);
    assert Render([EntryOf(h)]) == TokenText(EntryOf(h)) by {
      assert [EntryOf(h)][1..] == [];
    }
  }

  /** One iteration of the builder, with the title in front: appending the
      level adjustment and the entry extends the rendering by one step. */
  lemma BuildStep(hs: seq<Heading>, i: nat, before: string)
    requires i < |hs| && before == TocTitle + Render([Open] + Steps(hs[..i]))
    ensures before + AdjustText(LevelAfter(hs[..i]), hs[i].level) + TokenText(EntryOf(hs[i]))
      == TocTitle + Render([Open] + Steps(hs[..i + 1]))
    ensures LevelAfter(hs[..i + 1]) == hs[i].level
  {
    var list := Render([Open] + Steps(hs[..i]));
    var adjust := AdjustText(LevelAfter(hs[..i]), hs[i].level);
    var entry := TokenText(EntryOf(hs[i]));
    RenderStep(hs, i);
    RenderAdjust(LevelAfter(hs[..i]), hs[i].level);
    AppendAssoc(TocTitle, list, adjust);
    AppendAssoc(TocTitle, list + adjust, entry);
    assert hs[..i + 1][i] == hs[i];
  }

  /** The `forEach` callback: the `<ul>`s or `</ul>`s that take the list from
      the current level to the heading's level, then the heading's entry. */
  method AppendEntry(toc: string, currentLevel: nat, h: Heading) returns (out: string)
    ensures out == toc + AdjustText(currentLevel, h.level) + TokenText(EntryOf(h))
  {
    out := toc;
    if h.level > currentLevel {
      out := out + Repeat("<ul>", h.level - currentLevel);
    } else if h.level < currentLevel {
      out := out + Repeat("</ul>", currentLevel - h.level);
    }
    var entry := "<li><a href=\"#" + h.id + "\">" + h.text + "</a></li>";
    assert entry == TokenText(EntryOf(h));
    out := out + entry;
  }

  /** The builder: the title and the outer `<ul>`, the callback once per
      heading, then one `</ul>` per level still open and the footer. */
  method BuildTocHtml(headings: seq<Heading>) returns (toc: string)
    ensures toc == TocHtml(headings)
  {
    toc := TocTitle + "<ul>";
    var currentLevel := 1;
    var i := 0;
    assert headings[..0] == [];
    assert Render([Open]) == "<ul>" by { assert [Open][1..] == []; }
    while i < |headings|
      invariant 0 <= i <= |headings|
      invariant currentLevel == LevelAfter(headings[..i])
      invariant toc == TocTitle + Render([Open] + Steps(headings[..i]))
    {
      var h := headings[i];
      BuildStep(headings, i, toc);
      toc := AppendEntry(toc, currentLevel, h);
      currentLevel := h.level;
      i := i + 1;
    }
    assert headings[..i] == headings;
    RenderCloses(currentLevel);
    RenderConcat([Open] + Steps(headings), Closes(currentLevel));
    AppendAssoc(TocTitle, Render([Open] + Steps(headings)), Repeat("</ul>", currentLevel));
    toc := toc + Repeat("</ul>", currentLevel);
    toc := toc + TocFooter;
  }
}
