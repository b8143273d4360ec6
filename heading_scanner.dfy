/**
 * The heading pattern the table-of-contents generator runs over a document,
 * `<h([1-6])([^>]*)>(.*?)<\/h\1>` with the global and case-insensitive flags,
 * stated as functions: where a match starts, what it captures, and the
 * left-to-right sequence of matches `exec` returns. Also the id pattern run
 * on a heading's attributes and the tag stripping applied to its text.
 *
 * At a given start the pattern matches in at most one way: `[^>]*` must run
 * up to the first `>`, and the lazy `(.*?)` stops at the first closing tag
 * with the same digit, failing if a line terminator comes first.
 */
module HeadingScanner {
  import opened Wrappers
  import opened Text

  /** One match: `s[start..end]` is `<hD` + attrs + `>` + inner + `</hD>`. */
  datatype HeadingMatch = HeadingMatch(start: nat, end: nat, digit: char, attrs: string, inner: string)

  /** A heading as the generator records it. */
  datatype Heading = Heading(level: nat, text: string, id: string)

  predicate IsH(c: char) { c == 'h' || c == 'H' }

  predicate IsLevelDigit(c: char) { '1' <= c <= '6' }

  /** `</hD>` (with `h` in either case) starts at index `i`. */
  predicate ClosingTagAt(s: string, i: nat, d: char) {
    i + 5 <= |s| && s[i] == '<' && s[i + 1] == '/' && IsH(s[i + 2]) && s[i + 3] == d && s[i + 4] == '>'
  }

  /** What it means for `m` to be the match of the pattern starting at `p`. */
  predicate IsMatchAt(s: string, p: nat, m: HeadingMatch) {
    var gt := p + 3 + |m.attrs|;
    var close := gt + 1 + |m.inner|;
    && m.start == p && m.end == close + 5 && m.end <= |s|
    && s[p] == '<' && IsH(s[p + 1]) && m.digit == s[p + 2] && IsLevelDigit(m.digit)
    && s[p + 3..gt] == m.attrs && (forall k :: 0 <= k < |m.attrs| ==> m.attrs[k] != '>') && s[gt] == '>'
    && s[gt + 1..close] == m.inner && (forall k :: 0 <= k < |m.inner| ==> !IsLineTerminator(m.inner[k]))
    && ClosingTagAt(s, close, m.digit)
    && (forall k :: gt + 1 <= k < close ==> !ClosingTagAt(s, k, m.digit))
  }

  /** The lazy `(.*?)</hD>` from index `i`: the first closing tag, provided no
      line terminator comes before it. */
  function LazyInnerEnd(s: string, i: nat, d: char): (r: Option<nat>)
    ensures r.Some? ==> i <= r.value && ClosingTagAt(s, r.value, d)
    ensures r.Some? ==> forall k :: i <= k < r.value ==> !IsLineTerminator(s[k]) && !ClosingTagAt(s, k, d)
    ensures r.None? ==> forall e :: i <= e && ClosingTagAt(s, e, d) ==>
      exists k :: i <= k < e && IsLineTerminator(s[k])
    decreases |s| - i
  {
    if |s| < i + 5 then None
    else if ClosingTagAt(s, i, d) then Some(i)
    else if IsLineTerminator(s[i]) then None
    else LazyInnerEnd(s, i + 1, d)
  }

  /** The match of the heading pattern at exactly index `p`, if any. */
  function MatchAt(s: string, p: nat): (r: Option<HeadingMatch>)
    ensures r.Some? ==> IsMatchAt(s, p, r.value)
    ensures r.None? ==> forall m :: !IsMatchAt(s, p, m)
  {
    if p + 3 <= |s| && s[p] == '<' && IsH(s[p + 1]) && IsLevelDigit(s[p + 2]) then
      match IndexOfFrom(s, ">", p + 3)
      case None =>
        NoMatchWithoutGt(s, p);
        None
      case Some(gt) =>
        assert forall k :: p + 3 <= k < gt ==> s[k] != '>' by {
          forall k | p + 3 <= k < gt ensures s[k] != '>' {
            assert !OccursAt(s, ">", k);
          }
        }
        match LazyInnerEnd(s, gt + 1, s[p + 2])
        case None =>
          NoMatchWithoutClose(s, p, gt);
          None
        case Some(close) =>
          assert OccursAt(s, ">", gt);
          FoundMatch(s, p, gt, close);
          Some(HeadingMatch(p, close + 5, s[p + 2], s[p + 3..gt], s[gt + 1..close]))
    else
      None
  }

  /** `<hD`, attributes up to the first `>`, and the first closing tag after
      it with no line break in between make a match. */
  lemma FoundMatch(s: string, p: nat, gt: nat, close: nat)
    requires p + 3 <= gt < |s| && s[p] == '<' && IsH(s[p + 1]) && IsLevelDigit(s[p + 2]) && s[gt] == '>'
    requires forall k :: p + 3 <= k < gt ==> s[k] != '>'
    requires gt + 1 <= close && ClosingTagAt(s, close, s[p + 2])
    requires forall k :: gt + 1 <= k < close ==> !IsLineTerminator(s[k]) && !ClosingTagAt(s, k, s[p + 2])
    ensures IsMatchAt(s, p, HeadingMatch(p, close + 5, s[p + 2], s[p + 3..gt], s[gt + 1..close]))
  {
    var attrs, inner := s[p + 3..gt], s[gt + 1..close];
    assert p + 3 + |attrs| == gt && gt + 1 + |inner| == close;
    forall k | 0 <= k < |attrs| ensures attrs[k] != '>' {
      assert attrs[k] == s[p + 3 + k];
    }
    forall k | 0 <= k < |inner| ensures !IsLineTerminator(inner[k]) {
      assert inner[k] == s[gt + 1 + k];
    }
    var m := HeadingMatch(p, close + 5, s[p + 2], attrs, inner);
    assert m.end <= |s| && ClosingTagAt(s, close, m.digit);
  }

  /** A match needs a `>` after `<hD`. */
  lemma NoMatchWithoutGt(s: string, p: nat)
    requires forall j :: p + 3 <= j ==> !OccursAt(s, ">", j)
    ensures forall m :: !IsMatchAt(s, p, m)
  {
    forall m | IsMatchAt(s, p, m) ensures false {
      var gt := p + 3 + |m.attrs|;
      assert s[gt..gt + 1] == ">";
      assert OccursAt(s, ">", gt);
    }
  }

  /** A match needs its attributes to end at the first `>` and a closing tag
      after it that no line terminator precedes. */
  lemma NoMatchWithoutClose(s: string, p: nat, gt: nat)
    requires p + 3 <= gt < |s| && s[gt] == '>' && |s| >= p + 3
    requires forall k :: p + 3 <= k < gt ==> s[k] != '>'
    requires LazyInnerEnd(s, gt + 1, s[p + 2]).None?
    ensures forall m :: !IsMatchAt(s, p, m)
  {
    forall m | IsMatchAt(s, p, m) ensures false {
    }
  }

  /** `exec` with `lastIndex == from`: the leftmost match starting at or after `from`. */
  function NextMatch(s: string, from: nat): (r: Option<HeadingMatch>)
    ensures r.Some? ==> from <= r.value.start && IsMatchAt(s, r.value.start, r.value)
    ensures r.Some? ==> forall p :: from <= p < r.value.start ==> MatchAt(s, p).None?
    ensures r.None? ==> forall p :: from <= p ==> MatchAt(s, p).None?
    decreases |s| - from
  {
    if |s| <= from then None
    else
      match MatchAt(s, from)
      case Some(m) => Some(m)
      case None => NextMatch(s, from + 1)
  }

  /** Matches that follow one another without overlap, all within `[lo, hi]`. */
  predicate Ordered(ms: seq<HeadingMatch>, lo: nat, hi: nat)
    decreases |ms|
  {
    if ms == [] then lo <= hi
    else lo <= ms[0].start < ms[0].end <= hi && Ordered(ms[1..], ms[0].end, hi)
  }

  /** Every match the `exec` loop finds from `from` on, in order: after a
      match, scanning resumes where it ended. */
  function Scan(s: string, from: nat): (ms: seq<HeadingMatch>)
    requires from <= |s|
    ensures Ordered(ms, from, |s|)
    ensures forall i :: 0 <= i < |ms| ==> IsMatchAt(s, ms[i].start, ms[i])
    ensures ms == [] <==> forall p :: from <= p ==> MatchAt(s, p).None?
    decreases |s| - from
  {
    match NextMatch(s, from)
    case None => []
    case Some(m) =>
      var rest := Scan(s, m.end);
      assert MatchAt(s, m.start).Some?;
      [m] + rest
  }

  /** One step of the `exec` loop: the next match, then the scan from its end. */
  lemma ScanStep(s: string, pos: nat)
    requires pos <= |s| && NextMatch(s, pos).Some?
    ensures NextMatch(s, pos).value.end <= |s|
    ensures Scan(s, pos) == [NextMatch(s, pos).value] + Scan(s, NextMatch(s, pos).value.end)
  {
  }

  // --------------------------------------------------------------- ids

  predicate IsQuote(c: char) { c == '"' || c == '\'' }

  /** The length of the run of non-quote characters starting at `i`. */
  function NonQuoteRun(a: string, i: nat): (n: nat)
    requires i <= |a|
    ensures i + n <= |a|
    ensures forall k :: i <= k < i + n ==> !IsQuote(a[k])
    ensures i + n < |a| ==> IsQuote(a[i + n])
    decreases |a| - i
  {
    if i < |a| && !IsQuote(a[i]) then 1 + NonQuoteRun(a, i + 1) else 0
  }

  /** `id=["']([^"']+)["']` matched at index `k` of the attributes. */
  function IdAt(a: string, k: nat): Option<string> {
    if k + 4 <= |a| && a[k..k + 3] == "id=" && IsQuote(a[k + 3]) then
      var n := NonQuoteRun(a, k + 4);
      if n >= 1 && k + 4 + n < |a| then Some(a[k + 4..k + 4 + n]) else None
    else None
  }

  function QuotedIdFrom(a: string, k: nat): (r: Option<string>)
    ensures r.Some? ==> |r.value| >= 1 && forall i :: 0 <= i < |r.value| ==> !IsQuote(r.value[i])
    ensures r.Some? ==> exists j :: k <= j && OccursAt(a, "id=", j)
    ensures r.None? <==> forall j :: k <= j ==> IdAt(a, j).None?
    ensures r.Some? ==> exists j :: k <= j && IdAt(a, j) == r && forall i :: k <= i < j ==> IdAt(a, i).None?
    decreases |a| - k
  {
    if |a| <= k then None
    else
      match IdAt(a, k)
      case Some(id) =>
        assert OccursAt(a, "id=", k);
        Some(id)
      case None => QuotedIdFrom(a, k + 1)
  }

  /** `attributes.match(/id=["']([^"']+)["']/)`: the first quoted, non-empty
      id value; the two quotes need not be the same. */
  function QuotedId(attrs: string): (r: Option<string>)
    ensures r.Some? ==> |r.value| >= 1 && forall i :: 0 <= i < |r.value| ==> !IsQuote(r.value[i])
    ensures r.Some? ==> Contains(attrs, "id=")
    ensures r.None? <==> forall j :: 0 <= j ==> IdAt(attrs, j).None?
    ensures r.Some? ==> exists j :: 0 <= j && IdAt(attrs, j) == r && forall i :: 0 <= i < j ==> IdAt(attrs, i).None?
  {
    QuotedIdFrom(attrs, 0)
  }

  // -------------------------------------------------------------- text

  /** `text.replace(/<[^>]*>/g, '')`: every `<` up to the next `>` is deleted. */
  function StripTags(t: string): (r: string)
    ensures |r| <= |t|
    ensures forall c :: c in r ==> c in t
    ensures forall i, j :: 0 <= i < j < |r| ==> r[i] != '<' || r[j] != '>'
    ensures (forall k :: 0 <= k < |t| ==> t[k] != '<') ==> r == t
    decreases |t|
  {
    if t == [] then []
    else if t[0] == '<' then
      match IndexOfFrom(t, ">", 1)
      case Some(j) => StripTags(t[j + 1..])
      case None =>
        var rest := StripTags(t[1..]);
        assert forall c :: c in t[1..] ==> c != '>' by {
          forall k | 1 <= k < |t| ensures t[k] != '>' { assert !OccursAt(t, ">", k); }
        }
        assert forall k :: 0 <= k < |rest| ==> rest[k] in rest;
        [t[0]] + rest
    else
      [t[0]] + StripTags(t[1..])
  }

  /** A character other than `<` passes through unchanged. */
  lemma StripTagsCons(c: char, u: string)
    requires c != '<'
    ensures StripTags([c] + u) == [c] + StripTags(u)
  {
    assert ([c] + u)[1..] == u;
  }

  /** Text before the first `<` passes through unchanged. */
  lemma {:induction false} StripTagsKeepsPlainPrefix(x: string, z: string)
    requires forall k :: 0 <= k < |x| ==> x[k] != '<'
    ensures StripTags(x + z) == x + StripTags(z)
    decreases |x|
  {
    if x == [] {
      assert x + z == z;
    } else {
      var u := x[1..] + z;
      calc {
        StripTags(x + z);
        { ConsAppend(x, z); }
        StripTags([x[0]] + u);
        { StripTagsCons(x[0], u); }
        [x[0]] + StripTags(u);
        { StripTagsKeepsPlainPrefix(x[1..], z); }
        [x[0]] + (x[1..] + StripTags(z));
        { ConsAppend(x, StripTags(z)); }
        x + StripTags(z);
      }
    }
  }

  /** With no `>` anywhere the tag pattern matches nothing, so every `<`
      stays in the text. */
  lemma {:induction false} StripTagsKeepsUnclosed(t: string)
    requires forall k :: 0 <= k < |t| ==> t[k] != '>'
    ensures StripTags(t) == t
    decreases |t|
  {
    if t != [] {
      StripTagsKeepsUnclosed(t[1..]);
      if t[0] == '<' {
        forall k | 1 <= k < |t| ensures !OccursAt(t, ">", k) {
          assert t[k..k + 1][0] == t[k];
        }
        assert IndexOfFrom(t, ">", 1).None?;
      }
      assert t == [t[0]] + t[1..];
    }
  }

  /** A complete tag `<y>` (with no `>` inside) is deleted, and stripping
      goes on after it. */
  lemma StripTagsDropsTag(y: string, z: string)
    requires forall k :: 0 <= k < |y| ==> y[k] != '>'
    ensures StripTags("<" + y + ">" + z) == StripTags(z)
  {
    var t := "<" + y + ">" + z;
    var j := |y| + 1;
    assert OccursAt(t, ">", j) by { assert t[j..j + 1] == [t[j]]; }
    forall i | 1 <= i < j ensures !OccursAt(t, ">", i) {
      assert t[i] == y[i - 1];
      assert t[i..i + 1][0] == t[i];
    }
    assert IndexOfFrom(t, ">", 1) == Some(j);
    assert t[j + 1..] == z;
  }

  /** Stripping a text made of plain text, one tag and a rest keeps the
      plain text and strips the rest. */
  lemma StripTagsKeepsText(x: string, y: string, z: string)
    requires forall k :: 0 <= k < |x| ==> x[k] != '<'
    requires forall k :: 0 <= k < |y| ==> y[k] != '>'
    ensures StripTags(x + "<" + y + ">" + z) == x + StripTags(z)
  {
    assert x + "<" + y + ">" + z == x + ("<" + y + ">" + z);
    StripTagsKeepsPlainPrefix(x, "<" + y + ">" + z);
    StripTagsDropsTag(y, z);
  }

  // ---------------------------------------------------------- headings

  /** The heading recorded for the `k`-th match: its level, its stripped
      text, and its quoted id or else `heading-k`. */
  function HeadingOf(m: HeadingMatch, k: nat): (h: Heading)
    requires IsLevelDigit(m.digit)
    ensures 1 <= h.level <= 6
  {
    Heading(
      m.digit as int - '0' as int,
      StripTags(m.inner),
      match QuotedId(m.attrs)
      case Some(id) => id
      case None => "heading-" + NatToString(k))
  }

  predicate AllLevelDigits(ms: seq<HeadingMatch>) {
    forall i :: 0 <= i < |ms| ==> IsLevelDigit(ms[i].digit)
  }

  /** The `headings` array the `exec` loop fills, `index` counting matches. */
  function Headings(ms: seq<HeadingMatch>): (hs: seq<Heading>)
    requires AllLevelDigits(ms)
    ensures |hs| == |ms| && forall i :: 0 <= i < |ms| ==> hs[i] == HeadingOf(ms[i], i)
  {
    seq(|ms|, i requires 0 <= i < |ms| => HeadingOf(ms[i], i))
  }

  /** Recording one more match appends its heading, numbered by its position. */
  lemma HeadingsAppend(ms: seq<HeadingMatch>, m: HeadingMatch)
    requires AllLevelDigits(ms) && IsLevelDigit(m.digit)
    ensures AllLevelDigits(ms + [m])
    ensures Headings(ms + [m]) == Headings(ms) + [HeadingOf(m, |ms|)]
  {
    var l, r := Headings(ms + [m]), Headings(ms) + [HeadingOf(m, |ms|)];
    assert |l| == |r|;
    forall i | 0 <= i < |l| ensures l[i] == r[i] {
      if i < |ms| {
        assert (ms + [m])[i] == ms[i];
      }
    }
  }

  /** Synthesized anchors never collide: the counter gives every match its
      own number. */
  lemma SynthesizedIdsDistinct(ms: seq<HeadingMatch>, i: nat, j: nat)
    requires AllLevelDigits(ms) && i < |ms| && j < |ms| && i != j
    requires QuotedId(ms[i].attrs).None? && QuotedId(ms[j].attrs).None?
    ensures Headings(ms)[i].id != Headings(ms)[j].id
  {
    var a, b := NatToString(i), NatToString(j);
    NatToStringInjective(i, j);
    assert ("heading-" + a)[8..] == a && ("heading-" + b)[8..] == b;
  }
}
