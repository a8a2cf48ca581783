/** `Post::createTeaser`: the listing excerpt of a post's plain-text content. Hidden blocks are cut
    out first; then either the `<teaser>` region is taken verbatim, or the remaining text is stripped of
    HTML tags and wiki markup and cut to the configured length with an ellipsis. */
module Teaser {
  import opened Common
  import opened Strings
  import opened Regex
  import opened Schema

  /** The tags whose whole blocks never reach a teaser, in the order they are removed. */
  const HiddenTags: seq<string> := ["auth", "priv", "html", "php", "phpw", "info", "infol"]

  /** `"<tag>.*?</tag>"sim`: the block, matched lazily, across lines, ignoring case. */
  function HiddenBlock(tag: string): Pattern
  {
    [Span("<" + tag + ">", "</" + tag + ">", true, true)]
  }

  /** Removes the blocks of each tag in turn. */
  function StripBlocks(d: string, tags: seq<string>): string
    decreases |tags|
  {
    if |tags| == 0 then d else StripBlocks(Replace(d, HiddenBlock(tags[0]), ""), tags[1..])
  }

  function StripHidden(d: string): string
  {
    StripBlocks(d, HiddenTags)
  }

  const TeaserOpen: string := "<teaser>"
  const TeaserClose: string := "</teaser>"

  /** The `<teaser>` region, if the stripped data selects one: both tags found past position 0
      (`$start && $end`), or the data starting with the lower-case opening tag. The window is
      `substr($data, $start + 8, $end - $start - 8)`, with a missing closing tag counting as 0. */
  function TeaserWindow(d: string): Option<string>
  {
    var start := Find(d, TeaserOpen, true);
    var end := Find(d, TeaserClose, true);
    if (start.Some? && start.value > 0 && end.Some? && end.value > 0) || StartsWith(d, TeaserOpen) then
      var s: nat := if start.Some? then start.value else 0;
      var e: int := if end.Some? then end.value else 0;
      Some(Substr(d, s + 8, e - s - 8))
    else None
  }

  /** The wiki-markup rewrites applied to the tag-stripped text, in order (all delete their match). */
  const MarkupRules: seq<Pattern> := [
    [Span("[[", "]]", false, true)],
    [Span("[", "]", false, true)],
    [Span("((", "))", false, true)],
    [Span("+", "\n", false, true)],
    [Lit("**"), Lit("'''"), Lit("__"), Lit("//"), Lit("||~"), Lit("||"), Span("##", "|", false, false)],
    [Lit("* ")],
    [Lit("##")],
    [Lit("# ")],
    [Lit("``")],
    [Lit("{{")],
    [Lit("}}")],
    [Lit(" \\")],
    [Lit("@@")],
    [Lit("---")],
    [Lit("----")],
    [Lit("+++")]
  ]

  function ApplyRules(d: string, rules: seq<Pattern>): string
    decreases |rules|
  {
    if |rules| == 0 then d else ApplyRules(Replace(d, rules[0], ""), rules[1..])
  }

  /** The generic teaser body before truncation: markup removed, each CRLF turned into a space. */
  function CleanBody(h: string, cfg: Config): string
  {
    ReplaceLit(ApplyRules(cfg.stripTags(h), MarkupRules), "\r\n", " ")
  }

  /** The length cut of the generic teaser: text of at least `n` characters keeps its first `n`,
      blank-trimmed, followed by `...`; shorter text is kept whole. */
  function Truncated(x: string, n: nat): string
  {
    if |x| >= n then Trim(x[..n]) + "..." else x
  }

  function CreateTeaser(data: string, cfg: Config): string
  {
    var h := StripHidden(data);
    match TeaserWindow(h)
    case Some(t) => t
    case None => Truncated(CleanBody(h, cfg), cfg.teaserLength)
  }

  // ---------------------------------------------------------------- properties

  /** No opening tag of a hidden block occurs anywhere, in any case. */
  predicate NoHiddenOpening(d: string)
  {
    forall t, i :: t in HiddenTags && 0 <= i <= |d| ==> !OccursAt(d, "<" + t + ">", i, true)
  }

  lemma {:induction false} StripBlocksUntouched(d: string, tags: seq<string>)
    requires forall t, i :: t in tags && 0 <= i <= |d| ==> !OccursAt(d, "<" + t + ">", i, true)
    ensures StripBlocks(d, tags) == d
    decreases |tags|
  {
    if |tags| > 0 {
      var p := HiddenBlock(tags[0]);
      forall i | 0 <= i < |d| ensures MatchLen(p, d[i..]) == 0 {
        assert !OccursAt(d, "<" + tags[0] + ">", i, true);
        assert TokenMatch(p[0], d[i..]) == 0;
      }
      ReplaceNoMatch(d, p, "");
      StripBlocksUntouched(d, tags[1..]);
    }
  }

  /** Text without any hidden-block opening tag passes the first stage unchanged. */
  lemma StripHiddenUntouched(d: string)
    requires NoHiddenOpening(d)
    ensures StripHidden(d) == d
  {
    StripBlocksUntouched(d, HiddenTags);
  }

  /** The closing tag cannot start inside `<teaser>` + `t` + `</teaser>` before the real one. */
  lemma CloseFirstAt(d: string, t: string, rest: string)
    requires d == TeaserOpen + t + TeaserClose + rest
    requires !ContainsCI(t, TeaserClose)
    ensures Find(d, TeaserClose, true) == Some(8 + |t|)
  {
    var k := 8 + |t|;
    assert d[k..][..9] == TeaserClose;
    assert OccursAt(d, TeaserClose, k, true);
    forall j | 0 <= j < k ensures !OccursAt(d, TeaserClose, j, true) {
      if j + 9 <= |d| {
        var w := d[j..][..9];
        if j == 0 {
          assert w[1] == 't';
          assert Lower(w)[1] != Lower(TeaserClose)[1];
        } else if j < 8 {
          assert w[0] == TeaserOpen[j];
          assert Lower(w)[0] != Lower(TeaserClose)[0];
        } else if j + 9 <= k {
          assert w == t[j - 8..][..9];
          assert !OccursAt(t, TeaserClose, j - 8, true);
        } else {
          var m := k - j;
          assert w[m] == d[k] == '<';
          assert Lower(w)[m] != Lower(TeaserClose)[m];
        }
      }
    }
    FindIsFirst(d, TeaserClose, true, k);
  }

  /** A text that opens with a teaser region selects exactly the text between the tags. */
  lemma WindowOfRegion(d: string, t: string, rest: string)
    requires d == TeaserOpen + t + TeaserClose + rest
    requires !ContainsCI(t, TeaserClose)
    ensures TeaserWindow(d) == Some(t)
  {
    assert d[..8] == TeaserOpen;
    assert OccursAt(d, TeaserOpen, 0, true);
    FindIsFirst(d, TeaserOpen, true, 0);
    CloseFirstAt(d, t, rest);
    assert d[8..8 + |t|] == t;
  }

  /** Content that opens with a teaser region gets exactly the text between the tags, verbatim. */
  lemma TeaserRegionExact(d: string, t: string, rest: string, cfg: Config)
    requires d == TeaserOpen + t + TeaserClose + rest
    requires !ContainsCI(t, TeaserClose)
    requires NoHiddenOpening(d)
    ensures CreateTeaser(d, cfg) == t
  {
    StripHiddenUntouched(d);
    WindowOfRegion(d, t, rest);
  }

  /** Before the closing tag of a region, neither the text ahead of the region, nor its opening
      tag in whatever case, nor its body can hold a closing tag. */
  lemma NoCloseBeforeRegion(p: string, open: string, t: string)
    requires EqualsCI(open, TeaserOpen)
    requires !ContainsCI(p, TeaserClose) && !ContainsCI(t, TeaserClose)
    ensures !ContainsCI(p + open + t, TeaserClose)
  {
    var u := p + open + t;
    assert |open| == 8;
    forall j | 0 <= j <= |u| ensures !OccursAt(u, TeaserClose, j, true) {
      if j + 9 <= |u| {
        var w := u[j..][..9];
        if j + 9 <= |p| {
          assert w == p[j..][..9];
          assert !OccursAt(p, TeaserClose, j, true);
        } else if j < |p| {
          var m := |p| - j;
          assert w[m] == open[0];
          assert Lower(w)[m] == Lower(open)[0] == '<';
          assert Lower(w)[m] != Lower(TeaserClose)[m];
        } else if j == |p| {
          assert w[1] == open[1];
          assert Lower(w)[1] == Lower(open)[1] == 't';
          assert Lower(w)[1] != Lower(TeaserClose)[1];
        } else if j < |p| + 8 {
          assert w[0] == open[j - |p|];
          assert Lower(w)[0] == Lower(open)[j - |p|] == TeaserOpen[j - |p|];
          assert Lower(w)[0] != Lower(TeaserClose)[0];
        } else {
          assert w == t[j - |p| - 8..][..9];
          assert !OccursAt(t, TeaserClose, j - |p| - 8, true);
        }
      }
    }
  }

  /** A teaser region anywhere in the content is taken verbatim, provided no tag of the pair comes
      before it. Past position 0 both tags are found whatever their case; at position 0 only the
      lower-case opening tag selects it. */
  lemma TeaserRegionFound(p: string, open: string, t: string, close: string, rest: string, cfg: Config)
    requires EqualsCI(open, TeaserOpen) && EqualsCI(close, TeaserClose)
    requires |p| > 0 || open == TeaserOpen
    requires !ContainsCI(p, TeaserOpen) && !ContainsCI(p, TeaserClose)
    requires !ContainsCI(t, TeaserClose)
    requires NoHiddenOpening(p + open + t + close + rest)
    ensures CreateTeaser(p + open + t + close + rest, cfg) == t
  {
    var d := p + open + t + close + rest;
    StripHiddenUntouched(d);
    WindowOfRegionAt(p, open, t, close, rest);
  }

  /** The window such content selects is the region's body. */
  lemma WindowOfRegionAt(p: string, open: string, t: string, close: string, rest: string)
    requires EqualsCI(open, TeaserOpen) && EqualsCI(close, TeaserClose)
    requires |p| > 0 || open == TeaserOpen
    requires !ContainsCI(p, TeaserOpen) && !ContainsCI(p, TeaserClose)
    requires !ContainsCI(t, TeaserClose)
    ensures TeaserWindow(p + open + t + close + rest) == Some(t)
  {
    var d := p + open + t + close + rest;
    RegionTagsFound(p, open, t, close, rest);
    if |p| == 0 {
      assert d[..8] == TeaserOpen;
    }
    RegionBody(p, open, t, close, rest);
  }

  lemma RegionBody(p: string, open: string, t: string, close: string, rest: string)
    requires |open| == 8
    ensures Substr(p + open + t + close + rest, |p| + 8, |t|) == t
  {
    var d := p + open + t + close + rest;
    assert d[|p| + 8..|p| + 8 + |t|] == t;
  }

  /** Where the search finds the two tags of such a region. */
  lemma RegionTagsFound(p: string, open: string, t: string, close: string, rest: string)
    requires EqualsCI(open, TeaserOpen) && EqualsCI(close, TeaserClose)
    requires !ContainsCI(p, TeaserOpen) && !ContainsCI(p, TeaserClose)
    requires !ContainsCI(t, TeaserClose)
    ensures |open| == 8
    ensures var d := p + open + t + close + rest;
            Find(d, TeaserOpen, true) == Some(|p|) && Find(d, TeaserClose, true) == Some(|p| + 8 + |t|)
  {
    var d := p + open + t + close + rest;
    assert |Lower(open)| == |open|;
    assert d == p + open + (t + close + rest);
    TagFoundAfter(p, TeaserOpen, open, t + close + rest);
    NoCloseBeforeRegion(p, open, t);
    assert d == (p + open + t) + close + rest;
    TagFoundAfter(p + open + t, TeaserClose, close, rest);
  }

  /** The region test is case-insensitive only past position 0: a text that opens with an upper-case
      `<TEASER>` selects no region, whatever follows, and gets the generic teaser. */
  lemma UpperCaseOpeningIgnored(d: string, rest: string)
    requires d == "<TEASER>" + rest
    ensures TeaserWindow(d).None?
  {
    assert d[..8] == "<TEASER>";
    assert Lower(d[..8]) == Lower(TeaserOpen);
    assert OccursAt(d, TeaserOpen, 0, true);
    FindIsFirst(d, TeaserOpen, true, 0);
    assert d[1] != TeaserOpen[1];
  }

  lemma NoPairSlice(x: string, a: nat, b: nat)
    requires a <= b <= |x| && !HasPair(x, '\r', '\n')
    ensures !HasPair(x[a..b], '\r', '\n')
  {
    var y := x[a..b];
    forall j | 0 <= j < |y| - 1 ensures !(y[j] == '\r' && y[j + 1] == '\n') {
      assert y[j] == x[a + j] && y[j + 1] == x[a + j + 1];
    }
  }

  lemma NoPairDots(y: string)
    requires !HasPair(y, '\r', '\n')
    ensures !HasPair(y + "...", '\r', '\n')
  {
    var r := y + "...";
    forall j | 0 <= j < |r| - 1 ensures !(r[j] == '\r' && r[j + 1] == '\n') {
      if j + 1 < |y| {
        assert r[j] == y[j] && r[j + 1] == y[j + 1];
      } else {
        assert r[j + 1] == '.';
      }
    }
  }

  lemma NoPairCut(x: string, a: nat, tr: string)
    requires a + |tr| <= |x| && tr == x[a..a + |tr|] && !HasPair(x, '\r', '\n')
    ensures !HasPair(tr + "...", '\r', '\n')
  {
    NoPairSlice(x, a, a + |tr|);
    NoPairDots(tr);
  }

  /** Cutting a text without CRLF leaves none. */
  lemma TruncatedNoPair(x: string, n: nat)
    requires !HasPair(x, '\r', '\n')
    ensures !HasPair(Truncated(x, n), '\r', '\n')
  {
    if |x| >= n {
      var y := x[..n];
      var a := TrimOffset(y);
      var tr := Trim(y);
      assert tr == y[a..a + |tr|] == x[a..a + |tr|];
      NoPairCut(x, a, tr);
      assert Truncated(x, n) == tr + "...";
    }
  }

  lemma CRLFGone(s: string)
    ensures !HasPair(ReplaceLit(s, "\r\n", " "), '\r', '\n')
  {
    assert "\r\n" == ['\r', '\n'];
    ReplacePairGone(s, '\r', '\n', " ");
  }

  /** A teaser built from the body, when no `<teaser>` region is selected, never holds a CRLF pair. */
  lemma TeaserHasNoCRLF(data: string, cfg: Config)
    requires TeaserWindow(StripHidden(data)).None?
    ensures !HasPair(CreateTeaser(data, cfg), '\r', '\n')
  {
    var h := StripHidden(data);
    var body := CleanBody(h, cfg);
    CRLFGone(ApplyRules(cfg.stripTags(h), MarkupRules));
    TruncatedNoPair(body, cfg.teaserLength);
  }

  // ---------------------------------------------------------------- hidden blocks

  /** A tag name of lower-case letters, as every hidden tag is. */
  predicate PlainTag(u: string)
  {
    |u| > 0 && forall k :: 0 <= k < |u| ==> 'a' <= u[k] <= 'z'
  }

  lemma HiddenTagsPlain()
    ensures forall t :: t in HiddenTags ==> PlainTag(t)
    ensures forall r, q :: 0 <= r < q < |HiddenTags| ==> HiddenTags[r] != HiddenTags[q]
  {
  }

  /** The characters of an opening tag `<u>`: `<` first, then letters, then `>`. */
  lemma OpeningChars(u: string)
    requires PlainTag(u)
    ensures var o := "<" + u + ">";
            && |o| == |u| + 2 && o[0] == '<' && o[|u| + 1] == '>'
            && (forall k :: 1 <= k <= |u| ==> o[k] == u[k - 1] && 'a' <= o[k] <= 'z')
            && Lower(o) == o
  {
    var o := "<" + u + ">";
    assert forall k :: 1 <= k <= |u| ==> o[k] == u[k - 1];
  }

  /** The characters of a closing tag `</u>`: `<` first and nowhere else. */
  lemma ClosingChars(u: string)
    requires PlainTag(u)
    ensures var c := "</" + u + ">";
            && |c| == |u| + 3 && c[0] == '<' && c[1] == '/' && c[|u| + 2] == '>'
            && (forall k :: 2 <= k <= |u| + 1 ==> c[k] == u[k - 2])
            && (forall k :: 1 <= k < |c| ==> c[k] != '<')
  {
    var c := "</" + u + ">";
    assert forall k :: 2 <= k <= |u| + 1 ==> c[k] == u[k - 2];
  }

  /** An opening tag cannot match over a `<` that falls inside its window past the head. */
  lemma NoOpeningOverLt(s: string, u: string, i: nat, k: nat)
    requires PlainTag(u) && i < k < i + |u| + 2 && k < |s| && LowerChar(s[k]) == '<'
    ensures !OccursAt(s, "<" + u + ">", i, true)
  {
    var o := "<" + u + ">";
    OpeningChars(u);
    if i + |o| <= |s| {
      var w := s[i..][..|o|];
      assert w[k - i] == s[k];
      assert Lower(w)[k - i] == '<';
      assert Lower(o)[k - i] != '<';
    }
  }

  /** Nor at a character that is not `<`. */
  lemma NoOpeningAtOther(s: string, u: string, i: nat)
    requires PlainTag(u) && i < |s| && LowerChar(s[i]) != '<'
    ensures !OccursAt(s, "<" + u + ">", i, true)
  {
    var o := "<" + u + ">";
    OpeningChars(u);
    if i + |o| <= |s| {
      assert s[i..][..|o|][0] == s[i];
    }
  }

  /** Nor where a closing tag starts. */
  lemma NoOpeningAtClose(s: string, u: string, i: nat)
    requires PlainTag(u) && i + 1 < |s| && LowerChar(s[i + 1]) == '/'
    ensures !OccursAt(s, "<" + u + ">", i, true)
  {
    var o := "<" + u + ">";
    OpeningChars(u);
    if i + |o| <= |s| {
      assert s[i..][..|o|][1] == s[i + 1];
      assert Lower(o)[1] != '/';
    }
  }

  /** Nor where the opening tag of another hidden tag is written, in any case: one of the two names
      ends first, or they differ at some letter. */
  lemma NoOpeningAtTag(s: string, u: string, tag: string, open: string, i: nat)
    requires PlainTag(u) && PlainTag(tag) && u != tag
    requires EqualsCI(open, "<" + tag + ">")
    requires i + |open| <= |s| && s[i..i + |open|] == open
    ensures !OccursAt(s, "<" + u + ">", i, true)
  {
    var o := "<" + u + ">";
    var ot := "<" + tag + ">";
    OpeningChars(u);
    OpeningChars(tag);
    assert |open| == |ot|;
    if i + |o| <= |s| {
      var w := s[i..][..|o|];
      if |u| < |tag| {
        var m := |u| + 1;
        assert w[m] == open[m];
        assert Lower(w)[m] == ot[m] != o[m];
      } else if |u| > |tag| {
        var m := |tag| + 1;
        assert w[m] == open[m];
        assert Lower(w)[m] == ot[m] != o[m];
      } else {
        var k :| 0 <= k < |u| && u[k] != tag[k];
        assert w[k + 1] == open[k + 1];
        assert Lower(w)[k + 1] == ot[k + 1] != o[k + 1];
      }
    }
  }

  /** A window that lies inside a part of the text is judged by that part alone. */
  lemma OccursInPart(s: string, part: string, off: nat, i: nat, p: string)
    requires off <= i && i + |p| <= |s| && i - off + |p| <= |part|
    requires s[i..][..|p|] == part[i - off..][..|p|]
    ensures OccursAt(s, p, i, true) == OccursAt(part, p, i - off, true)
  {
  }

  /** Around a `tag` block `open + x + close`, the opening tag of another hidden tag `u` occurs
      nowhere, when neither the block's body nor the text around it holds one. */
  lemma NoOtherOpening(a: string, open: string, x: string, close: string, b: string, tag: string, u: string)
    requires PlainTag(u) && PlainTag(tag) && u != tag
    requires EqualsCI(open, "<" + tag + ">") && EqualsCI(close, "</" + tag + ">")
    requires !ContainsCI(x, "<" + u + ">") && !ContainsCI(a + b, "<" + u + ">")
    ensures !ContainsCI(a + open + x + close + b, "<" + u + ">")
  {
    var d := a + open + x + close + b;
    forall i | 0 <= i <= |d| ensures !OccursAt(d, "<" + u + ">", i, true) {
      if i < |a| + |open| {
        NoOtherOpeningFront(a, open, x, close, b, tag, u, i);
      } else {
        NoOtherOpeningBack(a, open, x, close, b, tag, u, i);
      }
    }
  }

  /** From `a` up to the end of the opening tag. */
  lemma NoOtherOpeningFront(a: string, open: string, x: string, close: string, b: string, tag: string, u: string,
                            i: nat)
    requires PlainTag(u) && PlainTag(tag) && u != tag
    requires EqualsCI(open, "<" + tag + ">")
    requires !ContainsCI(a + b, "<" + u + ">")
    requires i < |a| + |open|
    ensures !OccursAt(a + open + x + close + b, "<" + u + ">", i, true)
  {
    var d := a + open + x + close + b;
    var o := "<" + u + ">";
    OpeningChars(u);
    OpeningChars(tag);
    var ot := "<" + tag + ">";
    assert |open| == |ot|;
    assert d[|a|..|a| + |open|] == open;
    if i + |o| > |d| {
    } else if i + |o| <= |a| {
      assert d[i..][..|o|] == (a + b)[i..][..|o|];
      OccursInPart(d, a + b, 0, i, o);
    } else if i < |a| {
      assert d[|a|] == open[0] && Lower(open)[0] == '<';
      NoOpeningOverLt(d, u, i, |a|);
    } else if i == |a| {
      NoOpeningAtTag(d, u, tag, open, i);
    } else {
      assert d[i] == open[i - |a|] && Lower(open)[i - |a|] == ot[i - |a|];
      NoOpeningAtOther(d, u, i);
    }
  }

  /** From the body of the block to the end of `b`. */
  lemma NoOtherOpeningBack(a: string, open: string, x: string, close: string, b: string, tag: string, u: string,
                           i: nat)
    requires PlainTag(u) && PlainTag(tag)
    requires |open| == |tag| + 2 && EqualsCI(close, "</" + tag + ">")
    requires !ContainsCI(x, "<" + u + ">") && !ContainsCI(a + b, "<" + u + ">")
    requires |a| + |open| <= i <= |a + open + x + close + b|
    ensures !OccursAt(a + open + x + close + b, "<" + u + ">", i, true)
  {
    var d := a + open + x + close + b;
    var o := "<" + u + ">";
    OpeningChars(u);
    ClosingChars(tag);
    var ct := "</" + tag + ">";
    assert |close| == |ct|;
    var x0 := |a| + |open|;
    var c0 := x0 + |x|;
    var b0 := c0 + |close|;
    assert d[x0..c0] == x && d[c0..b0] == close;
    if i + |o| > |d| {
    } else if i + |o| <= c0 {
      assert d[i..][..|o|] == x[i - x0..][..|o|];
      OccursInPart(d, x, x0, i, o);
    } else if i < c0 {
      assert d[c0] == close[0] && Lower(close)[0] == '<';
      NoOpeningOverLt(d, u, i, c0);
    } else if i == c0 {
      assert d[c0 + 1] == close[1] && Lower(close)[1] == '/';
      NoOpeningAtClose(d, u, i);
    } else if i < b0 {
      assert d[i] == close[i - c0] && Lower(close)[i - c0] == ct[i - c0];
      NoOpeningAtOther(d, u, i);
    } else {
      assert d[i..] == (a + b)[|a| + (i - b0)..];
      assert !OccursAt(a + b, o, |a| + (i - b0), true);
    }
  }

  /** Ahead of a block's opening tag, the block's pattern matches at no position of `a`. */
  lemma NoBlockBefore(a: string, open: string, rest: string, b: string, tag: string)
    requires PlainTag(tag) && EqualsCI(open, "<" + tag + ">")
    requires !ContainsCI(a + b, "<" + tag + ">")
    ensures NoMatchBefore(a + open + rest, HiddenBlock(tag), |a|)
  {
    var d := a + open + rest;
    var p := HiddenBlock(tag);
    var o := "<" + tag + ">";
    OpeningChars(tag);
    assert |open| == |o|;
    forall i | 0 <= i < |a| ensures MatchLen(p, d[i..]) == 0 {
      if i + |o| <= |a| {
        assert d[i..][..|o|] == (a + b)[i..][..|o|];
        OccursInPart(d, a + b, 0, i, o);
      } else {
        assert d[|a|] == open[0] && Lower(open)[0] == '<';
        NoOpeningOverLt(d, tag, i, |a|);
      }
      assert !OccursAt(d, o, i, true);
      assert TokenMatch(p[0], d[i..]) == 0;
    }
  }

  /** The block pattern matches the whole block at its head. */
  lemma BlockMatchAtHead(open: string, x: string, close: string, b: string, tag: string)
    requires PlainTag(tag)
    requires EqualsCI(open, "<" + tag + ">") && EqualsCI(close, "</" + tag + ">")
    requires !ContainsCI(x, "</" + tag + ">")
    ensures MatchLen(HiddenBlock(tag), open + x + close + b) == |open| + |x| + |close|
  {
    assert HiddenBlock(tag)[0] == Span("<" + tag + ">", "</" + tag + ">", true, true);
    ClosingChars(tag);
    SpanMatchAtHead("<" + tag + ">", "</" + tag + ">", open, x, close, b);
  }

  /** A caseless span across lines whose closing tag has its only `<` first matches from the opening
      tag to the first closing tag. */
  lemma SpanMatchAtHead(o: string, c: string, open: string, x: string, close: string, b: string)
    requires |o| > 0 && |c| > 0 && c[0] == '<' && forall m :: 1 <= m < |c| ==> c[m] != '<'
    requires EqualsCI(open, o) && EqualsCI(close, c)
    requires !ContainsCI(x, c)
    ensures TokenMatch(Span(o, c, true, true), open + x + close + b) == |open| + |x| + |close|
  {
    var s := open + x + close + b;
    assert s[..|o|] == open;
    assert s[|o|..] == x + close + b;
    TagFoundAfter(x, c, close, b);
  }

  /** Nor does the block pattern match anywhere in `b`. */
  lemma NoBlockAfter(a: string, b: string, tag: string)
    requires !ContainsCI(a + b, "<" + tag + ">")
    ensures NowhereMatches(b, HiddenBlock(tag))
  {
    var p := HiddenBlock(tag);
    forall i | 0 <= i < |b| ensures MatchLen(p, b[i..]) == 0 {
      assert b[i..] == (a + b)[|a| + i..];
      assert !OccursAt(a + b, "<" + tag + ">", |a| + i, true);
      assert TokenMatch(p[0], b[i..]) == 0;
    }
  }

  /** One `preg_replace` of a tag's block pattern cuts a block of that tag out whole and joins the
      text around it, when the body holds no closing tag and the joined text no opening tag. */
  lemma BlockReplaced(a: string, open: string, x: string, close: string, b: string, tag: string)
    requires PlainTag(tag)
    requires EqualsCI(open, "<" + tag + ">") && EqualsCI(close, "</" + tag + ">")
    requires !ContainsCI(x, "</" + tag + ">")
    requires !ContainsCI(a + b, "<" + tag + ">")
    ensures Replace(a + open + x + close + b, HiddenBlock(tag), "") == a + b
  {
    var s := open + x + close + b;
    var p := HiddenBlock(tag);
    NoBlockBefore(a, open, x + close + b, b, tag);
    var d := a + s;
    assert a + open + (x + close + b) == d == a + open + x + close + b;
    ReplaceSkipsPrefix(d, |a|, p, "");
    assert d[..|a|] == a && d[|a|..] == s;
    BlockMatchAtHead(open, x, close, b, tag);
    assert s[|open| + |x| + |close|..] == b;
    assert Replace(s, p, "") == Replace(b, p, "");
    NoBlockAfter(a, b, tag);
    ReplaceNoMatch(b, p, "");
  }

  /** Tags whose opening occurs nowhere in the text are passed over. */
  lemma {:induction false} StripBlocksSkip(d: string, tags: seq<string>, m: nat)
    requires m <= |tags|
    requires forall t, i :: t in tags[..m] && 0 <= i <= |d| ==> !OccursAt(d, "<" + t + ">", i, true)
    ensures StripBlocks(d, tags) == StripBlocks(d, tags[m..])
    decreases m
  {
    if m > 0 {
      var p := HiddenBlock(tags[0]);
      assert tags[0] in tags[..m];
      forall i | 0 <= i < |d| ensures MatchLen(p, d[i..]) == 0 {
        assert !OccursAt(d, "<" + tags[0] + ">", i, true);
        assert TokenMatch(p[0], d[i..]) == 0;
      }
      ReplaceNoMatch(d, p, "");
      forall t, i | t in tags[1..][..m - 1] && 0 <= i <= |d| ensures !OccursAt(d, "<" + t + ">", i, true) {
        assert tags[1..][..m - 1] == tags[1..m];
        assert t in tags[..m];
      }
      StripBlocksSkip(d, tags[1..], m - 1);
      assert tags[1..][m - 1..] == tags[m..];
    }
  }

  /** An `<auth>` block, tags in any case, is cut out whole: the text around it is joined, provided
      the block's body holds no closing tag and the joined text opens no hidden block. */
  lemma AuthBlockRemoved(a: string, open: string, x: string, close: string, b: string)
    requires EqualsCI(open, "<auth>") && EqualsCI(close, "</auth>")
    requires !ContainsCI(x, "</auth>")
    requires NoHiddenOpening(a + b)
    ensures StripHidden(a + open + x + close + b) == a + b
  {
    HiddenTagsPlain();
    assert HiddenTags[0] == "auth" && "<" + "auth" + ">" == "<auth>" && "</" + "auth" + ">" == "</auth>";
    assert !OccursAt(a + b, "<auth>", 0, true);
    BlockReplaced(a, open, x, close, b, "auth");
    assert StripHidden(a + open + x + close + b) == StripBlocks(a + b, HiddenTags[1..]);
    forall t, i | t in HiddenTags[1..] && 0 <= i <= |a + b| ensures !OccursAt(a + b, "<" + t + ">", i, true) {
      assert t in HiddenTags;
    }
    StripBlocksUntouched(a + b, HiddenTags[1..]);
  }

  /** A block of any hidden tag (`auth`, `priv`, `html`, `php`, `phpw`, `info`, `infol`), tags in any
      case, never reaches the teaser: it is cut out whole and the text around it joined, provided its
      body holds no closing tag of its own and no hidden opening tag, and the joined text opens no
      hidden block. */
  lemma HiddenBlockRemoved(m: nat, a: string, open: string, x: string, close: string, b: string)
    requires m < |HiddenTags|
    requires EqualsCI(open, "<" + HiddenTags[m] + ">") && EqualsCI(close, "</" + HiddenTags[m] + ">")
    requires !ContainsCI(x, "</" + HiddenTags[m] + ">") && NoHiddenOpening(x)
    requires NoHiddenOpening(a + b)
    ensures StripHidden(a + open + x + close + b) == a + b
  {
    var tag := HiddenTags[m];
    var d := a + open + x + close + b;
    HiddenTagsPlain();
    forall t, i | t in HiddenTags[..m] && 0 <= i <= |d| ensures !OccursAt(d, "<" + t + ">", i, true) {
      var r :| 0 <= r < m && HiddenTags[r] == t;
      assert t in HiddenTags;
      NoOtherOpening(a, open, x, close, b, tag, t);
    }
    StripBlocksSkip(d, HiddenTags, m);
    assert HiddenTags[m..][0] == tag && HiddenTags[m..][1..] == HiddenTags[m + 1..];
    assert !OccursAt(a + b, "<" + tag + ">", 0, true);
    BlockReplaced(a, open, x, close, b, tag);
    assert StripHidden(d) == StripBlocks(a + b, HiddenTags[m + 1..]);
    forall t, i | t in HiddenTags[m + 1..] && 0 <= i <= |a + b| ensures !OccursAt(a + b, "<" + t + ">", i, true) {
      assert t in HiddenTags;
    }
    StripBlocksUntouched(a + b, HiddenTags[m + 1..]);
  }

  /** Removing hidden blocks never makes the text longer. */
  lemma {:induction false} StripBlocksNotLonger(d: string, tags: seq<string>)
    ensures |StripBlocks(d, tags)| <= |d|
    decreases |tags|
  {
    if |tags| > 0 {
      ReplaceNotLonger(d, HiddenBlock(tags[0]), "");
      StripBlocksNotLonger(Replace(d, HiddenBlock(tags[0]), ""), tags[1..]);
    }
  }
}
