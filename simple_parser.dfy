/** The regular-expression extractor for Apple Support guide pages
    (`parseAppleSupportHTML`): the title and the published date are read off
    the page with hand-written matchers for their patterns, and the body is
    assembled from the intro paragraphs, the Subhead blocks and the Outro
    paragraph, each cleaned up and prefixed with a blank line. */
module SimpleParser {
  import opened Wrappers
  import opened Strings
  import opened SupportTypes
  import opened InlineCleanup

  // ---------------------------------------------------------------------------
  // Leftmost element match
  // ---------------------------------------------------------------------------

  /** Index of the leftmost match, at or after `from`, of
      `<NAME[^>]*ATTR[^>]*>([^<]+)CLOSE` (`open` being `<NAME`), as
      `String.prototype.match` finds it. */
  function FindElement(s: string, open: string, attr: string, close: string, from: nat): (r: Option<nat>)
    requires from <= |s|
    ensures r.Some? ==> from <= r.value <= |s| && ElementAt(s[r.value..], open, attr, close).Some?
    decreases |s| - from
  {
    if ElementAt(s[from..], open, attr, close).Some? then Some(from)
    else if from == |s| then None
    else FindElement(s, open, attr, close, from + 1)
  }

  /** No match starts before the one found, and there is none when nothing is
      found. */
  lemma {:induction false} FindElementFirst(s: string, open: string, attr: string, close: string, from: nat, j: nat)
    requires from <= j <= |s|
    requires var r := FindElement(s, open, attr, close, from); r.None? || j < r.value
    ensures ElementAt(s[j..], open, attr, close).None?
    decreases |s| - from
  {
    if from < j {
      FindElementFirst(s, open, attr, close, from + 1, j);
    }
  }

  /** The text the leftmost match captures. */
  function Capture(s: string, open: string, attr: string, close: string): Option<string> {
    var r := FindElement(s, open, attr, close, 0);
    if r.Some? then Some(ElementAt(s[r.value..], open, attr, close).value.out) else None
  }

  /** A match at the very start is the one captured. */
  lemma CaptureAtStart(s: string, open: string, attr: string, close: string, x: string, len: nat)
    requires ElementAt(s, open, attr, close) == Some(Hit(x, len))
    ensures Capture(s, open, attr, close) == Some(x)
  {
    assert s[0..] == s;
  }

  // ---------------------------------------------------------------------------
  // Title
  // ---------------------------------------------------------------------------

  const SiteSuffix := " - Apple Support"
  const PlatformPrefix := "Apple Platform "

  /** `s.replace(/SUFFIX$/, "")`: the suffix is removed when `s` ends with it. */
  function DropSuffix(s: string, suffix: string): (r: string)
    ensures EndsWith(s, suffix) ==> r + suffix == s
    ensures !EndsWith(s, suffix) ==> r == s
  {
    if EndsWith(s, suffix) then
      assert s == s[..|s| - |suffix|] + s[|s| - |suffix|..];
      s[..|s| - |suffix|]
    else s
  }

  /** The captured title, trimmed, without the site suffix and without the
      first "Apple Platform ". */
  function CleanTitle(t: string): string {
    ReplaceFirst(DropSuffix(Trim(t), SiteSuffix), PlatformPrefix, "")
  }

  /** The text of the first `<h1>`, else of the `<title>`, cleaned up; empty
      when the page has neither. */
  function TitleOf(html: string): string {
    var h1 := Capture(html, "<h1", "", "</h1>");
    var m := if h1.Some? then h1 else Capture(html, "<title", "", "</title>");
    if m.Some? then CleanTitle(m.value) else ""
  }

  /** A page with neither element has an empty title. */
  lemma TitleAbsent(html: string)
    requires forall i :: 0 <= i <= |html| ==> ElementAt(html[i..], "<h1", "", "</h1>").None?
    requires forall i :: 0 <= i <= |html| ==> ElementAt(html[i..], "<title", "", "</title>").None?
    ensures TitleOf(html) == ""
  {
  }

  /** An `<h1>` wins over the `<title>`, wherever each one is. */
  lemma TitlePrefersH1(html: string, i: nat)
    requires i <= |html| && ElementAt(html[i..], "<h1", "", "</h1>").Some?
    ensures exists x :: Capture(html, "<h1", "", "</h1>") == Some(x) && TitleOf(html) == CleanTitle(x)
  {
    if FindElement(html, "<h1", "", "</h1>", 0).None? {
      FindElementFirst(html, "<h1", "", "</h1>", 0, i);
    }
    var x := Capture(html, "<h1", "", "</h1>").value;
    assert TitleOf(html) == CleanTitle(x);
  }

  /** A page opening with `<h1 ...>x</h1>` is titled after `x`. */
  lemma TitleFromH1(a: string, x: string, rest: string)
    requires '>' !in a
    requires x != [] && '<' !in x
    ensures TitleOf("<h1" + a + ">" + x + "</h1>" + rest) == CleanTitle(x)
  {
    assert MatchesAt(a, "", 0);
    ElementAtShape("<h1", "", a, x, "</h1>", rest);
    CaptureAtStart("<h1" + a + ">" + x + "</h1>" + rest, "<h1", "", "</h1>", x, |a| + |x| + 9);
  }

  /** "Apple Platform Deployment - Apple Support" is titled "Deployment". */
  lemma CleanTitleStrips(y: string)
    ensures CleanTitle(PlatformPrefix + y + SiteSuffix) == y
  {
    var t := PlatformPrefix + y + SiteSuffix;
    assert t[0] == 'A' && t[|t| - 1] == 't';
    TrimNoop(t);
    EndsWithSuffix(PlatformPrefix + y, SiteSuffix);
    var d := DropSuffix(t, SiteSuffix);
    assert d + SiteSuffix == PlatformPrefix + y + SiteSuffix;
    assert d == PlatformPrefix + y;
    assert MatchesAt(d, PlatformPrefix, 0);
    assert d[|PlatformPrefix|..] == y;
  }

  /** A title that mentions neither marker is only trimmed. */
  lemma CleanTitlePlain(t: string)
    requires !EndsWith(Trim(t), SiteSuffix) && !Contains(Trim(t), PlatformPrefix)
    ensures CleanTitle(t) == Trim(t)
  {
    ContainsFind(Trim(t), PlatformPrefix);
  }

  // ---------------------------------------------------------------------------
  // Published date
  // ---------------------------------------------------------------------------

  const DateLabel := "Published Date:"

  /** `Published Date:\s*([^<]+)` with the label at index `i`. The greedy
      `\s*` takes the whole run of white space, and the capture runs from
      there to the next `<`; when the run is followed by `<` or the end, `\s*`
      gives back its last character, which is then the whole capture; with no
      white space and no text there is no match. */
  function DateAt(s: string, i: nat): (r: Option<string>)
    requires MatchesAt(s, DateLabel, i)
    ensures r.Some? ==> r.value != [] && '<' !in r.value
  {
    var k := i + |DateLabel|;
    var j := k + LeadingSpaces(s[k..]);
    if j < |s| && s[j] != '<' then
      var m := NextChar(s, j, '<');
      assert forall c :: 0 <= c < m - j ==> s[j..m][c] == s[j + c];
      Some(s[j..m])
    else if k < j then
      assert s[j - 1..j] == [s[j - 1]];
      assert IsSpace(s[j - 1]) by {
        LeadingSpacesAreSpace(s[k..]);
        assert s[k..][j - 1 - k] == s[j - 1];
      }
      Some(s[j - 1..j])
    else None
  }

  /** The date pattern matches with the label at index `i`. */
  predicate DateMatch(s: string, i: nat) {
    MatchesAt(s, DateLabel, i) && DateAt(s, i).Some?
  }

  /** The leftmost match of the date pattern at or after `from`: nothing
      exactly when the pattern matches nowhere from there on. */
  function DateFrom(s: string, from: nat): (r: Option<string>)
    requires from <= |s|
    ensures r.Some? ==> r.value != [] && '<' !in r.value
    ensures r.None? <==> forall j :: from <= j <= |s| ==> !DateMatch(s, j)
    decreases |s| - from
  {
    if DateMatch(s, from) then DateAt(s, from)
    else if from == |s| then None
    else DateFrom(s, from + 1)
  }

  /** The match at the leftmost index where the pattern matches is the one
      taken. */
  lemma {:induction false} DateFromFirst(s: string, from: nat, i: nat)
    requires from <= i <= |s| && DateMatch(s, i)
    requires forall j :: from <= j < i ==> !DateMatch(s, j)
    ensures DateFrom(s, from) == DateAt(s, i)
    decreases i - from
  {
    if from < i {
      DateFromFirst(s, from + 1, i);
    }
  }

  /** `publishedDate`: the trimmed capture, absent when the pattern does not
      match. */
  function DateOf(html: string): (r: Option<string>)
  {
    var m := DateFrom(html, 0);
    if m.Some? then Some(Trim(m.value)) else None
  }

  lemma {:induction false} DateFromNone(s: string, from: nat)
    requires from <= |s|
    requires forall i :: from <= i <= |s| ==> !MatchesAt(s, DateLabel, i)
    ensures DateFrom(s, from).None?
    decreases |s| - from
  {
    if from < |s| {
      DateFromNone(s, from + 1);
    }
  }

  /** Without the label there is no date. */
  lemma DateAbsent(html: string)
    requires !Contains(html, DateLabel)
    ensures DateOf(html).None?
  {
    forall i | 0 <= i <= |html| ensures !MatchesAt(html, DateLabel, i) {
      if MatchesAt(html, DateLabel, i) {
        ContainsAt(html, DateLabel, i);
      }
    }
    DateFromNone(html, 0);
  }

  /** The date holds no `<` and no white space at either end. */
  lemma DateShape(html: string)
    requires DateOf(html).Some?
    ensures '<' !in DateOf(html).value
    ensures var d := DateOf(html).value; d == [] || (!IsSpace(d[0]) && !IsSpace(d[|d| - 1]))
  {
    var m := DateFrom(html, 0).value;
    assert DateOf(html).value == Trim(m);
    assert '<' !in m;
    TrimSpec(m);
    var a := LeadingSpaces(m);
    var d := Trim(m);
    forall c | 0 <= c < |d| ensures d[c] != '<' {
      assert d[c] == m[a..a + |d|][c] == m[a + c];
    }
  }

  /** The white space after index `k` holds no `<`. */
  lemma SpaceRun(s: string, k: nat)
    requires k <= |s|
    ensures k + LeadingSpaces(s[k..]) <= |s|
    ensures AllSpace(s[k..k + LeadingSpaces(s[k..])])
    ensures forall c :: k <= c < k + LeadingSpaces(s[k..]) ==> s[c] != '<'
  {
    LeadingSpacesAreSpace(s[k..]);
    var j := k + LeadingSpaces(s[k..]);
    forall c | k <= c < j ensures IsSpace(s[c]) { assert s[c] == s[k..][c - k]; }
    forall c | 0 <= c < j - k ensures IsSpace(s[k..j][c]) { assert s[k..j][c] == s[k + c]; }
  }

  /** With the label at `i` followed by something other than `<`, the pattern
      matches there, and its capture trims to the text up to the next `<`. */
  lemma DateAtValue(html: string, i: nat)
    requires MatchesAt(html, DateLabel, i)
    requires NextChar(html, i + |DateLabel|, '<') > i + |DateLabel|
    ensures DateMatch(html, i)
    ensures Trim(DateAt(html, i).value) == Trim(html[i + |DateLabel|..NextChar(html, i + |DateLabel|, '<')])
  {
    var k := i + |DateLabel|;
    var m := NextChar(html, k, '<');
    var j := k + LeadingSpaces(html[k..]);
    SpaceRun(html, k);
    NextCharSkip(html, k, j, '<');
    if j < |html| && html[j] != '<' {
      assert DateAt(html, i) == Some(html[j..m]);
      assert html[k..m] == html[k..j] + html[j..m];
      TrimAfterSpace(html[k..j], html[j..m]);
      assert Trim(html[k..m]) == Trim(html[j..m]);
    } else {
      assert DateAt(html, i) == Some(html[j - 1..j]);
      assert m == j;
      assert IsSpace(html[j - 1]) by {
        assert html[j - 1] == html[k..j][j - 1 - k];
      }
      assert html[j - 1..j] == [html[j - 1]];
      assert AllSpace(html[k..m]) by { assert html[k..m] == html[k..j]; }
      TrimEmpty(html[j - 1..j]);
      TrimEmpty(html[k..m]);
      assert Trim(html[k..m]) == [] == Trim(html[j - 1..j]);
    }
  }

  /** On any page: with the first "Published Date:" at index `i`, followed by
      something other than `<`, the date is the text from the end of the label
      up to the next `<` (or the end of the page), trimmed. */
  lemma DateOfFirst(html: string, i: nat)
    requires MatchesAt(html, DateLabel, i)
    requires forall j :: 0 <= j < i ==> !MatchesAt(html, DateLabel, j)
    requires NextChar(html, i + |DateLabel|, '<') > i + |DateLabel|
    ensures DateOf(html) == Some(Trim(html[i + |DateLabel|..NextChar(html, i + |DateLabel|, '<')]))
  {
    DateAtValue(html, i);
    DateFromFirst(html, 0, i);
  }

  /** "Published Date: " followed by the date and a tag gives that date. */
  lemma DateAfterLabel(d: string, rest: string)
    requires d != [] && '<' !in d && !IsSpace(d[0]) && !IsSpace(d[|d| - 1])
    ensures DateOf(DateLabel + " " + d + "<" + rest) == Some(d)
  {
    var s := DateLabel + " " + d + "<" + rest;
    var k := |DateLabel|;
    assert s == DateLabel + (" " + d + "<" + rest);
    Infix([], DateLabel, " " + d + "<" + rest);
    assert s[k..] == " " + d + "<" + rest;
    assert LeadingSpaces(s[k..]) == 1 by {
      assert s[k..][1..] == d + "<" + rest;
    }
    assert s == DateLabel + " " + d + ("<" + rest);
    RunTo(DateLabel + " ", d, "<" + rest, '<');
    assert DateAt(s, 0) == Some(d);
    TrimNoop(d);
  }

  // ---------------------------------------------------------------------------
  // Sections
  // ---------------------------------------------------------------------------

  /** One `<div class="...Subhead...">` block: its inner HTML and the texts of
      its `<p>` paragraphs, in document order. */
  datatype Subhead = Subhead(html: string, paragraphs: seq<string>)

  /** What the lazy and look-ahead patterns capture on a page, in document
      order: the intro paragraphs (none when the page has no `<body>` before a
      Subhead), the Subhead blocks, and the first paragraph of the Outro block
      when there is one. */
  datatype Captures = Captures(intro: seq<string>, subheads: seq<Subhead>, outro: Option<string>)

  /** A cleaned paragraph is kept when it is not empty and longer than `min`
      UTF-16 code units: ten for an intro paragraph, none for a Subhead or
      Outro paragraph. */
  predicate Kept(text: string, min: nat) {
    text != "" && Utf16Length(text) > min
  }

  /** With no minimum length, a paragraph is kept exactly when it is not empty. */
  lemma KeptAnyLength(text: string)
    ensures Kept(text, 0) <==> text != ""
  {
  }

  /** The section a cleaned paragraph gives: a blank line and the text. */
  function ParagraphSection(text: string, min: nat): (r: seq<string>)
    ensures |r| <= 1
  {
    if Kept(text, min) then ["\n\n" + text] else []
  }

  /** The sections of a run of paragraphs, in order. */
  function Paragraphs(ps: seq<string>, min: nat): seq<string>
  {
    if ps == [] then [] else Paragraphs(ps[..|ps| - 1], min) + ParagraphSection(CleanParagraph(ps[|ps| - 1]), min)
  }

  /** The `## ` heading of a Subhead block, from its `<h2 class="Name">`. */
  function HeadingSection(html: string): (r: seq<string>)
    ensures |r| <= 1
  {
    var h := Capture(html, "<h2", "class=\"Name\"", "</h2>");
    if h.Some? then ["\n\n## " + Trim(h.value)] else []
  }

  /** A Subhead block: its heading, then its paragraphs. */
  function SubheadBlock(sub: Subhead): seq<string> {
    HeadingSection(sub.html) + Paragraphs(sub.paragraphs, 0)
  }

  function SubheadSections(subs: seq<Subhead>): seq<string>
  {
    if subs == [] then [] else SubheadSections(subs[..|subs| - 1]) + SubheadBlock(subs[|subs| - 1])
  }

  function OutroSections(outro: Option<string>): seq<string> {
    if outro.Some? then ParagraphSection(CleanOutro(outro.value), 0) else []
  }

  /** Everything pushed onto `sections`, in order. */
  function Sections(caps: Captures): seq<string> {
    Paragraphs(caps.intro, 10) + SubheadSections(caps.subheads) + OutroSections(caps.outro)
  }

  /** `parseAppleSupportHTML`: the title and date are read off the page, and
      the sections are pushed in document order and joined with "". */
  method ParseAppleSupportHTML(html: string, caps: Captures) returns (r: ParsedContent)
    ensures r == ParsedContent(TitleOf(html), Concat(Sections(caps)), DateOf(html), None)
  {
    var title := TitleOf(html);
    var publishedDate := DateOf(html);

    var sections := PushParagraphs([], caps.intro, 10);
    ghost var intro := Paragraphs(caps.intro, 10);
    var n := 0;
    while n < |caps.subheads|
      invariant 0 <= n <= |caps.subheads|
      invariant sections == intro + SubheadSections(caps.subheads[..n])
    {
      ghost var before := SubheadSections(caps.subheads[..n]);
      SubheadSectionsSnoc(caps.subheads, n);
      sections := PushSubhead(sections, caps.subheads[n]);
      AppendAssoc(intro, before, SubheadBlock(caps.subheads[n]));
      n := n + 1;
    }
    assert caps.subheads[..n] == caps.subheads;

    ghost var front := sections;
    if caps.outro.Some? {
      var text := CleanOutro(caps.outro.value);
      if text != "" {
        sections := sections + ["\n\n" + text];
      }
    }
    assert sections == front + OutroSections(caps.outro);

    r := ParsedContent(title, Concat(sections), publishedDate, None);
  }

  lemma SubheadSectionsSnoc(subs: seq<Subhead>, n: nat)
    requires n < |subs|
    ensures SubheadSections(subs[..n + 1]) == SubheadSections(subs[..n]) + SubheadBlock(subs[n])
  {
    assert subs[..n + 1][..n] == subs[..n];
  }

  lemma ParagraphsSnoc(ps: seq<string>, j: nat, min: nat)
    requires j < |ps|
    ensures Paragraphs(ps[..j + 1], min) == Paragraphs(ps[..j], min) + ParagraphSection(CleanParagraph(ps[j]), min)
  {
    assert ps[..j + 1][..j] == ps[..j];
  }

  /** The loop over the paragraphs of a Subhead block or of the intro: each
      cleaned paragraph that is kept is pushed. */
  method PushParagraphs(sections: seq<string>, ps: seq<string>, min: nat) returns (out: seq<string>)
    ensures out == sections + Paragraphs(ps, min)
  {
    out := sections;
    var j := 0;
    while j < |ps|
      invariant 0 <= j <= |ps|
      invariant out == sections + Paragraphs(ps[..j], min)
    {
      ghost var before := Paragraphs(ps[..j], min);
      ParagraphsSnoc(ps, j, min);
      var text := CleanParagraph(ps[j]);
      if text != "" && Utf16Length(text) > min {
        out := out + ["\n\n" + text];
      }
      AppendAssoc(sections, before, ParagraphSection(text, min));
      j := j + 1;
    }
    assert ps[..j] == ps;
  }

  /** One Subhead block: its heading when it has one, then its paragraphs. */
  method PushSubhead(sections: seq<string>, sub: Subhead) returns (out: seq<string>)
    ensures out == sections + SubheadBlock(sub)
  {
    out := sections;
    var headingMatch := Capture(sub.html, "<h2", "class=\"Name\"", "</h2>");
    if headingMatch.Some? {
      out := out + ["\n\n## " + Trim(headingMatch.value)];
    }
    assert out == sections + HeadingSection(sub.html);
    out := PushParagraphs(out, sub.paragraphs, 0);
    AppendAssoc(sections, HeadingSection(sub.html), Paragraphs(sub.paragraphs, 0));
  }

  // ---------------------------------------------------------------------------
  // Properties of the sections
  // ---------------------------------------------------------------------------

  /** Paragraph `p` gives section `x`. */
  predicate Emits(p: string, min: nat, x: string) {
    x == "\n\n" + CleanParagraph(p) && Kept(CleanParagraph(p), min)
  }

  /** Every section of a run of paragraphs comes from one of them ... */
  lemma {:induction false} ParagraphsSound(ps: seq<string>, min: nat, x: string)
    requires x in Paragraphs(ps, min)
    ensures exists i :: 0 <= i < |ps| && Emits(ps[i], min, x)
  {
    var init, last := ps[..|ps| - 1], ps[|ps| - 1];
    if x in Paragraphs(init, min) {
      ParagraphsSound(init, min, x);
      var i :| 0 <= i < |init| && Emits(init[i], min, x);
      assert ps[i] == init[i];
    } else {
      assert Emits(ps[|ps| - 1], min, x);
    }
  }

  /** ... and every paragraph that is kept gives its section. */
  lemma {:induction false} ParagraphsComplete(ps: seq<string>, min: nat, i: nat)
    requires i < |ps| && Kept(CleanParagraph(ps[i]), min)
    ensures "\n\n" + CleanParagraph(ps[i]) in Paragraphs(ps, min)
    decreases |ps|
  {
    var init := ps[..|ps| - 1];
    if i < |ps| - 1 {
      assert ps[i] == init[i];
      ParagraphsComplete(init, min, i);
    }
  }

  /** Paragraphs are emitted in document order: the sections of two runs of
      paragraphs are the sections of the first followed by those of the
      second. */
  lemma {:induction false} ParagraphsAppend(a: seq<string>, b: seq<string>, min: nat)
    ensures Paragraphs(a + b, min) == Paragraphs(a, min) + Paragraphs(b, min)
    decreases |b|
  {
    if b == [] {
      assert a + b == a;
    } else {
      var init := b[..|b| - 1];
      assert (a + b)[..|a + b| - 1] == a + init;
      assert (a + b)[|a + b| - 1] == b[|b| - 1];
      ParagraphsAppend(a, init, min);
      AppendAssoc(Paragraphs(a, min), Paragraphs(init, min), ParagraphSection(CleanParagraph(b[|b| - 1]), min));
    }
  }

  /** No run of paragraphs gives more sections than it has paragraphs. */
  lemma {:induction false} ParagraphsAtMost(ps: seq<string>, min: nat)
    ensures |Paragraphs(ps, min)| <= |ps|
  {
    if ps != [] {
      ParagraphsAtMost(ps[..|ps| - 1], min);
    }
  }

  /** Subhead blocks are emitted in document order. */
  lemma {:induction false} SubheadSectionsAppend(a: seq<Subhead>, b: seq<Subhead>)
    ensures SubheadSections(a + b) == SubheadSections(a) + SubheadSections(b)
    decreases |b|
  {
    if b == [] {
      assert a + b == a;
    } else {
      var init := b[..|b| - 1];
      assert (a + b)[..|a + b| - 1] == a + init;
      assert (a + b)[|a + b| - 1] == b[|b| - 1];
      SubheadSectionsAppend(a, init);
      AppendAssoc(SubheadSections(a), SubheadSections(init), SubheadBlock(b[|b| - 1]));
    }
  }

  /** A block whose inner HTML opens with `<h2 class="Name">x</h2>` starts
      with the `## x` heading, before its paragraphs. */
  lemma SubheadHeadingFirst(a: string, x: string, rest: string, ps: seq<string>)
    requires '>' !in a && Contains(a, "class=\"Name\"")
    requires x != [] && '<' !in x
    ensures SubheadBlock(Subhead("<h2" + a + ">" + x + "</h2>" + rest, ps))
         == ["\n\n## " + Trim(x)] + Paragraphs(ps, 0)
  {
    var html := "<h2" + a + ">" + x + "</h2>" + rest;
    ElementAtShape("<h2", "class=\"Name\"", a, x, "</h2>", rest);
    CaptureAtStart(html, "<h2", "class=\"Name\"", "</h2>", x, |a| + |x| + 9);
  }

  /** The Outro contributes at most one section, and it holds no tag. */
  lemma OutroAtMostOne(outro: Option<string>)
    ensures |OutroSections(outro)| <= 1
    ensures forall i :: 0 <= i < |OutroSections(outro)| ==> NoTagIn(OutroSections(outro)[i][2..])
  {
    if outro.Some? {
      CleanOutroNoTag(outro.value);
      var o := OutroSections(outro);
      if o != [] {
        assert o[0][2..] == CleanOutro(outro.value);
      }
    }
  }

  predicate StartsBlank(x: string) {
    |x| >= 2 && x[..2] == "\n\n"
  }

  predicate AllBlank(xs: seq<string>) {
    forall i :: 0 <= i < |xs| ==> StartsBlank(xs[i])
  }

  lemma AllBlankAppend(a: seq<string>, b: seq<string>)
    requires AllBlank(a) && AllBlank(b)
    ensures AllBlank(a + b)
  {
    forall i | 0 <= i < |a + b| ensures StartsBlank((a + b)[i]) {
      if i >= |a| {
        assert (a + b)[i] == b[i - |a|];
      }
    }
  }

  lemma ParagraphSectionBlank(text: string, min: nat)
    ensures AllBlank(ParagraphSection(text, min))
  {
  }

  lemma {:induction false} ParagraphsBlank(ps: seq<string>, min: nat)
    ensures AllBlank(Paragraphs(ps, min))
  {
    if ps != [] {
      ParagraphsBlank(ps[..|ps| - 1], min);
      ParagraphSectionBlank(CleanParagraph(ps[|ps| - 1]), min);
      AllBlankAppend(Paragraphs(ps[..|ps| - 1], min), ParagraphSection(CleanParagraph(ps[|ps| - 1]), min));
    }
  }

  lemma SubheadBlockBlank(sub: Subhead)
    ensures AllBlank(SubheadBlock(sub))
  {
    ParagraphsBlank(sub.paragraphs, 0);
    AllBlankAppend(HeadingSection(sub.html), Paragraphs(sub.paragraphs, 0));
  }

  lemma {:induction false} SubheadSectionsBlank(subs: seq<Subhead>)
    ensures AllBlank(SubheadSections(subs))
  {
    if subs != [] {
      SubheadSectionsBlank(subs[..|subs| - 1]);
      SubheadBlockBlank(subs[|subs| - 1]);
      AllBlankAppend(SubheadSections(subs[..|subs| - 1]), SubheadBlock(subs[|subs| - 1]));
    }
  }

  /** Every section starts with a blank line. */
  lemma SectionsStartBlank(caps: Captures)
    ensures AllBlank(Sections(caps))
  {
    ParagraphsBlank(caps.intro, 10);
    SubheadSectionsBlank(caps.subheads);
    AllBlankAppend(Paragraphs(caps.intro, 10), SubheadSections(caps.subheads));
    if caps.outro.Some? {
      ParagraphSectionBlank(CleanOutro(caps.outro.value), 0);
    }
    AllBlankAppend(Paragraphs(caps.intro, 10) + SubheadSections(caps.subheads), OutroSections(caps.outro));
  }

  lemma {:induction false} ConcatBlank(xs: seq<string>)
    requires AllBlank(xs)
    ensures Concat(xs) == "" <==> xs == []
    ensures xs != [] ==> StartsBlank(Concat(xs))
  {
    if xs != [] {
      assert Concat(xs)[..2] == xs[0][..2];
    }
  }

  /** The body is empty exactly when no section was emitted, and otherwise it
      opens with a blank line. */
  lemma BodyEmptyIff(caps: Captures)
    ensures Concat(Sections(caps)) == "" <==> Sections(caps) == []
    ensures Sections(caps) != [] ==> StartsBlank(Concat(Sections(caps)))
  {
    SectionsStartBlank(caps);
    ConcatBlank(Sections(caps));
  }

  /** The body is the intro text, then the Subhead text, then the Outro text. */
  lemma BodyParts(caps: Captures)
    ensures Concat(Sections(caps))
         == Concat(Paragraphs(caps.intro, 10)) + Concat(SubheadSections(caps.subheads)) + Concat(OutroSections(caps.outro))
  {
    ConcatAppend(Paragraphs(caps.intro, 10) + SubheadSections(caps.subheads), OutroSections(caps.outro));
    ConcatAppend(Paragraphs(caps.intro, 10), SubheadSections(caps.subheads));
  }
}
