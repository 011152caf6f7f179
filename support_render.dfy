/** Markdown assembly for a parsed support-guide page
    (`renderSupportGuideMarkdown`): a list of lines, some of them present only
    when the page has the matching part, joined with "\n". */
module SupportRender {
  import opened Wrappers
  import opened Strings
  import opened SupportTypes

  /** `content.publishedDate` is truthy: present and not the empty string. */
  predicate HasDate(c: ParsedContent) {
    c.publishedDate.Some? && c.publishedDate.value != ""
  }

  /** `content.relatedLinks && content.relatedLinks.length > 0`. */
  predicate HasLinks(c: ParsedContent) {
    c.relatedLinks.Some? && |c.relatedLinks.value| > 0
  }

  function SourceLine(url: string): string {
    "**\U{1F4CE} Source:** " + url
  }

  function FooterLine(url: string): string {
    "*Source: " + url + "*"
  }

  function PublishedLine(date: string): string {
    "*Published: " + date + "*"
  }

  // The blocks of the page, in output order.

  function TitleLines(c: ParsedContent): seq<string> {
    if c.title != "" then ["# " + c.title, ""] else []
  }

  function HeaderLines(url: string): seq<string> {
    [SourceLine(url), "", "---", ""]
  }

  function BodyLines(c: ParsedContent): seq<string> {
    if c.body != "" then [Trim(c.body), ""] else []
  }

  function DateLines(c: ParsedContent): seq<string> {
    if HasDate(c) then ["", "---", PublishedLine(c.publishedDate.value)] else []
  }

  /** One bullet per link, in the order given. */
  function LinkLines(links: seq<string>): seq<string> {
    seq(|links|, i requires 0 <= i < |links| => "- " + links[i])
  }

  function RelatedLines(c: ParsedContent): seq<string> {
    if HasLinks(c) then ["", "## Related Links", ""] + LinkLines(c.relatedLinks.value) else []
  }

  function FooterLines(url: string): seq<string> {
    ["", "---", FooterLine(url)]
  }

  /** The lines `renderSupportGuideMarkdown` collects before joining them. */
  function Layout(c: ParsedContent, url: string): seq<string> {
    TitleLines(c) + HeaderLines(url) + BodyLines(c) + DateLines(c) + RelatedLines(c) + FooterLines(url)
  }

  /** `renderSupportGuideMarkdown`: the parts are pushed in order, one bullet
      per related link, and joined with newlines. */
  method RenderSupportGuideMarkdown(content: ParsedContent, sourceUrl: string) returns (md: string)
    ensures md == Join(Layout(content, sourceUrl), "\n")
  {
    var parts: seq<string> := [];
    if content.title != "" {
      parts := parts + ["# " + content.title, ""];
    }
    parts := parts + [SourceLine(sourceUrl), "", "---", ""];
    assert parts == TitleLines(content) + HeaderLines(sourceUrl);
    if content.body != "" {
      parts := parts + [Trim(content.body), ""];
    }
    assert parts == TitleLines(content) + HeaderLines(sourceUrl) + BodyLines(content);
    if content.publishedDate.Some? && content.publishedDate.value != "" {
      parts := parts + ["", "---", PublishedLine(content.publishedDate.value)];
    }
    ghost var front := parts;
    assert front == TitleLines(content) + HeaderLines(sourceUrl) + BodyLines(content) + DateLines(content);
    if content.relatedLinks.Some? && |content.relatedLinks.value| > 0 {
      var links := content.relatedLinks.value;
      parts := parts + ["", "## Related Links", ""];
      ghost var heading := parts;
      for i := 0 to |links|
        invariant parts == heading + LinkLines(links[..i])
      {
        assert LinkLines(links[..i + 1]) == LinkLines(links[..i]) + ["- " + links[i]];
        parts := parts + ["- " + links[i]];
      }
      assert links[..|links|] == links;
      assert parts == front + RelatedLines(content);
    }
    assert parts == front + RelatedLines(content);
    parts := parts + ["", "---", FooterLine(sourceUrl)];
    md := Join(parts, "\n");
  }

  /** Number of lines of the title block, the body block, the date block and
      the related-links block. */
  function TitleSize(c: ParsedContent): nat {
    if c.title != "" then 2 else 0
  }

  function BodySize(c: ParsedContent): nat {
    if c.body != "" then 2 else 0
  }

  function DateSize(c: ParsedContent): nat {
    if HasDate(c) then 3 else 0
  }

  function LinksSize(c: ParsedContent): nat {
    if HasLinks(c) then 3 + |c.relatedLinks.value| else 0
  }

  /** The page has the four header lines and the three footer lines always,
      two title lines exactly when there is a title, two body lines exactly
      when there is a body, three date lines exactly when there is a date, and
      three lines plus one per link exactly when there are related links. */
  lemma LayoutLength(c: ParsedContent, url: string)
    ensures |Layout(c, url)| == TitleSize(c) + 4 + BodySize(c) + DateSize(c) + LinksSize(c) + 3
  {
  }

  /** The output opens with the title heading and a blank line when there is a
      title; the source line follows either way. */
  lemma LayoutOpening(c: ParsedContent, url: string)
    ensures c.title != "" ==> Layout(c, url)[0] == "# " + c.title && Layout(c, url)[1] == ""
    ensures Layout(c, url)[TitleSize(c)] == SourceLine(url)
    ensures Layout(c, url)[TitleSize(c) + 1..TitleSize(c) + 4] == ["", "---", ""]
  {
    var l := Layout(c, url);
    assert l == TitleLines(c) + (HeaderLines(url) + BodyLines(c) + DateLines(c) + RelatedLines(c) + FooterLines(url));
  }

  /** The trimmed body, the published date and the related links sit at the
      places the block sizes say. */
  lemma LayoutBody(c: ParsedContent, url: string)
    requires c.body != ""
    ensures Layout(c, url)[TitleSize(c) + 4] == Trim(c.body)
    ensures Layout(c, url)[TitleSize(c) + 5] == ""
  {
    var l := Layout(c, url);
    var pre := TitleLines(c) + HeaderLines(url);
    assert l == pre + BodyLines(c) + (DateLines(c) + RelatedLines(c) + FooterLines(url));
    assert l[|pre|] == BodyLines(c)[0] && l[|pre| + 1] == BodyLines(c)[1];
  }

  lemma LayoutDate(c: ParsedContent, url: string)
    requires HasDate(c)
    ensures var k := TitleSize(c) + 4 + BodySize(c);
      Layout(c, url)[k..k + 3] == ["", "---", PublishedLine(c.publishedDate.value)]
  {
    var l := Layout(c, url);
    var pre := TitleLines(c) + HeaderLines(url) + BodyLines(c);
    assert l == pre + DateLines(c) + (RelatedLines(c) + FooterLines(url));
    assert l[|pre|..|pre| + 3] == DateLines(c);
  }

  lemma LayoutLinks(c: ParsedContent, url: string)
    requires HasLinks(c)
    ensures var k := TitleSize(c) + 4 + BodySize(c) + DateSize(c);
      && Layout(c, url)[k..k + 3] == ["", "## Related Links", ""]
      && forall i :: 0 <= i < |c.relatedLinks.value| ==> Layout(c, url)[k + 3 + i] == "- " + c.relatedLinks.value[i]
  {
    var pre := TitleLines(c) + HeaderLines(url) + BodyLines(c) + DateLines(c);
    var links := c.relatedLinks.value;
    var mid := RelatedLines(c);
    assert |pre| == TitleSize(c) + 4 + BodySize(c) + DateSize(c) by {
      BlockSizes(c, url);
    }
    assert Layout(c, url) == pre + mid + FooterLines(url);
    Middle(pre, mid, FooterLines(url));
    assert mid[..3] == ["", "## Related Links", ""];
    forall i | 0 <= i < |links| ensures mid[3 + i] == "- " + links[i] {
      assert mid[3 + i] == LinkLines(links)[i];
    }
  }

  lemma BlockSizes(c: ParsedContent, url: string)
    ensures |TitleLines(c)| == TitleSize(c) && |HeaderLines(url)| == 4 && |BodyLines(c)| == BodySize(c)
    ensures |DateLines(c)| == DateSize(c) && |RelatedLines(c)| == LinksSize(c)
  {
  }

  /** Slicing the middle part out of a three-part sequence. */
  lemma Middle(pre: seq<string>, mid: seq<string>, post: seq<string>)
    ensures (pre + mid + post)[|pre|..|pre| + |mid|] == mid
    ensures forall i :: 0 <= i < |mid| ==> (pre + mid + post)[|pre| + i] == mid[i]
  {
    assert (pre + mid + post)[|pre|..|pre| + |mid|] == mid;
  }

  /** Joining a non-empty sequence with three more lines. */
  lemma JoinThree(front: seq<string>, a: string, b: string, c: string, sep: string)
    requires front != []
    ensures Join(front + [a, b, c], sep) == Join(front, sep) + sep + a + sep + b + sep + c
  {
    assert front + [a, b, c] == front + [a] + [b] + [c];
    JoinSnoc(front, a, sep);
    JoinSnoc(front + [a], b, sep);
    JoinSnoc(front + [a] + [b], c, sep);
  }

  /** The output begins with the title heading and a blank line exactly when
      there is a title, and then with the source line. */
  lemma RenderOpening(c: ParsedContent, url: string)
    ensures c.title != "" ==> StartsWith(Join(Layout(c, url), "\n"), "# " + c.title + "\n\n" + SourceLine(url) + "\n")
    ensures c.title == "" ==> StartsWith(Join(Layout(c, url), "\n"), SourceLine(url) + "\n")
  {
    var rest := AfterTitle(c, url);
    LayoutAfterTitle(c, url);
    var j := Join(rest[1..], "\n");
    StartsWithPrefix(SourceLine(url) + "\n", j);
    if c.title != "" {
      var x := "# " + c.title;
      assert TitleLines(c) + rest == [x] + ([""] + rest);
      JoinCons("", rest, "\n");
      JoinCons(x, [""] + rest, "\n");
      var y := SourceLine(url) + "\n";
      assert Join(Layout(c, url), "\n") == x + "\n" + ("" + "\n" + (y + j));
      assert x + "\n" + ("" + "\n" + (y + j)) == (x + "\n\n" + y) + j;
      StartsWithPrefix(x + "\n\n" + y, j);
    }
  }

  /** The lines after the title block. */
  function AfterTitle(c: ParsedContent, url: string): seq<string> {
    HeaderLines(url) + BodyLines(c) + DateLines(c) + RelatedLines(c) + FooterLines(url)
  }

  lemma LayoutAfterTitle(c: ParsedContent, url: string)
    ensures Layout(c, url) == TitleLines(c) + AfterTitle(c, url)
    ensures Join(AfterTitle(c, url), "\n") == SourceLine(url) + "\n" + Join(AfterTitle(c, url)[1..], "\n")
  {
    var t, h, b, d, r, f := TitleLines(c), HeaderLines(url), BodyLines(c), DateLines(c), RelatedLines(c), FooterLines(url);
    AppendAssoc(t, h + b + d + r, f);
    AppendAssoc(t, h + b + d, r);
    AppendAssoc(t, h + b, d);
    AppendAssoc(t, h, b);
    var rest := AfterTitle(c, url);
    assert rest[0] == SourceLine(url) && |rest| > 1;
  }

  /** The output always ends with the separator line and the source reminder. */
  lemma RenderClosing(c: ParsedContent, url: string)
    ensures EndsWith(Join(Layout(c, url), "\n"), "\n---\n" + FooterLine(url))
  {
    var front := TitleLines(c) + HeaderLines(url) + BodyLines(c) + DateLines(c) + RelatedLines(c);
    assert Layout(c, url) == front + ["", "---", FooterLine(url)];
    JoinThree(front, "", "---", FooterLine(url), "\n");
    var j := Join(front, "\n");
    assert j + "\n" + "" + "\n" + "---" + "\n" + FooterLine(url) == (j + "\n") + ("\n---\n" + FooterLine(url));
    EndsWithSuffix(j + "\n", "\n---\n" + FooterLine(url));
  }
}
