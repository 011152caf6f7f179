/** Fetching and extracting Apple Support guide pages: the page URL, the
    reading of the HTTP status, and the event-driven HTML extractor. */
module SupportFetch {
  import opened Wrappers
  import opened Strings
  import opened SupportTypes

  const SupportHost: string := "https://support.apple.com"

  // ---------------------------------------------------------------------------
  // Page URL
  // ---------------------------------------------------------------------------

  predicate AllSlash(s: string) {
    forall i :: 0 <= i < |s| ==> s[i] == '/'
  }

  function LeadingSlashes(s: string): (n: nat)
    ensures n <= |s|
    ensures forall i :: 0 <= i < n ==> s[i] == '/'
    ensures n < |s| ==> s[n] != '/'
  {
    if s == [] || s[0] != '/' then 0
    else 1 + LeadingSlashes(s[1..])
  }

  function TrailingSlashes(s: string): (n: nat)
    ensures n <= |s|
    ensures forall i :: |s| - n <= i < |s| ==> s[i] == '/'
    ensures n < |s| ==> s[|s| - n - 1] != '/'
  {
    if s == [] || s[|s| - 1] != '/' then 0
    else 1 + TrailingSlashes(s[..|s| - 1])
  }

  /** `s` is `r` with slashes added before and after it (`a` of them before). */
  ghost predicate SlashPadded(s: string, r: string, a: nat) {
    && a + |r| <= |s|
    && (forall i :: 0 <= i < a ==> s[i] == '/')
    && s[a..a + |r|] == r
    && (forall i :: a + |r| <= i < |s| ==> s[i] == '/')
  }

  /** `path.replace(/^\/+|\/+$/g, "")`: every leading and every trailing "/"
      is removed, and nothing else. */
  function NormalizePath(path: string): (r: string)
    ensures r == [] || (r[0] != '/' && r[|r| - 1] != '/')
    ensures SlashPadded(path, r, LeadingSlashes(path))
    ensures AllSlash(path) <==> r == []
  {
    var a := LeadingSlashes(path);
    var t := path[a..];
    assert AllSlash(path) ==> a == |path|;
    t[..|t| - TrailingSlashes(t)]
  }

  /** A path without a "/" at either end is left as it is, so normalising
      twice is normalising once. */
  lemma NormalizePathIdempotent(path: string)
    ensures NormalizePath(NormalizePath(path)) == NormalizePath(path)
  {
    var r := NormalizePath(path);
    assert LeadingSlashes(r) == 0;
    assert r[0..] == r;
  }

  /** The URL requested for a guide page. */
  function GuidePageUrl(guide: string, path: string): (url: string)
  {
    SupportHost + "/guide/" + guide + "/" + NormalizePath(path) + "/web"
  }

  /** The page URL lies under the guide prefix of the support host and ends
      in the web-view suffix. */
  lemma GuidePageUrlShape(guide: string, path: string)
    ensures StartsWith(GuidePageUrl(guide, path), SupportHost + "/guide/")
    ensures EndsWith(GuidePageUrl(guide, path), "/web")
  {
    var prefix := SupportHost + "/guide/";
    var front := prefix + guide + "/" + NormalizePath(path);
    var rest := guide + "/" + NormalizePath(path) + "/web";
    assert GuidePageUrl(guide, path) == front + "/web";
    assert front + "/web" == prefix + rest;
    StartsWithPrefix(prefix, rest);
    EndsWithSuffix(front, "/web");
  }

  /** The page URL depends on the path only through its normalised form. */
  lemma GuidePageUrlNormalized(guide: string, path: string)
    ensures GuidePageUrl(guide, NormalizePath(path)) == GuidePageUrl(guide, path)
  {
    NormalizePathIdempotent(path);
  }

  // ---------------------------------------------------------------------------
  // HTTP outcome
  // ---------------------------------------------------------------------------

  /** What the host's fetch returned for the page URL. */
  datatype Response = Response(status: int, statusText: string, body: string) {
    /** `response.ok`: a 2xx status. */
    predicate Ok() {
      200 <= status <= 299
    }
  }

  datatype FetchError = NotFound(message: string) | FetchFailed(message: string)

  /** The result of `fetchSupportGuidePage` once the response is in: the body
      text on success, `NotFound` for 404 and a generic failure otherwise. */
  function FetchSupportGuidePage(guide: string, path: string, response: Response): (r: Result<string, FetchError>)
    ensures r.Ok? <==> response.Ok()
    ensures r.Ok? ==> r.value == response.body
    ensures r.Err? ==> (r.error.NotFound? <==> response.status == 404)
    ensures r.Err? && r.error.NotFound? ==>
      r.error.message == "Apple Support guide page not found at " + GuidePageUrl(guide, path)
    ensures r.Err? && r.error.FetchFailed? ==>
      r.error.message == "Failed to fetch support guide page: " + IntToString(response.status) + " " + response.statusText
  {
    var url := GuidePageUrl(guide, path);
    if !response.Ok() then
      if response.status == 404 then Err(NotFound("Apple Support guide page not found at " + url))
      else Err(FetchFailed("Failed to fetch support guide page: " + IntToString(response.status) + " " + response.statusText))
    else Ok(response.body)
  }

  // ---------------------------------------------------------------------------
  // The event-driven extractor
  // ---------------------------------------------------------------------------

  /** The elements the rewriter hands to the parser (its selectors). */
  datatype Tag = H1 | H2 | H3 | H4 | P | Ul | Li | Code | Strong | B | Em | I | A | Footer | Body | Div

  /** One call the HTML rewriter makes on the parser, in document order: an
      element opening (its tag and its `class` and `href` attributes, ""
      when absent) or a chunk of text. */
  datatype Event =
    | Open(tag: Tag, cls: string, href: string)
    | Chunk(text: string, lastInText: bool)

  /** What the parser has extracted so far. */
  datatype Extracted = Extracted(
    title: string,
    body: seq<string>,
    publishedDate: Option<string>,
    relatedLinks: seq<string>)

  /** The flags saying which part of the page the parser is in. */
  datatype Region = Region(
    isInTitle: bool,
    isInMainContent: bool,
    isInFooter: bool,
    isInRelatedLinks: bool,
    skipContent: bool)

  /** The flags of the inline and block elements whose text is open. */
  datatype Inline = Inline(
    isInHeading: bool,
    isInParagraph: bool,
    isInListItem: bool,
    isInCode: bool,
    isInStrong: bool,
    isInEmphasis: bool,
    isInLink: bool,
    currentLinkHref: string)

  /** A snapshot of every field of `SupportGuideParser`. */
  datatype ParserState = ParserState(out: Extracted, region: Region, inline: Inline)

  const Initial: ParserState := ParserState(
    Extracted("", [], None, []),
    Region(false, false, false, false, false),
    Inline(false, false, false, false, false, false, false, ""))

  const PublishedLabel: string := "Published Date:"

  /** A class marking navigation or footer chrome, whose content is skipped. */
  predicate IsChromeClass(cls: string) {
    Contains(cls, "globalnav") || Contains(cls, "localnav") || Contains(cls, "ac-gn") || Contains(cls, "footer")
  }

  /** The `<body class="...AppleTopic...">` element that opens the main content. */
  predicate OpensMain(tag: Tag, cls: string) {
    tag == Body && Contains(cls, "AppleTopic")
  }

  predicate IsHeadingTag(tag: Tag) {
    tag == H2 || tag == H3 || tag == H4
  }

  function HeadingMarker(tag: Tag): string {
    if tag == H2 then "##" else if tag == H3 then "###" else "####"
  }

  /** An `href` the parser turns into a Markdown link. */
  predicate IsLinkHref(href: string) {
    href != [] && !Contains(href, "javascript:") && !StartsWith(href, "#")
  }

  /** Root-relative links are resolved against the support host. */
  function ResolveHref(href: string): (r: string)
    ensures StartsWith(href, "/") ==> r == SupportHost + href
    ensures !StartsWith(href, "/") ==> r == href
    ensures href != [] ==> r != []
  {
    if StartsWith(href, "/") then SupportHost + href else href
  }

  /** The element is not chrome, and once the `body` check has run the parser
      is in the main content and not skipping, so its Markdown is emitted. */
  predicate Processes(s: ParserState, tag: Tag, cls: string) {
    && !IsChromeClass(cls)
    && (s.region.isInMainContent || OpensMain(tag, cls))
    && (!s.region.skipContent || OpensMain(tag, cls))
  }

  /** The "`" an element pushes when its tag or class says code. */
  function CodePush(tag: Tag, cls: string): seq<string> {
    if tag == Code || Contains(cls, "code") then ["`"] else []
  }

  predicate OpensParagraph(s: ParserState, tag: Tag) {
    tag == P && !s.region.isInFooter && !s.region.isInRelatedLinks
  }

  predicate OpensListItem(tag: Tag, cls: string) {
    tag == Li && !Contains(cls, "globalnav")
  }

  predicate OpensLink(tag: Tag, cls: string, href: string) {
    tag == A && !Contains(cls, "globalnav") && IsLinkHref(href)
  }

  function HeadingPiece(tag: Tag): seq<string> {
    if IsHeadingTag(tag) then ["\n\n" + HeadingMarker(tag) + " "] else []
  }

  function ParagraphPiece(s: ParserState, tag: Tag): seq<string> {
    if OpensParagraph(s, tag) then ["\n\n"] else []
  }

  function ListPiece(tag: Tag, cls: string): seq<string> {
    if tag == Ul && !Contains(cls, "globalnav") then ["\n"] else []
  }

  function ItemPiece(tag: Tag, cls: string): seq<string> {
    if OpensListItem(tag, cls) then ["\n- "] else []
  }

  function StrongPiece(tag: Tag): seq<string> {
    if tag == Strong || tag == B then ["**"] else []
  }

  function EmphasisPiece(tag: Tag): seq<string> {
    if tag == Em || tag == I then ["*"] else []
  }

  function LinkPiece(tag: Tag, cls: string, href: string): seq<string> {
    if OpensLink(tag, cls, href) then ["["] else []
  }

  /** The Markdown pieces `element()` pushes for an element it processes, in
      the order the source pushes them. */
  function ElementPieces(s: ParserState, tag: Tag, cls: string, href: string): seq<string> {
    HeadingPiece(tag) + ParagraphPiece(s, tag) + ListPiece(tag, cls) + ItemPiece(tag, cls)
    + CodePush(tag, cls) + StrongPiece(tag) + EmphasisPiece(tag) + LinkPiece(tag, cls, href)
  }

  /** The body after a processed element pushes its pieces one by one. */
  function BodyWithPieces(s: ParserState, tag: Tag, cls: string, href: string): seq<string> {
    s.out.body + HeadingPiece(tag) + ParagraphPiece(s, tag) + ListPiece(tag, cls) + ItemPiece(tag, cls)
    + CodePush(tag, cls) + StrongPiece(tag) + EmphasisPiece(tag) + LinkPiece(tag, cls, href)
  }

  /** Pushing the pieces one by one appends `ElementPieces`. */
  lemma BodyWithPiecesAppends(s: ParserState, tag: Tag, cls: string, href: string)
    ensures BodyWithPieces(s, tag, cls, href) == s.out.body + ElementPieces(s, tag, cls, href)
  {
    var b := s.out.body;
    var p1, p2, p3, p4 := HeadingPiece(tag), ParagraphPiece(s, tag), ListPiece(tag, cls), ItemPiece(tag, cls);
    var p5, p6, p7, p8 := CodePush(tag, cls), StrongPiece(tag), EmphasisPiece(tag), LinkPiece(tag, cls, href);
    var q2 := p1 + p2;
    var q3 := q2 + p3;
    var q4 := q3 + p4;
    var q5 := q4 + p5;
    var q6 := q5 + p6;
    var q7 := q6 + p7;
    AppendAssoc(b, p1, p2);
    AppendAssoc(b, q2, p3);
    AppendAssoc(b, q3, p4);
    AppendAssoc(b, q4, p5);
    AppendAssoc(b, q5, p6);
    AppendAssoc(b, q6, p7);
    AppendAssoc(b, q7, p8);
  }

  /** The block flags after a processed element opens. */
  function OpenBlockFlags(n: Inline, s: ParserState, tag: Tag, cls: string): Inline {
    n.(isInHeading := n.isInHeading || IsHeadingTag(tag),
       isInParagraph := n.isInParagraph || OpensParagraph(s, tag),
       isInListItem := n.isInListItem || OpensListItem(tag, cls))
  }

  /** The inline-element flags after a processed element opens. */
  function OpenInlineFlags(n: Inline, tag: Tag, cls: string, href: string): Inline {
    n.(isInCode := n.isInCode || CodePush(tag, cls) != [],
       isInStrong := n.isInStrong || tag == Strong || tag == B,
       isInEmphasis := n.isInEmphasis || tag == Em || tag == I,
       isInLink := n.isInLink || OpensLink(tag, cls, href),
       currentLinkHref := if OpensLink(tag, cls, href) then ResolveHref(href) else n.currentLinkHref)
  }

  /** All open-element flags after a processed element opens. */
  function OpenFlags(s: ParserState, tag: Tag, cls: string, href: string): Inline {
    OpenInlineFlags(OpenBlockFlags(s.inline, s, tag, cls), tag, cls, href)
  }

  /** `element()`: the new parser state after an element opens. Chrome only
      sets the skip flag; otherwise an `h1` starts the title (while there is
      none), the AppleTopic `body` opens the main content, and inside the main
      content the element's Markdown pieces are pushed and its flags raised. */
  function OnElement(s: ParserState, tag: Tag, cls: string, href: string): ParserState {
    var g := s.region;
    if IsChromeClass(cls) then s.(region := g.(skipContent := true))
    else
      var inTitle := g.isInTitle || (tag == H1 && s.out.title == []);
      var inMain := g.isInMainContent || OpensMain(tag, cls);
      var skip := g.skipContent && !OpensMain(tag, cls);
      if !inMain || skip then
        s.(region := g.(isInTitle := inTitle, isInMainContent := inMain, skipContent := skip))
      else
        ParserState(
          s.out.(body := BodyWithPieces(s, tag, cls, href)),
          Region(inTitle, true, g.isInFooter || tag == Footer,
            g.isInRelatedLinks || Contains(cls, "LinkUniversal"), false),
          OpenFlags(s, tag, cls, href))
  }

  /** `text()` gets past its early returns (skipped area, blank text, title,
      published date, related link, outside the main content) and reaches the
      part that builds the body. */
  predicate ReachesBody(s: ParserState, content: string) {
    && !(s.region.skipContent && !s.region.isInMainContent)
    && !IsBlank(content)
    && !(s.region.isInTitle && s.out.title == [])
    && !(s.region.isInFooter && Contains(content, PublishedLabel))
    && !(s.region.isInRelatedLinks && s.inline.isInLink && s.inline.currentLinkHref != [])
    && s.region.isInMainContent && !s.region.skipContent
  }

  /** The parser is inside an element whose text goes to the body. */
  predicate InTextElement(n: Inline) {
    n.isInHeading || n.isInParagraph || n.isInListItem || n.isInLink || n.isInCode || n.isInStrong || n.isInEmphasis
  }

  function CodeCloser(n: Inline, last: bool): seq<string> {
    if n.isInCode && last then ["`"] else []
  }

  function StrongCloser(n: Inline, last: bool): seq<string> {
    if n.isInStrong && last then ["**"] else []
  }

  function EmphasisCloser(n: Inline, last: bool): seq<string> {
    if n.isInEmphasis && last then ["*"] else []
  }

  function LinkCloser(n: Inline, last: bool): seq<string> {
    if n.isInLink && last then ["](" + n.currentLinkHref + ")"] else []
  }

  /** The closing markers pushed on the last chunk of an element's text, in
      the order the source pushes them. */
  function Closers(n: Inline, last: bool): seq<string> {
    CodeCloser(n, last) + StrongCloser(n, last) + EmphasisCloser(n, last) + LinkCloser(n, last)
  }

  /** The inline-element flags after a chunk: the last chunk of an element's
      text closes code, strong, emphasis and the link. */
  function CloseInlineFlags(n: Inline, last: bool): Inline {
    n.(isInCode := n.isInCode && !last,
       isInStrong := n.isInStrong && !last,
       isInEmphasis := n.isInEmphasis && !last,
       isInLink := n.isInLink && !last,
       currentLinkHref := if n.isInLink && last then [] else n.currentLinkHref)
  }

  /** The block flags after a chunk: the last chunk closes headings,
      paragraphs and list items. */
  function CloseBlockFlags(n: Inline, last: bool): Inline {
    n.(isInHeading := n.isInHeading && !last,
       isInParagraph := n.isInParagraph && !last,
       isInListItem := n.isInListItem && !last)
  }

  /** All open-element flags after a chunk. */
  function CloseFlags(n: Inline, last: bool): Inline {
    CloseBlockFlags(CloseInlineFlags(n, last), last)
  }

  /** The published date a footer chunk carries: the chunk without its label, trimmed. */
  function DateOf(content: string): string {
    Trim(ReplaceFirst(content, PublishedLabel, ""))
  }

  /** A related link as the parser records it: its text, then its URL in parentheses. */
  function LinkEntry(content: string, href: string): string {
    Trim(content) + " (" + href + ")"
  }

  /** `text()`: the new parser state after a chunk of text. */
  function OnText(s: ParserState, content: string, last: bool): ParserState {
    var o := s.out;
    if s.region.skipContent && !s.region.isInMainContent then s
    else if IsBlank(content) then s
    else if s.region.isInTitle && o.title == [] then
      s.(out := o.(title := Trim(content)), region := s.region.(isInTitle := false))
    else if s.region.isInFooter && Contains(content, PublishedLabel) then
      s.(out := o.(publishedDate := Some(DateOf(content))))
    else if s.region.isInRelatedLinks && s.inline.isInLink && s.inline.currentLinkHref != [] then
      s.(out := o.(relatedLinks := o.relatedLinks + [LinkEntry(content, s.inline.currentLinkHref)]))
    else if !s.region.isInMainContent || s.region.skipContent then s
    else
      s.(out := o.(body := o.body + (if InTextElement(s.inline) then [content] else []) + Closers(s.inline, last)),
         inline := CloseFlags(s.inline, last))
  }

  function Step(s: ParserState, e: Event): ParserState {
    match e
    case Open(tag, cls, href) => OnElement(s, tag, cls, href)
    case Chunk(text, last) => OnText(s, text, last)
  }

  /** The parser state after `events`, starting from `s`. */
  function RunFrom(s: ParserState, events: seq<Event>): ParserState
    decreases |events|
  {
    if events == [] then s else RunFrom(Step(s, events[0]), events[1..])
  }

  lemma {:induction false} RunFromSnoc(s: ParserState, events: seq<Event>, e: Event)
    ensures RunFrom(s, events + [e]) == Step(RunFrom(s, events), e)
    decreases |events|
  {
    if events == [] {
      assert [] + [e] == [e];
      assert RunFrom(s, [e]) == RunFrom(Step(s, e), []);
    } else {
      assert (events + [e])[1..] == events[1..] + [e];
      RunFromSnoc(Step(s, events[0]), events[1..], e);
    }
  }

  /** `getResult()`: the body pieces joined in push order, the related links
      reported as absent when there are none. */
  function ResultOf(s: ParserState): (c: ParsedContent)
    ensures c.title == s.out.title && c.publishedDate == s.out.publishedDate
    ensures c.body == Concat(s.out.body)
    ensures c.relatedLinks.None? <==> s.out.relatedLinks == []
    ensures c.relatedLinks.Some? ==> c.relatedLinks.value == s.out.relatedLinks
  {
    ParsedContent(s.out.title, Concat(s.out.body), s.out.publishedDate,
      if |s.out.relatedLinks| > 0 then Some(s.out.relatedLinks) else None)
  }

  // ---------------------------------------------------------------------------
  // One element
  // ---------------------------------------------------------------------------

  /** A chrome element only raises the skip flag. */
  lemma ElementChrome(s: ParserState, tag: Tag, cls: string, href: string)
    requires IsChromeClass(cls)
    ensures OnElement(s, tag, cls, href) == s.(region := s.region.(skipContent := true))
  {
  }

  /** An element never changes the title, the date or the related links, and
      it appends its Markdown pieces to the body exactly when it is processed. */
  lemma ElementOutput(s: ParserState, tag: Tag, cls: string, href: string)
    ensures OnElement(s, tag, cls, href).out ==
      s.out.(body := s.out.body + (if Processes(s, tag, cls) then ElementPieces(s, tag, cls, href) else []))
  {
    BodyWithPiecesAppends(s, tag, cls, href);
  }

  /** A processed heading pushes its level marker (and a backtick when its
      class says code) and opens the heading. */
  lemma ElementHeading(s: ParserState, tag: Tag, cls: string, href: string)
    requires Processes(s, tag, cls) && IsHeadingTag(tag)
    ensures OnElement(s, tag, cls, href).out.body == s.out.body + ["\n\n" + HeadingMarker(tag) + " "] + CodePush(tag, cls)
    ensures OnElement(s, tag, cls, href).inline.isInHeading
  {
    assert ElementPieces(s, tag, cls, href) == HeadingPiece(tag) + CodePush(tag, cls);
  }

  /** A processed link with a usable `href` pushes "[" last and remembers its
      resolved URL; an `a` without one leaves the link state alone. */
  lemma ElementLink(s: ParserState, cls: string, href: string)
    requires Processes(s, A, cls) && !Contains(cls, "globalnav")
    ensures var r := OnElement(s, A, cls, href);
      && (IsLinkHref(href) ==> r.out.body == s.out.body + CodePush(A, cls) + ["["])
      && (IsLinkHref(href) ==> r.inline.isInLink && r.inline.currentLinkHref == ResolveHref(href) != [])
      && (!IsLinkHref(href) ==> r.out.body == s.out.body + CodePush(A, cls))
      && (!IsLinkHref(href) ==> r.inline.isInLink == s.inline.isInLink && r.inline.currentLinkHref == s.inline.currentLinkHref)
  {
  }

  /** Only an AppleTopic `body` element starts the main content, and once
      started it stays started. */
  lemma ElementMain(s: ParserState, tag: Tag, cls: string, href: string)
    ensures OnElement(s, tag, cls, href).region.isInMainContent <==>
      s.region.isInMainContent || (!IsChromeClass(cls) && OpensMain(tag, cls))
  {
  }

  /** The region flags once the `h1` and `body` checks of a non-chrome element have run. */
  function RegionAfterOpen(s: ParserState, tag: Tag, cls: string): Region {
    s.region.(isInTitle := s.region.isInTitle || (tag == H1 && s.out.title == []),
              isInMainContent := s.region.isInMainContent || OpensMain(tag, cls),
              skipContent := s.region.skipContent && !OpensMain(tag, cls))
  }

  /** A non-chrome element outside the main content (or in a skipped part of
      it) only updates the title and main-content flags. */
  lemma ElementOutsideMain(s: ParserState, tag: Tag, cls: string, href: string)
    requires !IsChromeClass(cls)
    requires !RegionAfterOpen(s, tag, cls).isInMainContent || RegionAfterOpen(s, tag, cls).skipContent
    ensures OnElement(s, tag, cls, href) == s.(region := RegionAfterOpen(s, tag, cls))
  {
  }

  /** A processed element pushes its pieces, raises its flags and may enter
      the footer or the related-links area. */
  lemma ElementInMain(s: ParserState, tag: Tag, cls: string, href: string)
    requires !IsChromeClass(cls)
    requires RegionAfterOpen(s, tag, cls).isInMainContent && !RegionAfterOpen(s, tag, cls).skipContent
    ensures OnElement(s, tag, cls, href) == ParserState(
      s.out.(body := BodyWithPieces(s, tag, cls, href)),
      RegionAfterOpen(s, tag, cls).(isInFooter := s.region.isInFooter || tag == Footer,
        isInRelatedLinks := s.region.isInRelatedLinks || Contains(cls, "LinkUniversal")),
      OpenFlags(s, tag, cls, href))
  {
  }

  // ---------------------------------------------------------------------------
  // One chunk of text
  // ---------------------------------------------------------------------------

  /** Blank text, and any text in a skipped area outside the main content,
      changes nothing. */
  lemma TextIgnored(s: ParserState, content: string, last: bool)
    requires IsBlank(content) || (s.region.skipContent && !s.region.isInMainContent)
    ensures OnText(s, content, last) == s
  {
  }

  /** The first non-blank chunk after an `h1` opens becomes the trimmed title,
      and nothing else changes. */
  lemma TextTitle(s: ParserState, content: string, last: bool)
    requires !(s.region.skipContent && !s.region.isInMainContent) && !IsBlank(content)
    requires s.region.isInTitle && s.out.title == []
    ensures OnText(s, content, last) == s.(out := s.out.(title := Trim(content)), region := s.region.(isInTitle := false))
    ensures OnText(s, content, last).out.title != []
  {
  }

  /** A chunk never replaces a title that is already set. */
  lemma TextKeepsTitle(s: ParserState, content: string, last: bool)
    requires s.out.title != []
    ensures OnText(s, content, last).out.title == s.out.title
  {
  }

  /** A footer chunk with the "Published Date:" label sets the date, and
      nothing else changes. */
  lemma TextDate(s: ParserState, content: string, last: bool)
    requires !(s.region.skipContent && !s.region.isInMainContent) && !IsBlank(content)
    requires !(s.region.isInTitle && s.out.title == [])
    requires s.region.isInFooter && Contains(content, PublishedLabel)
    ensures OnText(s, content, last) == s.(out := s.out.(publishedDate := Some(DateOf(content))))
  {
  }

  /** Text inside a link of the related-links area is recorded as a related
      link, and nothing else changes. */
  lemma TextRelatedLink(s: ParserState, content: string, last: bool)
    requires !(s.region.skipContent && !s.region.isInMainContent) && !IsBlank(content)
    requires !(s.region.isInTitle && s.out.title == [])
    requires !(s.region.isInFooter && Contains(content, PublishedLabel))
    requires s.region.isInRelatedLinks && s.inline.isInLink && s.inline.currentLinkHref != []
    ensures OnText(s, content, last) ==
      s.(out := s.out.(relatedLinks := s.out.relatedLinks + [LinkEntry(content, s.inline.currentLinkHref)]))
  {
  }

  /** Text outside the main content that none of the cases above claims
      changes nothing. */
  lemma TextOutsideMain(s: ParserState, content: string, last: bool)
    requires !(s.region.skipContent && !s.region.isInMainContent) && !IsBlank(content)
    requires !(s.region.isInTitle && s.out.title == [])
    requires !(s.region.isInFooter && Contains(content, PublishedLabel))
    requires !(s.region.isInRelatedLinks && s.inline.isInLink && s.inline.currentLinkHref != [])
    requires !s.region.isInMainContent || s.region.skipContent
    ensures OnText(s, content, last) == s
  {
  }

  /** Text that reaches the body-building part pushes the chunk (inside an
      element), then the closers, and on the last chunk closes every element. */
  lemma TextInMain(s: ParserState, content: string, last: bool)
    requires ReachesBody(s, content)
    ensures OnText(s, content, last) == s.(out := s.out.(body := s.out.body
      + (if InTextElement(s.inline) then [content] else []) + Closers(s.inline, last)),
      inline := CloseFlags(s.inline, last))
  {
  }

  /** The body grows only from text that reaches the body-building part: the
      chunk itself when an element is open, then the closing markers; the
      title, date and links are left alone. */
  lemma TextBody(s: ParserState, content: string, last: bool)
    ensures var r := OnText(s, content, last);
      && r.region.isInMainContent == s.region.isInMainContent
      && (!ReachesBody(s, content) ==> r.out.body == s.out.body)
      && (ReachesBody(s, content) ==> r.out == s.out.(body := s.out.body
            + (if InTextElement(s.inline) then [content] else []) + Closers(s.inline, last)))
  {
  }

  /** The last chunk of a link's text closes the link with its URL. */
  lemma TextClosesLink(s: ParserState, content: string)
    requires ReachesBody(s, content) && s.inline.isInLink
    ensures var r := OnText(s, content, true);
      && !r.inline.isInLink && r.inline.currentLinkHref == []
      && r.out.body[|r.out.body| - 1] == "](" + s.inline.currentLinkHref + ")"
  {
  }

  /** Body pieces and related links only ever grow at the end. */
  lemma StepAppends(s: ParserState, e: Event)
    ensures var r := Step(s, e);
      && |s.out.body| <= |r.out.body| && r.out.body[..|s.out.body|] == s.out.body
      && |s.out.relatedLinks| <= |r.out.relatedLinks| && r.out.relatedLinks[..|s.out.relatedLinks|] == s.out.relatedLinks
  {
    match e
    case Open(tag, cls, href) => ElementOutput(s, tag, cls, href);
    case Chunk(text, last) => TextBody(s, text, last);
  }

  // ---------------------------------------------------------------------------
  // Whole documents
  // ---------------------------------------------------------------------------

  /** Once set, the title survives every later event. */
  lemma {:induction false} TitleStable(s: ParserState, events: seq<Event>)
    requires s.out.title != []
    ensures RunFrom(s, events).out.title == s.out.title
    decreases |events|
  {
    if events != [] {
      var s' := Step(s, events[0]);
      match events[0] {
        case Open(tag, cls, href) => ElementOutput(s, tag, cls, href);
        case Chunk(text, last) => TextKeepsTitle(s, text, last);
      }
      TitleStable(s', events[1..]);
    }
  }

  /** Body pieces and related links are only ever appended. */
  lemma {:induction false} OnlyAppends(s: ParserState, events: seq<Event>)
    ensures var r := RunFrom(s, events);
      && |s.out.body| <= |r.out.body| && r.out.body[..|s.out.body|] == s.out.body
      && |s.out.relatedLinks| <= |r.out.relatedLinks| && r.out.relatedLinks[..|s.out.relatedLinks|] == s.out.relatedLinks
    decreases |events|
  {
    if events != [] {
      var s' := Step(s, events[0]);
      StepAppends(s, events[0]);
      OnlyAppends(s', events[1..]);
      var r := RunFrom(s, events);
      assert r == RunFrom(s', events[1..]);
      assert r.out.body[..|s.out.body|] == r.out.body[..|s'.out.body|][..|s.out.body|];
      assert r.out.relatedLinks[..|s.out.relatedLinks|] == r.out.relatedLinks[..|s'.out.relatedLinks|][..|s.out.relatedLinks|];
    }
  }

  predicate IsMainOpen(e: Event) {
    e.Open? && !IsChromeClass(e.cls) && OpensMain(e.tag, e.cls)
  }

  /** Until an AppleTopic `body` element opens, nothing is pushed to the body. */
  lemma {:induction false} NoBodyOutsideMain(s: ParserState, events: seq<Event>)
    requires !s.region.isInMainContent
    requires forall i :: 0 <= i < |events| ==> !IsMainOpen(events[i])
    ensures RunFrom(s, events).out.body == s.out.body
    ensures !RunFrom(s, events).region.isInMainContent
    decreases |events|
  {
    if events != [] {
      var s' := Step(s, events[0]);
      assert !IsMainOpen(events[0]);
      match events[0] {
        case Open(tag, cls, href) => ElementOutput(s, tag, cls, href); ElementMain(s, tag, cls, href);
        case Chunk(text, last) => TextBody(s, text, last);
      }
      NoBodyOutsideMain(s', events[1..]);
    }
  }

  /** A title, once found, is the trimmed text of one of the text chunks. */
  lemma {:induction false} TitleFromChunk(s: ParserState, events: seq<Event>) returns (k: int)
    requires s.out.title == []
    requires RunFrom(s, events).out.title != []
    ensures 0 <= k < |events| && events[k].Chunk? && !IsBlank(events[k].text)
    ensures RunFrom(s, events).out.title == Trim(events[k].text)
    decreases |events|
  {
    var s' := Step(s, events[0]);
    match events[0] {
      case Open(tag, cls, href) => ElementOutput(s, tag, cls, href);
      case Chunk(text, last) =>
        if !(s.region.skipContent && !s.region.isInMainContent) && !IsBlank(text) && s.region.isInTitle {
          TextTitle(s, text, last);
        } else {
          TextTitleUnset(s, text, last);
        }
    }
    if s'.out.title == [] {
      var j := TitleFromChunk(s', events[1..]);
      k := j + 1;
    } else {
      k := 0;
      TitleStable(s', events[1..]);
    }
  }

  /** A chunk that does not start the title leaves an empty title empty. */
  lemma TextTitleUnset(s: ParserState, content: string, last: bool)
    requires s.out.title == []
    requires (s.region.skipContent && !s.region.isInMainContent) || IsBlank(content) || !s.region.isInTitle
    ensures OnText(s, content, last).out.title == []
  {
  }

  /** The HTML extractor, as the source's `SupportGuideParser` class. Its
      seventeen fields are kept in three records: what has been extracted, the
      page region flags and the open-element flags. */
  class SupportGuideParser {
    var out: Extracted
    var region: Region
    var inline: Inline

    ghost function State(): ParserState
      reads this
    {
      ParserState(out, region, inline)
    }

    constructor ()
      ensures State() == Initial
    {
      out := Extracted("", [], None, []);
      region := Region(false, false, false, false, false);
      inline := Inline(false, false, false, false, false, false, false, "");
    }

    /** `getResult()`. */
    method GetResult() returns (c: ParsedContent)
      ensures c == ResultOf(State())
    {
      c := ParsedContent(out.title, Concat(out.body), out.publishedDate,
        if |out.relatedLinks| > 0 then Some(out.relatedLinks) else None);
    }

    /** `element()`. */
    method Element(tag: Tag, cls: string, href: string)
      modifies this
      ensures State() == OnElement(old(State()), tag, cls, href)
    {
      ghost var s0 := State();
      if IsChromeClass(cls) {
        region := region.(skipContent := true);
        ElementChrome(s0, tag, cls, href);
        return;
      }
      OpenRegion(tag, cls);
      if !region.isInMainContent || region.skipContent {
        ElementOutsideMain(s0, tag, cls, href);
        return;
      }
      ProcessElement(tag, cls, href);
      ElementInMain(s0, tag, cls, href);
    }

    /** An `h1` starts the title while there is none; the AppleTopic `body`
        opens the main content and stops skipping. */
    method OpenRegion(tag: Tag, cls: string)
      modifies this
      ensures out == old(out) && inline == old(inline)
      ensures region == RegionAfterOpen(old(State()), tag, cls)
    {
      if tag == H1 && out.title == "" {
        region := region.(isInTitle := true);
      }
      if tag == Body && Contains(cls, "AppleTopic") {
        region := region.(isInMainContent := true, skipContent := false);
      }
    }

    /** The part of `element()` that runs inside the main content: the
        element's Markdown openings and flags, then the footer and
        related-links flags. */
    method ProcessElement(tag: Tag, cls: string, href: string)
      modifies this
      ensures var s := old(State());
        State() == ParserState(
          s.out.(body := BodyWithPieces(s, tag, cls, href)),
          s.region.(isInFooter := s.region.isInFooter || tag == Footer,
            isInRelatedLinks := s.region.isInRelatedLinks || Contains(cls, "LinkUniversal")),
          OpenFlags(s, tag, cls, href))
    {
      ghost var s0 := State();
      OpenBlocks(tag, cls);
      OpenInlines(tag, cls, href);
      assert out == s0.out.(body := BodyWithPieces(s0, tag, cls, href));
      assert inline == OpenFlags(s0, tag, cls, href);
      if tag == Footer {
        region := region.(isInFooter := true);
      }
      if Contains(cls, "LinkUniversal") {
        region := region.(isInRelatedLinks := true);
      }
    }

    /** The block-level part of `element()`: headings, paragraphs, lists and
        list items push their Markdown opening and raise their flags. */
    method OpenBlocks(tag: Tag, cls: string)
      modifies this
      ensures region == old(region)
      ensures out == old(out).(body := old(out).body + HeadingPiece(tag) + ParagraphPiece(old(State()), tag)
                                        + ListPiece(tag, cls) + ItemPiece(tag, cls))
      ensures inline == OpenBlockFlags(old(inline), old(State()), tag, cls)
    {
      ghost var s0 := State();
      if tag == H2 || tag == H3 || tag == H4 {
        var level := if tag == H2 then "##" else if tag == H3 then "###" else "####";
        inline := inline.(isInHeading := true);
        out := out.(body := out.body + ["\n\n" + level + " "]);
      }
      assert out.body == s0.out.body + HeadingPiece(tag);
      if tag == P && !region.isInFooter && !region.isInRelatedLinks {
        inline := inline.(isInParagraph := true);
        out := out.(body := out.body + ["\n\n"]);
      }
      assert out.body == s0.out.body + HeadingPiece(tag) + ParagraphPiece(s0, tag);
      if tag == Ul && !Contains(cls, "globalnav") {
        out := out.(body := out.body + ["\n"]);
      }
      assert out.body == s0.out.body + HeadingPiece(tag) + ParagraphPiece(s0, tag) + ListPiece(tag, cls);
      if tag == Li && !Contains(cls, "globalnav") {
        inline := inline.(isInListItem := true);
        out := out.(body := out.body + ["\n- "]);
      }
    }

    /** The inline part of `element()`: code, strong, emphasis and links push
        their Markdown opening and raise their flags. */
    method OpenInlines(tag: Tag, cls: string, href: string)
      modifies this
      ensures region == old(region)
      ensures out == old(out).(body := old(out).body + CodePush(tag, cls) + StrongPiece(tag)
                                        + EmphasisPiece(tag) + LinkPiece(tag, cls, href))
      ensures inline == OpenInlineFlags(old(inline), tag, cls, href)
    {
      OpenCode(tag, cls);
      OpenStrong(tag);
      OpenEmphasis(tag);
      OpenLink(tag, cls, href);
    }

    /** A `code` element, or one whose class names code, opens inline code. */
    method OpenCode(tag: Tag, cls: string)
      modifies this
      ensures region == old(region)
      ensures out == old(out).(body := old(out).body + CodePush(tag, cls))
      ensures inline == old(inline).(isInCode := old(inline).isInCode || CodePush(tag, cls) != [])
    {
      if tag == Code || Contains(cls, "code") {
        inline := inline.(isInCode := true);
        out := out.(body := out.body + ["`"]);
      }
    }

    /** `strong` and `b` open bold text. */
    method OpenStrong(tag: Tag)
      modifies this
      ensures region == old(region)
      ensures out == old(out).(body := old(out).body + StrongPiece(tag))
      ensures inline == old(inline).(isInStrong := old(inline).isInStrong || tag == Strong || tag == B)
    {
      if tag == Strong || tag == B {
        inline := inline.(isInStrong := true);
        out := out.(body := out.body + ["**"]);
      }
    }

    /** `em` and `i` open emphasised text. */
    method OpenEmphasis(tag: Tag)
      modifies this
      ensures region == old(region)
      ensures out == old(out).(body := old(out).body + EmphasisPiece(tag))
      ensures inline == old(inline).(isInEmphasis := old(inline).isInEmphasis || tag == Em || tag == I)
    {
      if tag == Em || tag == I {
        inline := inline.(isInEmphasis := true);
        out := out.(body := out.body + ["*"]);
      }
    }

    /** An anchor outside the global navigation with a usable target opens a
        link and records its resolved target. */
    method OpenLink(tag: Tag, cls: string, href: string)
      modifies this
      ensures region == old(region)
      ensures out == old(out).(body := old(out).body + LinkPiece(tag, cls, href))
      ensures inline == old(inline).(isInLink := old(inline).isInLink || OpensLink(tag, cls, href),
        currentLinkHref := if OpensLink(tag, cls, href) then ResolveHref(href) else old(inline).currentLinkHref)
    {
      if tag == A && !Contains(cls, "globalnav") {
        if href != "" && !Contains(href, "javascript:") && !StartsWith(href, "#") {
          inline := inline.(isInLink := true, currentLinkHref := href);
          if StartsWith(href, "/") {
            inline := inline.(currentLinkHref := SupportHost + href);
          }
          out := out.(body := out.body + ["["]);
        }
      }
    }

    /** `text()`. */
    method Text(content: string, lastInText: bool)
      modifies this
      ensures State() == OnText(old(State()), content, lastInText)
    {
      ghost var s0 := State();
      if region.skipContent && !region.isInMainContent {
        TextIgnored(s0, content, lastInText);
        return;
      }
      if content == "" || Trim(content) == "" {
        TextIgnored(s0, content, lastInText);
        return;
      }
      if region.isInTitle && out.title == "" {
        out := out.(title := Trim(content));
        region := region.(isInTitle := false);
        TextTitle(s0, content, lastInText);
        return;
      }
      if region.isInFooter && Contains(content, PublishedLabel) {
        out := out.(publishedDate := Some(Trim(ReplaceFirst(content, PublishedLabel, ""))));
        TextDate(s0, content, lastInText);
        return;
      }
      if region.isInRelatedLinks && inline.isInLink && inline.currentLinkHref != "" {
        out := out.(relatedLinks := out.relatedLinks + [Trim(content) + " (" + inline.currentLinkHref + ")"]);
        TextRelatedLink(s0, content, lastInText);
        return;
      }
      if !region.isInMainContent || region.skipContent {
        TextOutsideMain(s0, content, lastInText);
        return;
      }
      var n := inline;
      if n.isInHeading || n.isInParagraph || n.isInListItem || n.isInLink || n.isInCode || n.isInStrong || n.isInEmphasis {
        out := out.(body := out.body + [content]);
      }
      CloseInlines(lastInText);
      CloseBlocks(lastInText);
      TextInMain(s0, content, lastInText);
    }

    /** On the last chunk, open code, strong, emphasis and link elements push
        their closing Markdown and are closed. */
    method CloseInlines(last: bool)
      modifies this
      ensures region == old(region)
      ensures out == old(out).(body := old(out).body + Closers(old(inline), last))
      ensures inline == CloseInlineFlags(old(inline), last)
    {
      ghost var n := inline;
      CloseCode(last);
      CloseStrong(last);
      CloseEmphasis(last);
      assert inline.isInLink == n.isInLink && inline.currentLinkHref == n.currentLinkHref;
      CloseLink(last);
    }

    /** The last chunk closes open inline code. */
    method CloseCode(last: bool)
      modifies this
      ensures region == old(region)
      ensures out == old(out).(body := old(out).body + CodeCloser(old(inline), last))
      ensures inline == old(inline).(isInCode := old(inline).isInCode && !last)
    {
      if inline.isInCode && last {
        out := out.(body := out.body + ["`"]);
        inline := inline.(isInCode := false);
      }
    }

    /** The last chunk closes open bold text. */
    method CloseStrong(last: bool)
      modifies this
      ensures region == old(region)
      ensures out == old(out).(body := old(out).body + StrongCloser(old(inline), last))
      ensures inline == old(inline).(isInStrong := old(inline).isInStrong && !last)
    {
      if inline.isInStrong && last {
        out := out.(body := out.body + ["**"]);
        inline := inline.(isInStrong := false);
      }
    }

    /** The last chunk closes open emphasised text. */
    method CloseEmphasis(last: bool)
      modifies this
      ensures region == old(region)
      ensures out == old(out).(body := old(out).body + EmphasisCloser(old(inline), last))
      ensures inline == old(inline).(isInEmphasis := old(inline).isInEmphasis && !last)
    {
      if inline.isInEmphasis && last {
        out := out.(body := out.body + ["*"]);
        inline := inline.(isInEmphasis := false);
      }
    }

    /** The last chunk closes an open link with its target and forgets it. */
    method CloseLink(last: bool)
      modifies this
      ensures region == old(region)
      ensures out == old(out).(body := old(out).body + LinkCloser(old(inline), last))
      ensures inline == old(inline).(isInLink := old(inline).isInLink && !last,
        currentLinkHref := if old(inline).isInLink && last then [] else old(inline).currentLinkHref)
    {
      if inline.isInLink && last {
        out := out.(body := out.body + ["](" + inline.currentLinkHref + ")"]);
        inline := inline.(isInLink := false, currentLinkHref := "");
      }
    }

    /** On the last chunk, open headings, paragraphs and list items are closed. */
    method CloseBlocks(last: bool)
      modifies this
      ensures region == old(region) && out == old(out)
      ensures inline == CloseBlockFlags(old(inline), last)
    {
      if inline.isInHeading && last {
        inline := inline.(isInHeading := false);
      }
      if inline.isInParagraph && last {
        inline := inline.(isInParagraph := false);
      }
      if inline.isInListItem && last {
        inline := inline.(isInListItem := false);
      }
    }
  }

  /** `parseSupportGuideHTML`: feed every rewriter event to a fresh parser
      and collect its result. */
  method ParseSupportGuideHTML(events: seq<Event>) returns (c: ParsedContent)
    ensures c == ResultOf(RunFrom(Initial, events))
  {
    var parser := new SupportGuideParser();
    var i := 0;
    while i < |events|
      invariant 0 <= i <= |events|
      invariant parser.State() == RunFrom(Initial, events[..i])
      decreases |events| - i
    {
      RunFromSnoc(Initial, events[..i], events[i]);
      assert events[..i + 1] == events[..i] + [events[i]];
      match events[i] {
        case Open(tag, cls, href) => parser.Element(tag, cls, href);
        case Chunk(text, last) => parser.Text(text, last);
      }
      i := i + 1;
    }
    assert events[..|events|] == events;
    c := parser.GetResult();
  }

  /** A page without an AppleTopic `body` element yields an empty body. */
  lemma NoMainNoBody(events: seq<Event>)
    requires forall i :: 0 <= i < |events| ==> !IsMainOpen(events[i])
    ensures ResultOf(RunFrom(Initial, events)).body == ""
  {
    var t := RunFrom(Initial, events);
    assert t.out.body == [] by {
      NoBodyOutsideMain(Initial, events);
    }
  }
}
