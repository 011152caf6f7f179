# supportify-mcp document pipeline in Dafny

This project models the document-transformation core of supportify-mcp, an MCP
server that turns Apple documentation into Markdown:

- **Support guides** (`src/lib/support/`):
  - the page URL and the reading of the HTTP status in `fetchSupportGuidePage`;
  - the event-driven HTML extractor `SupportGuideParser`, modelled as a class whose
    fields are the parser's flags and lists, with `parseSupportGuideHTML` as the
    loop that feeds it the rewriter's events;
  - the regex-based extractor `parseAppleSupportHTML`: title clean-up, published
    date, and the intro / Subhead / Outro sections with their inline clean-up;
  - the Markdown assembler `renderSupportGuideMarkdown`;
  - the table-of-contents helpers `parseTocHtml`, `searchToc` and `findTopic`.
- **Training catalog** (`src/lib/training/fetch.ts`), once the JSON is fetched:
  - the search filter, the platform keywords, the volume and chapter placement,
    and the exact-title-first sort;
  - the id lookup of `fetchTrainingTutorial`;
  - the Markdown page of `fetchTrainingTutorialContent`: the minute formatting,
    the section titles and the module / project / section walk;
  - the outline of `getTrainingStructure`;
  - `getCatalogUrl` and `getTutorialSubdir`.
- **HIG guards** (`src/lib/hig/util.ts`): `isHIGImageReference`,
  `isHIGTopicReference` and `hasChildren`.

Each spec function states what the code computes. Each state-changing or
looping method is proved to compute it. The lemmas state what the code
promises about it.

Modules:

| module | file | models |
|---|---|---|
| `Wrappers` | wrappers.dfy | `Option` and `Result` |
| `Strings` | strings.dfy | the JavaScript string built-ins the code uses: `trim`, `toLowerCase`, `includes`, `startsWith`, `split`, `join`, `.length` in UTF-16 units, number-to-text |
| `Sequences` | sequences.dfy | order-preserving selection (`filter`, `slice`) |
| `SupportTypes` | support_types.dfy | `ParsedContent` |
| `SupportFetch` | support_fetch.dfy | src/lib/support/fetch.ts |
| `SimpleParser`, `InlineCleanup` | simple_parser.dfy, inline_cleanup.dfy | src/lib/support/simple-parser.ts |
| `SupportRender` | support_render.dfy | src/lib/support/render.ts |
| `SupportToc` | support_toc.dfy | src/lib/support/toc.ts |
| `TrainingTypes` | training_types.dfy | src/lib/training/types.ts |
| `TrainingCatalog`, `TrainingSearch`, `TrainingContent` | training_catalog.dfy, training_search.dfy, training_content.dfy | src/lib/training/fetch.ts |
| `Hig` | hig.dfy | src/lib/hig/util.ts, with shapes from src/lib/hig/types.ts |

Inputs the code gets from the host runtime are parameters:

- the HTTP `Response`;
- the rewriter's `Event` stream, each event an element opening (tag, class,
  href) or a text chunk (text, `lastInText`);
- the captures of the lazy and look-ahead regular expressions (`Captures`,
  `TocMatch`);
- the fetched catalog and tutorial JSON, as datatypes.

Notes on what the code does:

- The event-driven extractor has no duplicate-text suppression.
- It emits headings and paragraphs anywhere inside the AppleTopic `body`, not
  only inside Subhead, Feature or Outro blocks.
- An anchor with a `javascript:` or `#` target pushes no `[`. Its text is
  still pushed when another open element (a paragraph, a list item) takes text.
- In the regex extractor exactly one blank line separates a Subhead heading
  from its paragraph: "\n\n## Setup" + "\n\nInstall the app.".
- The title clean-up also removes the first "Apple Platform ".

## Model

| member | source | states |
|---|---|---|
| SupportFetch.NormalizePath | src/lib/support/fetch.ts:20 | the result is the path with every leading and every trailing "/" removed and nothing else: the path is the result padded with slashes; the result neither starts nor ends with "/"; it is empty exactly when the path is all slashes |
| SupportFetch.NormalizePathIdempotent | src/lib/support/fetch.ts:20 | normalising twice is normalising once |
| SupportFetch.GuidePageUrlShape | src/lib/support/fetch.ts:23 | the page URL starts with "https://support.apple.com/guide/" and ends with "/web" |
| SupportFetch.GuidePageUrlNormalized | src/lib/support/fetch.ts:19-23 | the URL depends on the path only through its normalised form |
| SupportFetch.FetchSupportGuidePage | src/lib/support/fetch.ts:35-43 | the body is returned exactly for a 2xx status; among failures, `NotFound` exactly for 404, with the "not found at {url}" message; any other status gives the generic failure with status and status text |
| SupportFetch.GuidePageUrl | src/lib/support/fetch.ts:19-23 | defines the page URL; `GuidePageUrlShape` and `GuidePageUrlNormalized` state its shape |
| SupportFetch.OnElement | src/lib/support/fetch.ts:79-169 | defines the element handler on the parser state; stated by the `Element…` lemmas |
| SupportFetch.OnText | src/lib/support/fetch.ts:171-227 | defines the text handler on the parser state; stated by the `Text…` lemmas |
| SupportFetch.RunFrom | src/lib/support/fetch.ts:236-268 | defines a run of events from a state; `OnlyAppends`, `TitleStable` and `NoBodyOutsideMain` state what it keeps |
| SupportFetch.ResolveHref | src/lib/support/fetch.ts:151-155 | a root-relative href is prefixed with the support host; any other href is kept |
| SupportFetch.BodyWithPiecesAppends | src/lib/support/fetch.ts:105-158 | the pushes of a processed element append its heading, paragraph, list, item, code, strong, emphasis and link pieces in that order |
| SupportFetch.ResultOf | src/lib/support/fetch.ts:70-77 | `getResult` joins the body pieces in push order, keeps title and date, and reports related links as absent exactly when none were collected |
| SupportFetch.ElementChrome | src/lib/support/fetch.ts:81-90 | an element with a globalnav, localnav, ac-gn or footer class only sets `skipContent` |
| SupportFetch.ElementOutput | src/lib/support/fetch.ts:79-169 | an element never changes the title, the date or the related links, and only appends to the body |
| SupportFetch.ElementHeading | src/lib/support/fetch.ts:106-110 | a processed h2, h3 or h4 pushes exactly "\n\n## ", "\n\n### " or "\n\n#### " (then a backtick when its class says code) and opens the heading |
| SupportFetch.ElementLink | src/lib/support/fetch.ts:146-158 | an anchor whose href is non-empty, has no "javascript:" and does not start with "#" pushes "[" and remembers the resolved href; otherwise no "[" is pushed |
| SupportFetch.ElementMain | src/lib/support/fetch.ts:97-101 | main content starts exactly at a non-chrome `body` with an AppleTopic class, and never ends |
| SupportFetch.ElementOutsideMain | src/lib/support/fetch.ts:92-103 | outside the main content, or in a skipped part, an element changes only the title and main-content flags |
| SupportFetch.ElementInMain | src/lib/support/fetch.ts:103-168 | inside the main content an element pushes its pieces and raises its flags, footer and related-links flags included |
| SupportFetch.TextIgnored | src/lib/support/fetch.ts:172-175 | blank text, and text in a skipped area outside the main content, change no state |
| SupportFetch.TextTitle | src/lib/support/fetch.ts:177-181 | the first non-blank text after an h1, while no title is set, becomes the trimmed title and nothing else changes |
| SupportFetch.TextKeepsTitle | src/lib/support/fetch.ts:177-181 | a text chunk never replaces a title that is already set |
| SupportFetch.TextDate | src/lib/support/fetch.ts:183-186 | footer text with "Published Date:" sets the date to the rest of the text, trimmed, and changes nothing else |
| SupportFetch.TextRelatedLink | src/lib/support/fetch.ts:188-191 | link text in the related-links area is recorded as "{text} ({href})" and pushes nothing to the body |
| SupportFetch.TextOutsideMain | src/lib/support/fetch.ts:193 | text outside the main content that no earlier case takes changes no state |
| SupportFetch.TextInMain | src/lib/support/fetch.ts:195-226 | text in the main content is pushed when a text-taking element is open, then the last chunk pushes the closing markers and lowers the flags |
| SupportFetch.TextBody | src/lib/support/fetch.ts:193-226 | the body gains pieces only from text that reaches the main-content part |
| SupportFetch.TextClosesLink | src/lib/support/fetch.ts:213-217 | the last chunk of a link's text pushes "](href)" and resets the href to "" |
| SupportFetch.StepAppends | src/lib/support/fetch.ts:79-227 | every event only appends to the body pieces and the related links |
| SupportFetch.TitleStable | src/lib/support/fetch.ts:177-181 | once set, the title survives every later event |
| SupportFetch.OnlyAppends | src/lib/support/fetch.ts:79-227 | over any run of events, the body pieces and related links of the start are prefixes of those at the end |
| SupportFetch.NoBodyOutsideMain | src/lib/support/fetch.ts:98-103 | until an AppleTopic `body` opens, nothing is pushed to the body |
| SupportFetch.TitleFromChunk | src/lib/support/fetch.ts:177-181 | a title found is the trimmed text of one non-blank text chunk |
| SupportFetch.TextTitleUnset | src/lib/support/fetch.ts:177-181 | a chunk that does not start the title leaves an empty title empty |
| SupportFetch.SupportGuideParser.constructor | src/lib/support/fetch.ts:50-68 | a new parser has every field at its initial value |
| SupportFetch.SupportGuideParser.GetResult | src/lib/support/fetch.ts:70-77 | returns the result of the parser's state |
| SupportFetch.SupportGuideParser.Element | src/lib/support/fetch.ts:79-169 | the new field values are those `OnElement` gives for the old ones |
| SupportFetch.SupportGuideParser.OpenRegion | src/lib/support/fetch.ts:92-101 | the h1 check and the AppleTopic check update only the title and main-content flags |
| SupportFetch.SupportGuideParser.ProcessElement | src/lib/support/fetch.ts:105-168 | a processed element appends its pieces and sets its flags |
| SupportFetch.SupportGuideParser.OpenBlocks | src/lib/support/fetch.ts:105-126 | headings, paragraphs, lists and list items push their markers and set their flags |
| SupportFetch.SupportGuideParser.OpenInlines | src/lib/support/fetch.ts:128-158 | code, strong, emphasis and link elements push their opening markers and set their flags |
| SupportFetch.SupportGuideParser.OpenCode | src/lib/support/fetch.ts:128-132 | a code tag, or a class containing "code", pushes "`" and opens code |
| SupportFetch.SupportGuideParser.OpenStrong | src/lib/support/fetch.ts:134-138 | strong and b push "**" and open bold |
| SupportFetch.SupportGuideParser.OpenEmphasis | src/lib/support/fetch.ts:140-144 | em and i push "*" and open emphasis |
| SupportFetch.SupportGuideParser.OpenLink | src/lib/support/fetch.ts:146-158 | a usable anchor pushes "[" and stores the resolved href |
| SupportFetch.SupportGuideParser.Text | src/lib/support/fetch.ts:171-227 | the new field values are those `OnText` gives for the old ones |
| SupportFetch.SupportGuideParser.CloseInlines | src/lib/support/fetch.ts:200-217 | on the last chunk, open code, bold, emphasis and link push their closers in that order and are closed |
| SupportFetch.SupportGuideParser.CloseCode | src/lib/support/fetch.ts:201-204 | the last chunk closes open code with "`" |
| SupportFetch.SupportGuideParser.CloseStrong | src/lib/support/fetch.ts:205-208 | the last chunk closes open bold with "**" |
| SupportFetch.SupportGuideParser.CloseEmphasis | src/lib/support/fetch.ts:209-212 | the last chunk closes open emphasis with "*" |
| SupportFetch.SupportGuideParser.CloseLink | src/lib/support/fetch.ts:213-217 | the last chunk closes an open link with "](href)" and clears the href |
| SupportFetch.SupportGuideParser.CloseBlocks | src/lib/support/fetch.ts:218-226 | the last chunk lowers the heading, paragraph and list-item flags and pushes nothing |
| SupportFetch.ParseSupportGuideHTML | src/lib/support/fetch.ts:236-268 | feeding the events to a fresh parser gives the result of running the events from the initial state |
| SupportFetch.NoMainNoBody | src/lib/support/fetch.ts:97-103 | a page without an AppleTopic `body` has an empty body |
| SimpleParser.TitleOf | src/lib/support/simple-parser.ts:17-29 | defines the page title; stated by `TitleAbsent`, `TitlePrefersH1` and `TitleFromH1` |
| SimpleParser.CleanTitle | src/lib/support/simple-parser.ts:24-29 | defines the title clean-up; stated by `CleanTitleStrips` and `CleanTitlePlain` |
| SimpleParser.DateOf | src/lib/support/simple-parser.ts:32-35 | defines the published date; stated by `DateAbsent`, `DateShape`, `DateOfFirst` and `DateAfterLabel` |
| SimpleParser.Sections | src/lib/support/simple-parser.ts:38-117 | defines the sections of a page; stated by `BodyParts`, `SectionsStartBlank` and `BodyEmptyIff` |
| SimpleParser.Paragraphs | src/lib/support/simple-parser.ts:45-63 | defines the sections of a run of paragraphs; stated by `ParagraphsSound`, `ParagraphsComplete`, `ParagraphsAppend` and `ParagraphsAtMost` |
| SimpleParser.FindElement | src/lib/support/simple-parser.ts:22-23 | a position found is at or after the start and a match begins there |
| SimpleParser.FindElementFirst | src/lib/support/simple-parser.ts:22-23 | no match begins before the one found, and none anywhere when nothing is found |
| SimpleParser.CaptureAtStart | src/lib/support/simple-parser.ts:22-23 | a match at the very start is the one captured |
| SimpleParser.DropSuffix | src/lib/support/simple-parser.ts:27 | the suffix is removed exactly when the text ends with it |
| SimpleParser.TitleAbsent | src/lib/support/simple-parser.ts:17-29 | with neither an h1 nor a title element the title is "" |
| SimpleParser.TitlePrefersH1 | src/lib/support/simple-parser.ts:22-29 | when an h1 matches anywhere, the title comes from the first h1, not from the title element |
| SimpleParser.TitleFromH1 | src/lib/support/simple-parser.ts:22-29 | a page opening with `<h1 ...>x</h1>` is titled after x |
| SimpleParser.CleanTitleStrips | src/lib/support/simple-parser.ts:25-28 | "Apple Platform {y} - Apple Support" is cleaned to y |
| SimpleParser.CleanTitlePlain | src/lib/support/simple-parser.ts:25-28 | a title mentioning neither marker is only trimmed |
| SimpleParser.DateAt | src/lib/support/simple-parser.ts:32 | the pattern at one label position: a capture is non-empty and holds no "<" (its value is stated by `DateAtValue`) |
| SimpleParser.DateFrom | src/lib/support/simple-parser.ts:32 | the pattern searched from `from` on: nothing exactly when it matches at no position from there on; a capture is non-empty and holds no "<" |
| SimpleParser.DateFromFirst | src/lib/support/simple-parser.ts:32 | the search returns the capture at the leftmost position where the pattern matches |
| SimpleParser.DateAtValue | src/lib/support/simple-parser.ts:32 | where text other than "<" follows the label, the pattern matches there, and its capture trims to that text up to the next "<", trimmed |
| SimpleParser.DateFromNone | src/lib/support/simple-parser.ts:32-35 | without the label from a position on, nothing is captured |
| SimpleParser.DateAbsent | src/lib/support/simple-parser.ts:32-35 | without "Published Date:" there is no date |
| SimpleParser.DateShape | src/lib/support/simple-parser.ts:32-35 | a date holds no "<" and no white space at either end |
| SimpleParser.DateOfFirst | src/lib/support/simple-parser.ts:32-35 | at the first "Published Date:" followed by text other than "<", the date is that text up to the next "<", trimmed |
| SimpleParser.DateAfterLabel | src/lib/support/simple-parser.ts:32-35 | "Published Date: {d}<..." gives the date d |
| SimpleParser.KeptAnyLength | src/lib/support/simple-parser.ts:97 | with no minimum length, a paragraph is kept exactly when non-empty |
| SimpleParser.ParagraphSection | src/lib/support/simple-parser.ts:59-62 | a paragraph gives at most one section |
| SimpleParser.HeadingSection | src/lib/support/simple-parser.ts:74-77 | a Subhead block gives at most one heading section |
| SimpleParser.ParseAppleSupportHTML | src/lib/support/simple-parser.ts:16-124 | the result is the page title, the concatenated sections and the page date |
| SimpleParser.PushParagraphs | src/lib/support/simple-parser.ts:83-100 | the paragraph loop appends the sections of the paragraphs in order |
| SimpleParser.PushSubhead | src/lib/support/simple-parser.ts:70-101 | one Subhead block appends its heading, then its paragraphs |
| SimpleParser.ParagraphsSound | src/lib/support/simple-parser.ts:83-100 | every section of a run of paragraphs comes from one of them, kept and cleaned |
| SimpleParser.ParagraphsComplete | src/lib/support/simple-parser.ts:97-99 | every kept paragraph gives its blank line and cleaned text |
| SimpleParser.ParagraphsAppend | src/lib/support/simple-parser.ts:45-63 | paragraphs are emitted in document order |
| SimpleParser.ParagraphsAtMost | src/lib/support/simple-parser.ts:45-63 | no more sections than paragraphs |
| SimpleParser.SubheadSectionsAppend | src/lib/support/simple-parser.ts:70-101 | Subhead blocks are emitted in document order |
| SimpleParser.SubheadHeadingFirst | src/lib/support/simple-parser.ts:74-77 | a block that opens with `<h2 class="Name">x</h2>` starts with "\n\n## " and x trimmed, then its paragraphs |
| SimpleParser.OutroAtMostOne | src/lib/support/simple-parser.ts:104-117 | the Outro gives at most one section, and that section has no tag |
| SimpleParser.SectionsStartBlank | src/lib/support/simple-parser.ts:61-114 | every section starts with "\n\n" |
| SimpleParser.ConcatBlank | src/lib/support/simple-parser.ts:121 | a join of such sections is empty exactly when there are none, and otherwise starts with "\n\n" |
| SimpleParser.BodyEmptyIff | src/lib/support/simple-parser.ts:121 | the body is empty exactly when no section was emitted, and otherwise starts with "\n\n" |
| SimpleParser.BodyParts | src/lib/support/simple-parser.ts:38-121 | the body is the intro text, then the Subhead text, then the Outro text |
| InlineCleanup.ReplaceAll | src/lib/support/simple-parser.ts:49-56 | defines a global replace of one rule; stated by `ReplaceAllShorter`, `ReplaceAllPlain` and `ReplaceAllHit` |
| InlineCleanup.AnchorAt | src/lib/support/simple-parser.ts:52 | a match of the anchor pattern at the start begins with "<a" and is at least as long as its href, its text and the fixed 14 characters together, and no longer than the text |
| InlineCleanup.CleanParagraph | src/lib/support/simple-parser.ts:49-57 | defines the paragraph clean-up; stated by `CleanParagraphShorter` and `CleanParagraphPlain` |
| InlineCleanup.CleanOutro | src/lib/support/simple-parser.ts:109-112 | defines the Outro clean-up; stated by `CleanOutroNoTag` and `CleanOutroPlain` |
| InlineCleanup.Apply | src/lib/support/simple-parser.ts:49-56 | every rule's match starts with "<" or "&" and is not shorter than its replacement |
| InlineCleanup.ReplaceAllShorter | src/lib/support/simple-parser.ts:49-56 | no replacement makes the text longer |
| InlineCleanup.ReplaceAllPlain | src/lib/support/simple-parser.ts:49-56 | text without "<" and "&" passes every replacement unchanged |
| InlineCleanup.ReplaceAllHit | src/lib/support/simple-parser.ts:49-56 | a match at the start is replaced and the scan resumes after it |
| InlineCleanup.NoBreakSpanUnwraps | src/lib/support/simple-parser.ts:50 | `<span ...class="NoBreak"...>x</span>` becomes x |
| InlineCleanup.SpanUnwraps | src/lib/support/simple-parser.ts:51 | `<span ...>x</span>` becomes x |
| InlineCleanup.AnchorBecomesLink | src/lib/support/simple-parser.ts:52 | for an href u that is non-empty, has no `"` and no `>` and does not end in "href=", and a text t without "<", `<a href="u">t</a>` becomes "[t](u)" |
| InlineCleanup.StrongBecomesBold | src/lib/support/simple-parser.ts:53 | `<strong>x</strong>` becomes "**x**" |
| InlineCleanup.EmphasisBecomesItalic | src/lib/support/simple-parser.ts:54 | `<em>x</em>` becomes "*x*" |
| InlineCleanup.NbspBecomesSpace | src/lib/support/simple-parser.ts:55 | "&nbsp;" becomes a space |
| InlineCleanup.AnyTagRemovesAll | src/lib/support/simple-parser.ts:110 | after removing `<[^>]+>` no tag is left |
| InlineCleanup.AnyTagNoop | src/lib/support/simple-parser.ts:110 | text without tags is unchanged |
| InlineCleanup.AnyTagIdempotent | src/lib/support/simple-parser.ts:110 | removing tags twice is removing them once |
| InlineCleanup.NbspKeepsNoTag | src/lib/support/simple-parser.ts:111 | turning "&nbsp;" into a space creates no tag |
| InlineCleanup.CleanParagraphShorter | src/lib/support/simple-parser.ts:49-57 | the paragraph clean-up never lengthens the text |
| InlineCleanup.CleanParagraphPlain | src/lib/support/simple-parser.ts:49-57 | text without markup is only trimmed |
| InlineCleanup.CleanOutroNoTag | src/lib/support/simple-parser.ts:109-112 | the Outro text holds no tag |
| InlineCleanup.CleanOutroPlain | src/lib/support/simple-parser.ts:109-112 | Outro text without markup is only trimmed |
| SupportRender.Layout | src/lib/support/render.ts:14-58 | defines the lines of the page; stated by `LayoutLength`, `LayoutOpening`, `LayoutBody`, `LayoutDate` and `LayoutLinks` |
| SupportRender.RenderSupportGuideMarkdown | src/lib/support/render.ts:14-58 | the pushes, the loop over related links and the join give the layout's lines joined with "\n" |
| SupportRender.LayoutLength | src/lib/support/render.ts:15-56 | the page has four header and three footer lines always, two title lines exactly with a title, two body lines exactly with a body, three date lines exactly with a date, and three lines plus one per link exactly with related links |
| SupportRender.LayoutOpening | src/lib/support/render.ts:18-27 | with a title, "# {title}" and "" open the page; after the title lines come the source line and "", "---", "" |
| SupportRender.LayoutBody | src/lib/support/render.ts:30-33 | a non-empty body appears trimmed, followed by "" |
| SupportRender.LayoutDate | src/lib/support/render.ts:36-40 | with a date, "", "---" and "*Published: {d}*" follow the body block |
| SupportRender.LayoutLinks | src/lib/support/render.ts:43-50 | with related links, "", "## Related Links", "" and one "- {link}" line per link, in order |
| SupportRender.RenderOpening | src/lib/support/render.ts:18-24 | the text starts with "# {title}\n\n" and the source line exactly when there is a title, and with the source line otherwise |
| SupportRender.RenderClosing | src/lib/support/render.ts:53-57 | the text always ends with "\n---\n*Source: {url}*" |
| SupportToc.NormalizeTocUrl | src/lib/support/toc.ts:62 | defines the link rewrite; stated by `NormalizeTocUrlRewrites`, `NormalizeTocUrlKeeps` and `NormalizeTocUrlIdempotent` |
| SupportToc.TocItems | src/lib/support/toc.ts:49-68 | defines the items of the matches; stated by `TocItemsAppend`, `TocItemsSingle`, `TocItemsSound` and `TocItemsNone` |
| SupportToc.TopicQuery | src/lib/support/toc.ts:91 | defines the lower-cased, trimmed query that `FindTopicTiers` compares with |
| SupportToc.LastDash | src/lib/support/toc.ts:56 | the position found holds the last "-" of the range |
| SupportToc.SlugAt | src/lib/support/toc.ts:56 | a slug is non-empty and all lower-case letters and digits |
| SupportToc.SlugOf | src/lib/support/toc.ts:56 | as above, for the leftmost match |
| SupportToc.SlugFromFirst | src/lib/support/toc.ts:56 | the leftmost match wins |
| SupportToc.SlugAtLink | src/lib/support/toc.ts:56 | a link ".../guide/{g}/{t}-{slug}/..." has slug `slug` where "/guide/" starts |
| SupportToc.SlugOfLink | src/lib/support/toc.ts:55-58 | with no earlier "/guide/", that slug is the one the match returns |
| SupportToc.NormalizeTocUrlRewrites | src/lib/support/toc.ts:62 | a trailing "/1/web/1.0" becomes "/web" |
| SupportToc.NormalizeTocUrlKeeps | src/lib/support/toc.ts:62 | any other link is kept |
| SupportToc.NormalizeTocUrlIdempotent | src/lib/support/toc.ts:62 | a normalised link never ends in "/1/web/1.0", so normalising is idempotent |
| SupportToc.ParseTocHtml | src/lib/support/toc.ts:49-68 | the exec loop gives the items of the matches, in match order |
| SupportToc.TocItemsAppend | src/lib/support/toc.ts:50-66 | items stay in document order |
| SupportToc.TocItemsSingle | src/lib/support/toc.ts:51-65 | a match without a slug gives no item; any other gives its trimmed title, slug, normalised URL and id |
| SupportToc.TocItemsSound | src/lib/support/toc.ts:50-66 | at most one item per match; each comes from a match, with a non-empty lower-case slug, a normalised URL and a trimmed title |
| SupportToc.TocItemsNone | src/lib/support/toc.ts:57-68 | no match with a slug, no items |
| SupportToc.LongWords | src/lib/support/toc.ts:76 | the kept words are exactly the words longer than two UTF-16 units |
| SupportToc.Matching | src/lib/support/toc.ts:78-83 | the filter keeps exactly the items whose lower-cased title contains some word, in order |
| SupportToc.SearchToc | src/lib/support/toc.ts:74-85 | at most 20 results, an order-preserving subsequence of the items, each title containing a query word; no long word, no result |
| SupportToc.SearchTocComplete | src/lib/support/toc.ts:78-84 | a matching item preceded by fewer than 20 matching items is a result, at the position equal to that count; so a matching item is missing only when 20 matching items come before it |
| SupportToc.MatchingAppend | src/lib/support/toc.ts:78-83 | filtering a concatenation is concatenating the filtered parts |
| SupportToc.MatchingCons | src/lib/support/toc.ts:78-83 | an item whose lower-cased title contains some word is kept at the front |
| SupportToc.FirstHitIndex | src/lib/support/toc.ts:94 | `find` returns the first item that passes the test, and nothing only when none does |
| SupportToc.FirstHitSpec | src/lib/support/toc.ts:94-106 | a hit is found exactly when some item passes, and it is the first one that does |
| SupportToc.FindTopic | src/lib/support/toc.ts:90-109 | a result is one of the items |
| SupportToc.FindTopicTiers | src/lib/support/toc.ts:90-109 | the first exact match, else the first title containing the query, else the first title containing every long word, else nothing |
| SupportToc.FindTopicShortQuery | src/lib/support/toc.ts:101-108 | as written: a query with no long word that no title contains returns the first item |
| SupportToc.FindTopicShortQueryExample | src/lib/support/toc.ts:101-108 | the query "zz" finds the "Overview" item, whose title does not contain "zz" |
| SupportToc.FindTopicWithWords | src/lib/support/toc.ts:101-108 | corrected: a result is one of the items |
| SupportToc.FindTopicWithWordsRelevant | src/lib/support/toc.ts:90-108 | corrected: a result's lower-cased title contains the query or some query word |
| SupportToc.FindTopicWithWordsAgrees | src/lib/support/toc.ts:101-108 | corrected and as-written agree whenever the query has a long word |
| TrainingCatalog.CatalogUrl | src/lib/training/fetch.ts:14-16 | defines the catalog URL; stated by `CatalogUrlShape` |
| TrainingCatalog.TutorialSubdir | src/lib/training/fetch.ts:21-23 | defines the subdirectory; stated by `TutorialSubdirDistinct` |
| TrainingCatalog.TutorialFor | src/lib/training/fetch.ts:148-161 | defines the id lookup; stated by `TutorialForSpec` and `TutorialForEmptyId` |
| TrainingCatalog.TrainingStructure | src/lib/training/fetch.ts:252-297 | defines the catalog outline from its volumes; stated by `Volumes`, `VolumesAppend`, `VolumesSingle` and `VolumeOutlineShape` |
| TrainingCatalog.CatalogUrlShape | src/lib/training/fetch.ts:14-16 | each catalog URL lies under "https://it-training.apple.com/data/tutorials/", ends with ".json", and the two catalogs have different URLs |
| TrainingCatalog.TutorialSubdirDistinct | src/lib/training/fetch.ts:21-23 | the two catalogs have different, non-empty subdirectories without "/" |
| TrainingCatalog.TutorialId | src/lib/training/fetch.ts:65 | the id is the text after the last "/": it has no "/", ends the URL, and follows a "/" when shorter than the URL |
| TrainingCatalog.Texts | src/lib/training/fetch.ts:69-71 | one text per abstract item, in order |
| TrainingCatalog.FetchTrainingTutorial | src/lib/training/fetch.ts:148-161 | the loop returns the first reference that passes the test, or null |
| TrainingCatalog.TutorialForSpec | src/lib/training/fetch.ts:148-161 | null exactly when no topic reference has the id as its last URL segment or in its identifier; otherwise the first that does |
| TrainingCatalog.TutorialForEmptyId | src/lib/training/fetch.ts:156 | the empty id finds the first topic tutorial, as every identifier includes "" |
| TrainingCatalog.Lookup | src/lib/training/fetch.ts:277 | an entry found has the key; nothing is found only when no entry has it |
| TrainingCatalog.LookupFirst | src/lib/training/fetch.ts:277 | the first entry with the key is the one found |
| TrainingCatalog.Outlines | src/lib/training/fetch.ts:275-287 | one entry or null per listed id |
| TrainingCatalog.Present | src/lib/training/fetch.ts:288 | the filter keeps at most as many entries as it is given (its full behaviour is fixed by `PresentAppend` and `PresentSingle`) |
| TrainingCatalog.PresentAppend | src/lib/training/fetch.ts:288 | filtering a concatenation is concatenating the filtered parts |
| TrainingCatalog.PresentSingle | src/lib/training/fetch.ts:288 | a single non-null entry is kept; a single null is dropped |
| TrainingCatalog.PresentSound | src/lib/training/fetch.ts:288 | every kept entry is a non-null input entry |
| TrainingCatalog.PresentAll | src/lib/training/fetch.ts:288 | with no null, every entry is kept, in order |
| TrainingCatalog.ChapterTutorials | src/lib/training/fetch.ts:275-288 | a chapter has no more tutorials than listed ids (its full behaviour is fixed by `ChapterTutorialsAppend` and `ChapterTutorialsSingle`) |
| TrainingCatalog.ChapterTutorialsAppend | src/lib/training/fetch.ts:275-288 | the tutorials of a concatenation of id lists are the tutorials of each part, in order, so a mixed chapter keeps every resolvable tutorial in order |
| TrainingCatalog.ChapterTutorialsSingle | src/lib/training/fetch.ts:275-288 | one id gives its outline when it names a reference with `kind`, and nothing otherwise |
| TrainingCatalog.ChapterTutorialsSound | src/lib/training/fetch.ts:275-288 | every outline tutorial comes from a listed id naming a reference with `kind` |
| TrainingCatalog.ChapterTutorialsKeepsAll | src/lib/training/fetch.ts:275-288 | when every id names a reference with `kind`, none is dropped and the order is kept |
| TrainingCatalog.OutlineOfMissing | src/lib/training/fetch.ts:277-280 | an id missing from the references, or naming one without `kind`, is dropped |
| TrainingCatalog.Volumes | src/lib/training/fetch.ts:269-271 | no more volumes than sections |
| TrainingCatalog.VolumesAppend | src/lib/training/fetch.ts:269-271 | sections keep their order |
| TrainingCatalog.VolumesSingle | src/lib/training/fetch.ts:270-271 | a section that is not a volume gives nothing; a volume gives one outline |
| TrainingCatalog.VolumeOutlineShape | src/lib/training/fetch.ts:272-289 | a volume's name is its own when non-empty, else "Unnamed Volume", so never empty; one chapter outline per chapter, with the chapter's name and tutorials |
| TrainingSearch.SearchResults | src/lib/training/fetch.ts:44-136 | defines the search results; stated by `SearchResultsMembers` |
| TrainingSearch.Collected | src/lib/training/fetch.ts:56-122 | defines the results of the reference loop; stated by `CollectedSound`, `CollectedComplete` and `CollectedAppend` |
| TrainingSearch.PlacementIn | src/lib/training/fetch.ts:96-110 | defines the placement; stated by `PlacementSpec` |
| TrainingSearch.ExactFirst | src/lib/training/fetch.ts:124-133 | defines the sort; stated by `ExactFirstSpec` and `ExactFirstNoExact` |
| TrainingSearch.PlatformFilter | src/lib/training/fetch.ts:81-94 | iphone needs "iphone" or "ios", ipad needs "ipad" or "ipados", mac needs "mac" or "macos"; no platform or "all" filters nothing |
| TrainingSearch.ChapterWith | src/lib/training/fetch.ts:102-107 | the first chapter listing the identifier, or none when no chapter does |
| TrainingSearch.FindPlacement | src/lib/training/fetch.ts:96-110 | the placement loops give the placement of the reference |
| TrainingSearch.PlacementSpec | src/lib/training/fetch.ts:96-110 | placed exactly when some volume lists the identifier, and then in the last such volume, at its first listing chapter |
| TrainingSearch.ResultShape | src/lib/training/fetch.ts:112-121 | url is "https://it-training.apple.com" + the tutorial URL; the id is the last URL segment; title and kind are the tutorial's |
| TrainingSearch.CollectedSound | src/lib/training/fetch.ts:56-122 | every result is the result of a selected reference: a topic with `kind`, matching the query and the platform |
| TrainingSearch.CollectedComplete | src/lib/training/fetch.ts:56-122 | every selected reference gives its result |
| TrainingSearch.CollectedAppend | src/lib/training/fetch.ts:56-122 | results keep the order of the references |
| TrainingSearch.WithExactness | src/lib/training/fetch.ts:126-127 | each result kept has the requested exactness |
| TrainingSearch.WithExactnessSplit | src/lib/training/fetch.ts:125-133 | the exact and the other results together are the results |
| TrainingSearch.WithExactnessAppend | src/lib/training/fetch.ts:125-133 | selection by exactness keeps order across runs |
| TrainingSearch.WithExactnessAll | src/lib/training/fetch.ts:125-133 | results that all share one exactness are kept whole by it and dropped whole by the other |
| TrainingSearch.ExactFirstSpec | src/lib/training/fetch.ts:124-133 | the sort is a permutation; exact title matches come first; both the exact and the other results keep their relative order |
| TrainingSearch.ExactFirstNoExact | src/lib/training/fetch.ts:124-133 | with no exact match the order is unchanged |
| TrainingSearch.SearchResultsMembers | src/lib/training/fetch.ts:44-136 | a reference's result is returned exactly when the reference is selected; exact matches come first |
| TrainingSearch.ResultFor | src/lib/training/fetch.ts:57-121 | the loop body gives the reference's result exactly when it is selected, and `continue`s otherwise |
| TrainingSearch.SearchTrainingTutorials | src/lib/training/fetch.ts:44-136 | the loop and the sort give the search results |
| TrainingContent.Duration | src/lib/training/fetch.ts:186-191 | defines the time text; stated by `DurationPositive` and `DurationNegative` |
| TrainingContent.SectionTitle | src/lib/training/fetch.ts:217-221 | defines the section title; stated by `SectionTitleChars` and `TitleWordsCase` |
| TrainingContent.Page | src/lib/training/fetch.ts:167-247 | defines the page text; stated by `PageFrame`, `PageNoTime` and `OpeningLines` |
| TrainingContent.JsRem60 | src/lib/training/fetch.ts:188 | JavaScript's `m % 60`: the result is smaller than 60 in size, differs from m by a multiple of 60, and has the sign of m (zero or positive for m >= 0, zero or negative for m <= 0), which fixes it uniquely |
| TrainingContent.JsRem60Unique | src/lib/training/fetch.ts:188 | any value with those three properties is the remainder `JsRem60` gives |
| TrainingContent.DurationPositive | src/lib/training/fetch.ts:186-191 | with m > 0: "{m/60}hr {m%60}min" from 60 minutes on, else "{m}min"; the hours and minutes shown add back up to m, and the minutes are below 60 |
| TrainingContent.DurationNegative | src/lib/training/fetch.ts:186-191 | a negative count shows only its signed minutes remainder |
| TrainingContent.Capitalize | src/lib/training/fetch.ts:220 | capitalising keeps the length |
| TrainingContent.Capitalized | src/lib/training/fetch.ts:218-221 | each word is capitalised, in order |
| TrainingContent.TitleWordsCase | src/lib/training/fetch.ts:217-221 | character by character: each "-" becomes a space, the first character and each one after a "-" is upper-cased, the rest is kept |
| TrainingContent.OneWordCase | src/lib/training/fetch.ts:220 | a single word is upper-cased at its start only |
| TrainingContent.WordsCase | src/lib/training/fetch.ts:218-221 | a word, a "-" and the rest read as the capitalised word, a space and the rest's title |
| TrainingContent.TitleWordsCons | src/lib/training/fetch.ts:218-221 | splitting off the first word gives its capitalisation, a space and the title of the rest |
| TrainingContent.SectionTitleChars | src/lib/training/fetch.ts:217-221 | the title is as long as the text after the last "#", character by character as above |
| TrainingContent.SectionTextShape | src/lib/training/fetch.ts:223-231 | task, assessment and heading sections add "### {title}\n\n"; tasks then "*Task*\n\n", assessments "*Assessment*\n\n"; other kinds add nothing |
| TrainingContent.SectionsTextAppend | src/lib/training/fetch.ts:215-232 | sections add their texts in order |
| TrainingContent.Hero | src/lib/training/fetch.ts:198 | a result is a section of kind "hero" with no "hero" section before it; none exactly when no section is a hero |
| TrainingContent.PageFrame | src/lib/training/fetch.ts:183-246 | the page opens with "# {title}\n\n" and ends with the rule, the interactive link and the note |
| TrainingContent.PageNoTime | src/lib/training/fetch.ts:186 | a missing or zero minute count gives no time line |
| TrainingContent.AppendSections | src/lib/training/fetch.ts:215-232 | the section loop appends the sections' texts |
| TrainingContent.AppendSection | src/lib/training/fetch.ts:216-231 | the appends for one section are its text |
| TrainingContent.AppendProjects | src/lib/training/fetch.ts:213-234 | the project loop appends the projects' texts |
| TrainingContent.AppendModules | src/lib/training/fetch.ts:210-237 | the module loop appends the modules' texts |
| TrainingContent.AppendParagraphs | src/lib/training/fetch.ts:201-206 | the hero loop appends "{text}\n\n" for each paragraph with inline content |
| TrainingContent.AppendFooter | src/lib/training/fetch.ts:240-244 | the footer appends the rule, the interactive link and the note |
| TrainingContent.OpeningLines | src/lib/training/fetch.ts:183-195 | the title line, then the time line and the chapter line when the first section has them |
| TrainingContent.AppendOverview | src/lib/training/fetch.ts:197-207 | the overview heading and the hero paragraphs, when the hero has content |
| TrainingContent.FetchTrainingTutorialContent | src/lib/training/fetch.ts:167-247 | the appends give the page: title, time, chapter, overview, hierarchy and footer blocks in that order |
| Hig.IsImageReference | src/lib/hig/util.ts:10-14 | defines the image guard; stated by `ImageNeverTopic` and `TopicShape` |
| Hig.IsTopicReference | src/lib/hig/util.ts:19-23 | defines the topic guard; stated by `ImageNeverTopic` and `TopicShape` |
| Hig.HasChildren | src/lib/hig/util.ts:28-30 | defines the children test; stated by `HasChildrenIff` |
| Hig.ImageNeverTopic | src/lib/hig/util.ts:10-23 | an image-shaped reference (type icon, card or image) passes the image guard and never the topic guard |
| Hig.TopicShape | src/lib/hig/util.ts:10-23 | a topic-shaped reference passes the topic guard and not the image guard; an external one is a topic exactly when its type is "topic" |
| Hig.HasChildrenIff | src/lib/hig/util.ts:28-30 | no children exactly when the member is missing or the list is empty |
| Hig.ImageFixture | tests/hig.test.ts:33-54 | the test's image reference is an image and not a topic |
| Hig.TopicFixture | tests/hig.test.ts:41-54 | the test's topic reference is a topic and not an image |
| Hig.ChildrenFixture | tests/hig.test.ts:57-73 | the item with one child has children; the item without the member has none |

## Left out

- The network: `fetch`, the User-Agent choice, `response.text()` and `response.json()`. The response, the tutorial JSON and the catalog are parameters.
- The HTMLRewriter wiring and streaming in `parseSupportGuideHTML`. The parser receives the element and text calls as an `Event` sequence.
- `fetchTableOfContents` and `fetchTrainingCatalog` are not modelled. They only fetch and then call the modelled code.
- Regular expressions with lazy quantifiers or look-ahead are not modelled. They are the `<body>` intro, the intro and Subhead paragraphs, the Subhead blocks, the Outro block in simple-parser.ts, and the table-of-contents link pattern. Their captures are inputs (`Captures`, `TocMatch`). The simple patterns are hand-written scanners: title, date, inline clean-up, tag removal and slug.
- Case mapping covers ASCII only. Whitespace for `trim` and `\s` is the JavaScript set.
- SupportFetch.RunFrom: the model checks every element event, but the rewriter only sends elements its selectors name. The `Tag` datatype lists exactly those elements.
- SimpleParser.ParseAppleSupportHTML: the `.replace(/—/g, "—")` step replaces a character by itself and is modelled as the identity.
- SupportFetch.FetchSupportGuidePage: the `console.error` call before each throw (src/lib/support/fetch.ts:36-42) is logging and is not modelled.
- InlineCleanup.AnchorBecomesLink: covers only hrefs without `>` and not ending in "href=". The anchor pattern also accepts a `>` inside the quoted href, and an href ending in "href=" still gives "[t](u)" after backtracking; neither case is stated.
- SupportTypes.ParsedContent: `relatedLinks` is always `None` for `parseAppleSupportHTML`, whose result has no such field.
- TrainingContent.DurationPositive: `estimatedTimeInMinutes` is an integer. Fractional minutes, which would print as JavaScript floats, are not modelled.
- TrainingCatalog.Lookup: the model takes the first entry with a key. A JSON object cannot hold a key twice after `JSON.parse`, which keeps the last.
- The `references` object is modelled as the sequence of its entries in `Object.entries` order.
- TrainingSearch.ExactFirst: the in-place `sort` is modelled as a function on values. JavaScript's sort is stable, so a comparator with two outcomes gives a stable partition.
- The guard copies in src/lib/hig/types.ts:186-206 and the re-exports in src/lib/hig/index.ts are not modelled. The re-export shadows the copies.
- The JSON content-tree renderers, the caches and the MCP adapter are not part of this model. The HTTP routing in src/index.ts is not part of it either.

## Findings

| source | as written | input that shows it | evidently intended | confidence | as-written member | corrected member |
|---|---|---|---|---|---|---|
| src/lib/support/toc.ts:101-108 | The word tier keeps only words longer than two characters, then tests `words.every(...)`. With no such word, `every` on an empty list is true, so the first item matches. | items `[{title: "Overview", ...}]`, query "zz": "overview" is not "zz" and does not contain it, yet `findTopic` returns the Overview item | the word tier runs only when the query has at least one long word, so a result always shares text with the query | medium, not executed | SupportToc.FindTopic, SupportToc.FindTopicShortQuery, SupportToc.FindTopicShortQueryExample | SupportToc.FindTopicWithWords, SupportToc.FindTopicWithWordsRelevant |
