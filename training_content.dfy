/** `fetchTrainingTutorialContent` after the tutorial JSON is fetched: the
    Markdown page built from the tutorial's metadata, hero section and
    module/project/section hierarchy. */
module TrainingContent {
  import opened Wrappers
  import opened Strings
  import opened TrainingTypes
  import opened TrainingCatalog

  datatype InlineItem = InlineItem(text: Option<string>)
  datatype Paragraph = Paragraph(paraType: string, inlineContent: Option<seq<InlineItem>>)
  datatype ContentSection = ContentSection(
    kind: string,
    estimatedTimeInMinutes: Option<int>,
    chapter: Option<string>,
    content: Option<seq<Paragraph>>)
  datatype TaskSection = TaskSection(kind: string, reference: string)
  datatype Project = Project(sections: Option<seq<TaskSection>>)
  datatype TutorialModule = TutorialModule(projects: Option<seq<Project>>)

  /** The parts of the tutorial JSON the page reads; `modules` is
      `hierarchy?.modules`. */
  datatype TutorialData = TutorialData(
    title: string,
    sections: Option<seq<ContentSection>>,
    modules: Option<seq<TutorialModule>>)

  // ---------------------------------------------------------------------------
  // The estimated time

  /** `m % 60` with JavaScript's `%`: the remainder of the division truncated
      toward zero, so it is smaller than 60 in size, differs from `m` by a
      multiple of 60, and takes the sign of `m`. */
  function JsRem60(m: int): (r: int)
    ensures -60 < r < 60
    ensures (m - r) % 60 == 0
    ensures m >= 0 ==> r >= 0
    ensures m <= 0 ==> r <= 0
  {
    if m >= 0 then m % 60 else -((-m) % 60)
  }

  /** Those four properties leave no other choice: any value with them is the
      remainder. */
  lemma JsRem60Unique(m: int, r: int)
    requires -60 < r < 60 && (m - r) % 60 == 0
    requires (m >= 0 ==> r >= 0) && (m <= 0 ==> r <= 0)
    ensures r == JsRem60(m)
  {
  }

  /** `hours > 0 ? `${hours}hr ${mins}min` : `${mins}min``, with
      `hours = Math.floor(m / 60)` (Dafny's `/` by a positive number is the
      floor) and `mins = m % 60`. */
  function Duration(m: int): string {
    var hours := m / 60;
    var mins := JsRem60(m);
    if hours > 0 then IntToString(hours) + "hr " + IntToString(mins) + "min" else IntToString(mins) + "min"
  }

  /** For a positive number of minutes the page shows the whole hours, if
      any, and the minutes left over, which read back as the same total. */
  lemma DurationPositive(m: int)
    requires m > 0
    ensures m >= 60 ==> Duration(m) == NatToString(m / 60) + "hr " + NatToString(m % 60) + "min"
    ensures m < 60 ==> Duration(m) == NatToString(m) + "min"
    ensures 60 * DigitsValue(NatToString(m / 60)) + DigitsValue(NatToString(m % 60)) == m
    ensures DigitsValue(NatToString(m % 60)) < 60
  {
    var h, r := m / 60, m % 60;
    assert m == 60 * h + r && 0 <= r < 60;
    assert JsRem60(m) == r;
  }

  /** For a negative number only the minutes part is shown, with its sign. */
  lemma DurationNegative(m: int)
    requires m < 0
    ensures (-m) % 60 == 0 ==> Duration(m) == "0min"
    ensures (-m) % 60 != 0 ==> Duration(m) == "-" + NatToString((-m) % 60) + "min"
  {
  }

  // ---------------------------------------------------------------------------
  // Section titles

  /** `word.charAt(0).toUpperCase() + word.slice(1)`. */
  function Capitalize(w: string): (r: string)
    ensures |r| == |w|
  {
    if w == [] then [] else [UpperChar(w[0])] + w[1..]
  }

  function Capitalized(ws: seq<string>): (r: seq<string>)
    ensures |r| == |ws| && forall i :: 0 <= i < |ws| ==> r[i] == Capitalize(ws[i])
  {
    seq(|ws|, i requires 0 <= i < |ws| => Capitalize(ws[i]))
  }

  /** The title of a tutorial section: the text after the last '#' of its
      reference, split on '-', each word capitalised, joined with spaces. */
  function SectionTitle(reference: string): string {
    TitleWords(LastPiece(reference, '#'))
  }

  function TitleWords(id: string): string {
    Join(Capitalized(Split(id, '-')), " ")
  }

  /** A character-by-character reading of `TitleWords`: each '-' becomes a
      space, each character that starts a word is upper-cased, and every
      other character is kept. */
  ghost predicate TitleCase(id: string, t: string) {
    |t| == |id| && forall i :: 0 <= i < |id| ==> t[i] == TitleChar(id, i)
  }

  function TitleChar(id: string, i: nat): char
    requires i < |id|
  {
    if id[i] == '-' then ' '
    else if i == 0 || id[i - 1] == '-' then UpperChar(id[i])
    else id[i]
  }

  lemma {:induction false} TitleWordsCase(id: string)
    ensures TitleCase(id, TitleWords(id))
    decreases |id|
  {
    var k := NextChar(id, 0, '-');
    if k == |id| {
      assert Split(id, '-') == [id];
      assert TitleWords(id) == Capitalize(id);
      OneWordCase(id);
    } else {
      var a, b := id[..k], id[k + 1..];
      assert Split(id, '-') == [a] + Split(b, '-');
      TitleWordsCase(b);
      TitleWordsCons(a, b);
      assert id == a + "-" + b;
      WordsCase(a, b, TitleWords(b));
    }
  }

  /** A single word is capitalised at its start only. */
  lemma OneWordCase(w: string)
    requires '-' !in w
    ensures TitleCase(w, Capitalize(w))
  {
    forall i | 0 <= i < |w| ensures Capitalize(w)[i] == TitleChar(w, i) {
      if i > 0 {
        assert w[i - 1] != '-';
      }
    }
  }

  /** A word, a '-' and the rest read as the capitalised word, a space and the
      rest's title. */
  lemma WordsCase(a: string, b: string, tb: string)
    requires '-' !in a && TitleCase(b, tb)
    ensures TitleCase(a + "-" + b, Capitalize(a) + " " + tb)
  {
    var id, t := a + "-" + b, Capitalize(a) + " " + tb;
    var k := |a|;
    OneWordCase(a);
    forall i | 0 <= i < |id| ensures t[i] == TitleChar(id, i) {
      if i < k {
        assert id[i] == a[i] && t[i] == Capitalize(a)[i];
        if i > 0 {
          assert id[i - 1] == a[i - 1];
        }
      } else if i > k {
        var j := i - k - 1;
        assert id[i] == b[j] && t[i] == tb[j];
        assert tb[j] == TitleChar(b, j);
        if j > 0 {
          assert id[i - 1] == b[j - 1];
        }
      }
    }
  }

  lemma TitleWordsCons(a: string, b: string)
    ensures Join(Capitalized([a] + Split(b, '-')), " ") == Capitalize(a) + " " + TitleWords(b)
  {
    var rest := Split(b, '-');
    assert Capitalized([a] + rest) == [Capitalize(a)] + Capitalized(rest);
    JoinCons(Capitalize(a), Capitalized(rest), " ");
  }

  /** The title has the length of the section id, a space exactly where the id
      has a '-', and the id's characters elsewhere, upper-cased at the start of
      each word. */
  lemma SectionTitleChars(reference: string)
    ensures var id, t := LastPiece(reference, '#'), SectionTitle(reference);
      |t| == |id| && forall i :: 0 <= i < |id| ==> t[i] == TitleChar(id, i)
  {
    TitleWordsCase(LastPiece(reference, '#'));
  }

  const TaskMarker: string := "*Task*\n\n"
  const AssessmentMarker: string := "*Assessment*\n\n"

  function Heading(title: string): string {
    "### " + title + "\n\n"
  }

  /** What one tutorial section adds to the page. */
  function SectionText(s: TaskSection): string {
    var title := SectionTitle(s.reference);
    if s.kind == "task" then Heading(title) + TaskMarker
    else if s.kind == "assessment" then Heading(title) + AssessmentMarker
    else if s.kind == "heading" then Heading(title)
    else ""
  }

  /** Task, assessment and heading sections add a level-3 heading with their
      title, the first two followed by their marker; other kinds add nothing. */
  lemma SectionTextShape(s: TaskSection)
    ensures s.kind in {"task", "assessment", "heading"} ==> StartsWith(SectionText(s), Heading(SectionTitle(s.reference)))
    ensures s.kind == "task" ==> EndsWith(SectionText(s), TaskMarker)
    ensures s.kind == "assessment" ==> EndsWith(SectionText(s), AssessmentMarker)
    ensures s.kind == "heading" ==> SectionText(s) == Heading(SectionTitle(s.reference))
    ensures s.kind !in {"task", "assessment", "heading"} ==> SectionText(s) == ""
  {
    var h := Heading(SectionTitle(s.reference));
    StartsWithPrefix(h, TaskMarker);
    StartsWithPrefix(h, AssessmentMarker);
    StartsWithPrefix(h, "");
    assert h + "" == h;
    EndsWithSuffix(h, TaskMarker);
    EndsWithSuffix(h, AssessmentMarker);
  }

  // ---------------------------------------------------------------------------
  // The hierarchy, level by level, in document order

  function SectionsText(ss: seq<TaskSection>): string
    decreases |ss|
  {
    if ss == [] then "" else SectionsText(ss[..|ss| - 1]) + SectionText(ss[|ss| - 1])
  }

  function ProjectText(p: Project): string {
    if p.sections.Some? then SectionsText(p.sections.value) else ""
  }

  function ProjectsText(ps: seq<Project>): string
    decreases |ps|
  {
    if ps == [] then "" else ProjectsText(ps[..|ps| - 1]) + ProjectText(ps[|ps| - 1])
  }

  function ModuleText(m: TutorialModule): string {
    if m.projects.Some? then ProjectsText(m.projects.value) else ""
  }

  function ModulesText(ms: seq<TutorialModule>): string
    decreases |ms|
  {
    if ms == [] then "" else ModulesText(ms[..|ms| - 1]) + ModuleText(ms[|ms| - 1])
  }

  /** A run of sections adds the texts of its sections in order. */
  lemma {:induction false} SectionsTextAppend(a: seq<TaskSection>, b: seq<TaskSection>)
    ensures SectionsText(a + b) == SectionsText(a) + SectionsText(b)
    decreases |b|
  {
    if b == [] {
      assert a + b == a;
    } else {
      var b' := b[..|b| - 1];
      assert (a + b)[..|a + b| - 1] == a + b';
      assert (a + b)[|a + b| - 1] == b[|b| - 1];
      SectionsTextAppend(a, b');
      AppendAssoc(SectionsText(a), SectionsText(b'), SectionText(b[|b| - 1]));
    }
  }

  // ---------------------------------------------------------------------------
  // The hero section

  /** `item.text || ""`. */
  function ItemText(x: InlineItem): string {
    if x.text.Some? then x.text.value else ""
  }

  function InlineText(items: seq<InlineItem>): string
    decreases |items|
  {
    if items == [] then "" else InlineText(items[..|items| - 1]) + ItemText(items[|items| - 1])
  }

  /** A hero paragraph adds its text and a blank line; other content adds
      nothing. */
  function ParagraphText(p: Paragraph): string {
    if p.paraType == "paragraph" && p.inlineContent.Some? then InlineText(p.inlineContent.value) + "\n\n" else ""
  }

  function ParagraphsText(ps: seq<Paragraph>): string
    decreases |ps|
  {
    if ps == [] then "" else ParagraphsText(ps[..|ps| - 1]) + ParagraphText(ps[|ps| - 1])
  }

  /** `sections.find((s) => s.kind === "hero")`. */
  function Hero(ss: seq<ContentSection>): (r: Option<ContentSection>)
    ensures r.Some? ==> r.value in ss && r.value.kind == "hero"
    ensures r.Some? ==> exists i :: 0 <= i < |ss| && ss[i] == r.value && forall j :: 0 <= j < i ==> ss[j].kind != "hero"
    ensures r.None? ==> forall i :: 0 <= i < |ss| ==> ss[i].kind != "hero"
  {
    if ss == [] then None
    else if ss[0].kind == "hero" then Some(ss[0])
    else
      var r := Hero(ss[1..]);
      assert forall i :: 1 <= i < |ss| ==> ss[i] == ss[1..][i - 1];
      assert r.Some? ==> exists i :: 0 <= i < |ss| && ss[i] == r.value && forall j :: 0 <= j < i ==> ss[j].kind != "hero" by {
        if r.Some? {
          var i :| 0 <= i < |ss[1..]| && ss[1..][i] == r.value && forall j :: 0 <= j < i ==> ss[1..][j].kind != "hero";
          assert ss[i + 1] == r.value;
        }
      }
      r
  }

  // ---------------------------------------------------------------------------
  // The page

  function TitleBlock(d: TutorialData): string {
    "# " + d.title + "\n\n"
  }

  /** The estimated-time line, when the first section has a non-zero minute
      count. */
  function TimeBlock(d: TutorialData): string {
    if d.sections.Some? && |d.sections.value| > 0 && d.sections.value[0].estimatedTimeInMinutes.Some?
      && d.sections.value[0].estimatedTimeInMinutes.value != 0
    then "**Estimated Time**: " + Duration(d.sections.value[0].estimatedTimeInMinutes.value) + "\n\n"
    else ""
  }

  /** The chapter line, when the first section names a non-empty chapter. */
  function ChapterBlock(d: TutorialData): string {
    if d.sections.Some? && |d.sections.value| > 0 && d.sections.value[0].chapter.Some?
      && d.sections.value[0].chapter.value != ""
    then "**Chapter**: " + d.sections.value[0].chapter.value + "\n\n"
    else ""
  }

  function OverviewBlock(d: TutorialData): string {
    if d.sections.Some? then
      match Hero(d.sections.value)
      case Some(h) => if h.content.Some? then "## Overview\n\n" + ParagraphsText(h.content.value) else ""
      case None => ""
    else ""
  }

  function HierarchyBlock(d: TutorialData): string {
    if d.modules.Some? then ModulesText(d.modules.value) else ""
  }

  function TutorialUrl(c: CatalogType, tutorialId: string): string {
    TrainingBaseUrl + "/tutorials/" + TutorialSubdir(c) + "/" + tutorialId
  }

  const Rule: string := "---\n\n"
  const NoteStart: string := "*Note: This tutorial includes hands-on exercises and assessments. "
  const NoteEnd: string := "Visit the interactive version for the complete learning experience.*\n"

  function InteractiveLine(c: CatalogType, tutorialId: string): string {
    "**Interactive Tutorial**: " + TutorialUrl(c, tutorialId) + "\n\n"
  }

  /** The rule, the link to the interactive tutorial and the note. */
  function FooterBlock(c: CatalogType, tutorialId: string): string {
    Rule + InteractiveLine(c, tutorialId) + NoteStart + NoteEnd
  }

  /** The page, block by block, in the order the code appends them. */
  function Page(d: TutorialData, c: CatalogType, tutorialId: string): string {
    TitleBlock(d) + TimeBlock(d) + ChapterBlock(d) + OverviewBlock(d) + HierarchyBlock(d) + FooterBlock(c, tutorialId)
  }

  /** The page always opens with the title heading and closes with the link to
      the interactive tutorial and the note. */
  lemma PageFrame(d: TutorialData, c: CatalogType, tutorialId: string)
    ensures StartsWith(Page(d, c, tutorialId), "# " + d.title + "\n\n")
    ensures EndsWith(Page(d, c, tutorialId), FooterBlock(c, tutorialId))
  {
    var mid := TimeBlock(d) + ChapterBlock(d) + OverviewBlock(d) + HierarchyBlock(d);
    var f := FooterBlock(c, tutorialId);
    AppendAssoc(TitleBlock(d), TimeBlock(d), ChapterBlock(d));
    AppendAssoc(TitleBlock(d), TimeBlock(d) + ChapterBlock(d), OverviewBlock(d));
    AppendAssoc(TitleBlock(d), TimeBlock(d) + ChapterBlock(d) + OverviewBlock(d), HierarchyBlock(d));
    AppendAssoc(TitleBlock(d), mid, f);
    StartsWithPrefix(TitleBlock(d), mid + f);
    EndsWithSuffix(TitleBlock(d) + mid, f);
  }

  /** With a zero or missing minute count, no estimated-time line. */
  lemma PageNoTime(d: TutorialData)
    requires d.sections.Some? && |d.sections.value| > 0
    requires d.sections.value[0].estimatedTimeInMinutes.None? || d.sections.value[0].estimatedTimeInMinutes.value == 0
    ensures TimeBlock(d) == ""
  {
  }

  // ---------------------------------------------------------------------------
  // The code, with its appends

  method AppendSections(md: string, ss: seq<TaskSection>) returns (out: string)
    ensures out == md + SectionsText(ss)
  {
    out := md;
    for n := 0 to |ss|
      invariant out == md + SectionsText(ss[..n])
    {
      assert ss[..n + 1][..n] == ss[..n];
      assert SectionsText(ss[..n + 1]) == SectionsText(ss[..n]) + SectionText(ss[n]);
      AppendAssoc(md, SectionsText(ss[..n]), SectionText(ss[n]));
      out := AppendSection(out, ss[n]);
    }
    assert ss[..|ss|] == ss;
  }

  /** The appends for one section. */
  method AppendSection(md: string, s: TaskSection) returns (out: string)
    ensures out == md + SectionText(s)
  {
    var sectionId := LastPiece(s.reference, '#');
    var sectionTitle := Join(Capitalized(Split(sectionId, '-')), " ");
    assert Heading(sectionTitle) == Heading(SectionTitle(s.reference));
    out := md;
    if s.kind == "task" {
      out := out + ("### " + sectionTitle + "\n\n");
      out := out + "*Task*\n\n";
      AppendAssoc(md, Heading(sectionTitle), TaskMarker);
    } else if s.kind == "assessment" {
      out := out + ("### " + sectionTitle + "\n\n");
      out := out + "*Assessment*\n\n";
      AppendAssoc(md, Heading(sectionTitle), AssessmentMarker);
    } else if s.kind == "heading" {
      out := out + ("### " + sectionTitle + "\n\n");
    } else {
      assert md + "" == md;
    }
  }

  method AppendProjects(md: string, ps: seq<Project>) returns (out: string)
    ensures out == md + ProjectsText(ps)
  {
    out := md;
    for n := 0 to |ps|
      invariant out == md + ProjectsText(ps[..n])
    {
      assert ps[..n + 1][..n] == ps[..n];
      AppendAssoc(md, ProjectsText(ps[..n]), ProjectText(ps[n]));
      if ps[n].sections.Some? {
        out := AppendSections(out, ps[n].sections.value);
      }
    }
    assert ps[..|ps|] == ps;
  }

  method AppendModules(md: string, ms: seq<TutorialModule>) returns (out: string)
    ensures out == md + ModulesText(ms)
  {
    out := md;
    for n := 0 to |ms|
      invariant out == md + ModulesText(ms[..n])
    {
      assert ms[..n + 1][..n] == ms[..n];
      AppendAssoc(md, ModulesText(ms[..n]), ModuleText(ms[n]));
      if ms[n].projects.Some? {
        out := AppendProjects(out, ms[n].projects.value);
      }
    }
    assert ms[..|ms| ] == ms;
  }

  method AppendParagraphs(md: string, ps: seq<Paragraph>) returns (out: string)
    ensures out == md + ParagraphsText(ps)
  {
    out := md;
    for n := 0 to |ps|
      invariant out == md + ParagraphsText(ps[..n])
    {
      assert ps[..n + 1][..n] == ps[..n];
      AppendAssoc(md, ParagraphsText(ps[..n]), ParagraphText(ps[n]));
      var para := ps[n];
      if para.paraType == "paragraph" && para.inlineContent.Some? {
        var text := InlineText(para.inlineContent.value);
        out := out + (text + "\n\n");
      }
    }
    assert ps[..|ps|] == ps;
  }

  /** The footer appends of `fetchTrainingTutorialContent`. */
  method AppendFooter(md: string, c: CatalogType, tutorialId: string) returns (out: string)
    ensures out == md + FooterBlock(c, tutorialId)
  {
    var subdir := TutorialSubdir(c);
    var tutorialUrl := TrainingBaseUrl + "/tutorials/" + subdir + "/" + tutorialId;
    out := md + "---\n\n";
    out := out + ("**Interactive Tutorial**: " + tutorialUrl + "\n\n");
    out := out + "*Note: This tutorial includes hands-on exercises and assessments. ";
    out := out + "Visit the interactive version for the complete learning experience.*\n";
    Assoc4(md, Rule, InteractiveLine(c, tutorialId), NoteStart, NoteEnd);
  }

  lemma Assoc4(m: string, a: string, b: string, c: string, d: string)
    ensures m + a + b + c + d == m + (a + b + c + d)
  {
    AppendAssoc(m, a, b);
    AppendAssoc(m, a + b, c);
    AppendAssoc(m, a + b + c, d);
  }

  /** The title line and, when the first section provides them, the
      estimated-time and chapter lines. */
  method OpeningLines(d: TutorialData) returns (markdown: string)
    ensures markdown == TitleBlock(d) + TimeBlock(d) + ChapterBlock(d)
  {
    markdown := "# " + d.title + "\n\n";
    if d.sections.Some? && |d.sections.value| > 0 && d.sections.value[0].estimatedTimeInMinutes.Some?
      && d.sections.value[0].estimatedTimeInMinutes.value != 0
    {
      var m := d.sections.value[0].estimatedTimeInMinutes.value;
      var hours := m / 60;
      var mins := JsRem60(m);
      var timeStr := if hours > 0 then IntToString(hours) + "hr " + IntToString(mins) + "min" else IntToString(mins) + "min";
      markdown := markdown + ("**Estimated Time**: " + timeStr + "\n\n");
    }
    assert markdown == TitleBlock(d) + TimeBlock(d);
    if d.sections.Some? && |d.sections.value| > 0 && d.sections.value[0].chapter.Some?
      && d.sections.value[0].chapter.value != ""
    {
      markdown := markdown + ("**Chapter**: " + d.sections.value[0].chapter.value + "\n\n");
    }
  }

  /** The overview heading and the hero paragraphs. */
  method AppendOverview(md: string, d: TutorialData) returns (out: string)
    ensures out == md + OverviewBlock(d)
  {
    out := md;
    if d.sections.Some? {
      var hero := Hero(d.sections.value);
      if hero.Some? && hero.value.content.Some? {
        out := out + "## Overview\n\n";
        out := AppendParagraphs(out, hero.value.content.value);
        AppendAssoc(md, "## Overview\n\n", ParagraphsText(hero.value.content.value));
        return;
      }
    }
    assert md + "" == md;
  }

  /** `fetchTrainingTutorialContent` on the fetched tutorial JSON. */
  method FetchTrainingTutorialContent(d: TutorialData, c: CatalogType, tutorialId: string) returns (markdown: string)
    ensures markdown == Page(d, c, tutorialId)
  {
    markdown := OpeningLines(d);
    markdown := AppendOverview(markdown, d);
    ghost var front := markdown;
    if d.modules.Some? {
      markdown := AppendModules(markdown, d.modules.value);
    } else {
      assert markdown + "" == markdown;
    }
    assert markdown == front + HierarchyBlock(d);
    markdown := AppendFooter(markdown, c, tutorialId);
  }
}
