/** The catalog-level parts of the training client: the catalog and tutorial
    locations, what counts as a tutorial reference, the tutorial id of a
    link, the lookup of one tutorial (`fetchTrainingTutorial`) and the
    volume/chapter outline (`getTrainingStructure`). The catalog itself is an
    input: fetching and decoding it is not modelled. */
module TrainingCatalog {
  import opened Wrappers
  import opened Strings
  import opened TrainingTypes

  const TrainingBaseUrl: string := "https://it-training.apple.com"
  const CatalogDir: string := "/data/tutorials/"

  function CatalogName(c: CatalogType): string {
    match c
    case AptSupport => "apt-support"
    case AptDeployment => "apt-deployment"
  }

  /** `getCatalogUrl`. */
  function CatalogUrl(c: CatalogType): (r: string)
  {
    TrainingBaseUrl + CatalogDir + CatalogName(c) + ".json"
  }

  /** Each catalog has its own JSON file under the tutorials data directory. */
  lemma CatalogUrlShape(c: CatalogType, d: CatalogType)
    ensures StartsWith(CatalogUrl(c), TrainingBaseUrl + CatalogDir)
    ensures EndsWith(CatalogUrl(c), ".json")
    ensures CatalogUrl(c) == CatalogUrl(d) <==> c == d
  {
    var p := TrainingBaseUrl + CatalogDir;
    StartsWithPrefix(p, CatalogName(c) + ".json");
    assert CatalogUrl(c) == p + (CatalogName(c) + ".json");
    EndsWithSuffix(p + CatalogName(c), ".json");
    if c != d {
      var k := |p| + 4;
      assert CatalogUrl(c)[k] != CatalogUrl(d)[k];
    }
  }

  /** `getTutorialSubdir`. */
  function TutorialSubdir(c: CatalogType): (r: string)
  {
    if c == AptSupport then "support" else "deployment"
  }

  lemma TutorialSubdirDistinct(c: CatalogType, d: CatalogType)
    ensures TutorialSubdir(c) == TutorialSubdir(d) <==> c == d
    ensures TutorialSubdir(c) != [] && '/' !in TutorialSubdir(c)
  {
  }

  /** `"kind" in ref && ref.type === "topic"`. */
  predicate IsTopicTutorial(r: Reference) {
    r.kind.Some? && r.refType == "topic"
  }

  /** `url.split("/").pop() || ""`: the text after the last '/'. */
  function TutorialId(url: string): (r: string)
    ensures '/' !in r && EndsWith(url, r)
    ensures |r| < |url| ==> url[|url| - |r| - 1] == '/'
  {
    LastPiece(url, '/')
  }

  /** `abstract.map((item) => item.text).join(" ")`. */
  function AbstractText(items: seq<AbstractItem>): string {
    Join(Texts(items), " ")
  }

  function Texts(items: seq<AbstractItem>): (r: seq<string>)
    ensures |r| == |items| && forall i :: 0 <= i < |items| ==> r[i] == items[i].text
  {
    seq(|items|, i requires 0 <= i < |items| => items[i].text)
  }

  // ---------------------------------------------------------------------------
  // `fetchTrainingTutorial`

  /** The test of `fetchTrainingTutorial`: its last segment is the id, or its
      identifier contains the id. */
  predicate IsTutorialFor(r: Reference, id: string) {
    IsTopicTutorial(r) && (TutorialId(r.url) == id || Contains(r.identifier, id))
  }

  /** The first reference, in entry order, that passes the test. */
  function TutorialFor(refs: seq<(string, Reference)>, id: string): (r: Option<Reference>)
  {
    if refs == [] then None
    else if IsTutorialFor(refs[0].1, id) then Some(refs[0].1)
    else TutorialFor(refs[1..], id)
  }

  /** The loop of `fetchTrainingTutorial` over the catalog's references. */
  method FetchTrainingTutorial(catalog: Catalog, tutorialId: string) returns (found: Option<Reference>)
    ensures found == TutorialFor(catalog.references, tutorialId)
  {
    var refs := catalog.references;
    var n := 0;
    while n < |refs|
      invariant n <= |refs|
      invariant TutorialFor(refs, tutorialId) == TutorialFor(refs[n..], tutorialId)
    {
      var r := refs[n].1;
      if IsTopicTutorial(r) {
        var refId := TutorialId(r.url);
        if refId == tutorialId || Contains(r.identifier, tutorialId) {
          return Some(r);
        }
      }
      assert refs[n..][1..] == refs[n + 1..];
      n := n + 1;
    }
    return None;
  }

  /** The lookup returns the first matching topic tutorial, and nothing only
      when no reference matches. */
  lemma {:induction false} TutorialForSpec(refs: seq<(string, Reference)>, id: string)
    ensures TutorialFor(refs, id).None? <==> forall i :: 0 <= i < |refs| ==> !IsTutorialFor(refs[i].1, id)
    ensures TutorialFor(refs, id).Some? ==>
      exists i :: 0 <= i < |refs| && refs[i].1 == TutorialFor(refs, id).value && IsTutorialFor(refs[i].1, id)
        && forall j :: 0 <= j < i ==> !IsTutorialFor(refs[j].1, id)
  {
    if refs != [] && !IsTutorialFor(refs[0].1, id) {
      TutorialForSpec(refs[1..], id);
      assert forall i :: 1 <= i < |refs| ==> refs[i] == refs[1..][i - 1];
      if TutorialFor(refs, id).Some? {
        var i :| 0 <= i < |refs[1..]| && refs[1..][i].1 == TutorialFor(refs, id).value && IsTutorialFor(refs[1..][i].1, id)
          && forall j :: 0 <= j < i ==> !IsTutorialFor(refs[1..][j].1, id);
        assert refs[i + 1] == refs[1..][i];
      }
    }
  }

  /** Every identifier contains the empty string, so the empty id finds the
      first topic tutorial. */
  lemma TutorialForEmptyId(refs: seq<(string, Reference)>, i: nat)
    requires i < |refs| && IsTopicTutorial(refs[i].1)
    requires forall j :: 0 <= j < i ==> !IsTopicTutorial(refs[j].1)
    ensures TutorialFor(refs, "") == Some(refs[i].1)
  {
    TutorialForSpec(refs, "");
    assert MatchesAt(refs[i].1.identifier, "", 0);
    ContainsAt(refs[i].1.identifier, "", 0);
  }

  // ---------------------------------------------------------------------------
  // `getTrainingStructure`

  datatype TutorialOutline = TutorialOutline(id: string, title: string, estimatedTime: Option<string>)
  datatype ChapterOutline = ChapterOutline(name: string, tutorials: seq<TutorialOutline>)
  datatype VolumeOutline = VolumeOutline(name: string, chapters: seq<ChapterOutline>)
  datatype Outline = Outline(title: string, estimatedTime: Option<string>, volumes: seq<VolumeOutline>)

  const UnnamedVolume: string := "Unnamed Volume"

  /** `references[key]`: the entry with that key. */
  function Lookup(refs: seq<(string, Reference)>, key: string): (r: Option<Reference>)
    ensures r.Some? ==> exists i :: 0 <= i < |refs| && refs[i] == (key, r.value)
    ensures r.None? ==> forall i :: 0 <= i < |refs| ==> refs[i].0 != key
  {
    if refs == [] then None
    else if refs[0].0 == key then Some(refs[0].1)
    else
      var r := Lookup(refs[1..], key);
      assert forall i :: 1 <= i < |refs| ==> refs[i] == refs[1..][i - 1];
      assert r.Some? ==> exists i :: 1 <= i < |refs| && refs[i] == (key, r.value);
      r
  }

  /** A chapter's tutorial id as an outline entry, or nothing when the id is
      missing from the references or names one without `kind`. */
  function OutlineOf(refs: seq<(string, Reference)>, key: string): Option<TutorialOutline> {
    match Lookup(refs, key)
    case None => None
    case Some(r) => if r.kind.None? then None else Some(TutorialOutline(TutorialId(r.url), r.title, r.estimatedTime))
  }

  /** `chapter.tutorials.map(...)`: one entry or null per listed id. */
  function Outlines(refs: seq<(string, Reference)>, keys: seq<string>): (r: seq<Option<TutorialOutline>>)
    ensures |r| == |keys| && forall i :: 0 <= i < |keys| ==> r[i] == OutlineOf(refs, keys[i])
  {
    seq(|keys|, i requires 0 <= i < |keys| => OutlineOf(refs, keys[i]))
  }

  /** `.filter((t) => t !== null)`: the present entries, in order. */
  function Present<T>(xs: seq<Option<T>>): (r: seq<T>)
    ensures |r| <= |xs|
  {
    if xs == [] then []
    else if xs[0].Some? then [xs[0].value] + Present(xs[1..])
    else Present(xs[1..])
  }

  /** Every kept entry is a present one of the input ... */
  lemma {:induction false} PresentSound<T>(xs: seq<Option<T>>)
    ensures forall i :: 0 <= i < |Present(xs)| ==> exists k :: 0 <= k < |xs| && xs[k] == Some(Present(xs)[i])
  {
    if xs != [] {
      PresentSound(xs[1..]);
      var r, rest := Present(xs), Present(xs[1..]);
      var off := if xs[0].Some? then 1 else 0;
      forall i | 0 <= i < |r| ensures exists k :: 0 <= k < |xs| && xs[k] == Some(r[i]) {
        if i < off {
          assert xs[0] == Some(r[i]);
        } else {
          assert r[i] == rest[i - off];
          var k :| 0 <= k < |xs[1..]| && xs[1..][k] == Some(rest[i - off]);
          assert xs[k + 1] == Some(r[i]);
        }
      }
      assert r == Present(xs);
    } else {
      assert Present(xs) == [];
    }
  }

  /** ... and nothing is dropped when every entry is present. */
  lemma {:induction false} PresentAll<T>(xs: seq<Option<T>>)
    requires forall i :: 0 <= i < |xs| ==> xs[i].Some?
    ensures |Present(xs)| == |xs|
    ensures forall i :: 0 <= i < |xs| ==> Present(xs)[i] == xs[i].value
  {
    if xs != [] {
      assert forall i :: 1 <= i < |xs| ==> xs[i] == xs[1..][i - 1];
      PresentAll(xs[1..]);
    }
  }

  /** The filter keeps order: filtering a concatenation filters each part ... */
  lemma {:induction false} PresentAppend<T>(a: seq<Option<T>>, b: seq<Option<T>>)
    ensures Present(a + b) == Present(a) + Present(b)
    decreases |a|
  {
    if a == [] {
      assert a + b == b;
    } else {
      assert (a + b)[1..] == a[1..] + b;
      PresentAppend(a[1..], b);
    }
  }

  /** ... a present entry is kept and an absent one dropped. */
  lemma PresentSingle<T>(x: Option<T>)
    ensures x.Some? ==> Present([x]) == [x.value]
    ensures x.None? ==> Present([x]) == []
  {
    assert [x][1..] == [];
  }

  /** `chapter.tutorials.map(...).filter((t) => t !== null)`. */
  function ChapterTutorials(refs: seq<(string, Reference)>, keys: seq<string>): (r: seq<TutorialOutline>)
    ensures |r| <= |keys|
  {
    Present(Outlines(refs, keys))
  }

  /** A chapter's tutorials keep the order of its ids: the ids of a
      concatenation give the tutorials of each part ... */
  lemma ChapterTutorialsAppend(refs: seq<(string, Reference)>, a: seq<string>, b: seq<string>)
    ensures ChapterTutorials(refs, a + b) == ChapterTutorials(refs, a) + ChapterTutorials(refs, b)
  {
    var l, r := Outlines(refs, a + b), Outlines(refs, a) + Outlines(refs, b);
    forall i | 0 <= i < |l| ensures l[i] == r[i] {
      if i < |a| { assert (a + b)[i] == a[i]; } else { assert (a + b)[i] == b[i - |a|]; }
    }
    assert l == r;
    PresentAppend(Outlines(refs, a), Outlines(refs, b));
  }

  /** ... and one id gives its outline when it names a reference with `kind`,
      and nothing otherwise. */
  lemma ChapterTutorialsSingle(refs: seq<(string, Reference)>, key: string)
    ensures OutlineOf(refs, key).Some? ==> ChapterTutorials(refs, [key]) == [OutlineOf(refs, key).value]
    ensures OutlineOf(refs, key).None? ==> ChapterTutorials(refs, [key]) == []
  {
    assert Outlines(refs, [key]) == [OutlineOf(refs, key)];
    PresentSingle(OutlineOf(refs, key));
  }

  function ChapterOutlineOf(refs: seq<(string, Reference)>, ch: Chapter): ChapterOutline {
    ChapterOutline(ch.name, ChapterTutorials(refs, ch.tutorials))
  }

  /** `section.name || "Unnamed Volume"`. */
  function VolumeName(s: Section): (r: string)
  {
    if s.name.Some? && s.name.value != "" then s.name.value else UnnamedVolume
  }

  function VolumeOutlineOf(refs: seq<(string, Reference)>, s: Section): VolumeOutline {
    var chs := if s.chapters.Some? then s.chapters.value else [];
    VolumeOutline(VolumeName(s), seq(|chs|, i requires 0 <= i < |chs| => ChapterOutlineOf(refs, chs[i])))
  }

  /** `sections.filter((s) => s.kind === "volume").map(...)`. */
  function Volumes(refs: seq<(string, Reference)>, sections: seq<Section>): (r: seq<VolumeOutline>)
    ensures |r| <= |sections|
  {
    if sections == [] then []
    else
      var rest := Volumes(refs, sections[1..]);
      if sections[0].kind == "volume" then [VolumeOutlineOf(refs, sections[0])] + rest else rest
  }

  /** `getTrainingStructure` on a fetched catalog. */
  function TrainingStructure(catalog: Catalog): Outline {
    Outline(catalog.title, catalog.estimatedTime, Volumes(catalog.references, catalog.sections))
  }

  /** Sections keep their order; a section that is not a volume contributes
      nothing, and a volume contributes one outline. */
  lemma {:induction false} VolumesAppend(refs: seq<(string, Reference)>, a: seq<Section>, b: seq<Section>)
    ensures Volumes(refs, a + b) == Volumes(refs, a) + Volumes(refs, b)
  {
    if a == [] {
      assert a + b == b;
    } else {
      assert (a + b)[1..] == a[1..] + b;
      VolumesAppend(refs, a[1..], b);
    }
  }

  lemma VolumesSingle(refs: seq<(string, Reference)>, s: Section)
    ensures s.kind != "volume" ==> Volumes(refs, [s]) == []
    ensures s.kind == "volume" ==> Volumes(refs, [s]) == [VolumeOutlineOf(refs, s)]
  {
    assert [s][1..] == [];
  }

  /** Every volume has a non-empty name, the section's own when it has one,
      and one chapter outline per chapter, with the chapter's name. */
  lemma VolumeOutlineShape(refs: seq<(string, Reference)>, s: Section)
    ensures VolumeOutlineOf(refs, s).name != []
    ensures s.name.Some? && s.name.value != "" ==> VolumeOutlineOf(refs, s).name == s.name.value
    ensures !(s.name.Some? && s.name.value != "") ==> VolumeOutlineOf(refs, s).name == UnnamedVolume
    ensures s.chapters.None? ==> VolumeOutlineOf(refs, s).chapters == []
    ensures s.chapters.Some? ==> |VolumeOutlineOf(refs, s).chapters| == |s.chapters.value|
    ensures s.chapters.Some? ==> forall i :: 0 <= i < |s.chapters.value| ==>
      VolumeOutlineOf(refs, s).chapters[i] == ChapterOutline(s.chapters.value[i].name, ChapterTutorials(refs, s.chapters.value[i].tutorials))
  {
    if s.chapters.Some? {
      var chs := s.chapters.value;
      var outs := VolumeOutlineOf(refs, s).chapters;
      assert outs == seq(|chs|, i requires 0 <= i < |chs| => ChapterOutlineOf(refs, chs[i]));
      forall i | 0 <= i < |chs| ensures outs[i] == ChapterOutlineOf(refs, chs[i]) {
      }
    }
  }

  /** Some listed id names a reference whose outline is `t`. */
  predicate FromSomeKey(refs: seq<(string, Reference)>, keys: seq<string>, t: TutorialOutline) {
    exists k :: 0 <= k < |keys| && OutlineOf(refs, keys[k]) == Some(t)
  }

  /** Every tutorial of a chapter outline comes from a listed id naming a
      reference with `kind`. */
  lemma ChapterTutorialsSound(refs: seq<(string, Reference)>, keys: seq<string>)
    ensures forall i :: 0 <= i < |ChapterTutorials(refs, keys)| ==> FromSomeKey(refs, keys, ChapterTutorials(refs, keys)[i])
  {
    var os := Outlines(refs, keys);
    PresentSound(os);
    forall i | 0 <= i < |Present(os)| ensures FromSomeKey(refs, keys, Present(os)[i]) {
      var k :| 0 <= k < |os| && os[k] == Some(Present(os)[i]);
      assert OutlineOf(refs, keys[k]) == Some(Present(os)[i]);
    }
  }

  /** Ids are dropped only when missing or without `kind`: when every id names
      a reference with `kind`, none is dropped. */
  lemma ChapterTutorialsKeepsAll(refs: seq<(string, Reference)>, keys: seq<string>)
    requires forall i :: 0 <= i < |keys| ==> OutlineOf(refs, keys[i]).Some?
    ensures |ChapterTutorials(refs, keys)| == |keys|
    ensures forall i :: 0 <= i < |keys| ==> ChapterTutorials(refs, keys)[i] == OutlineOf(refs, keys[i]).value
  {
    PresentAll(Outlines(refs, keys));
  }

  /** An id missing from the references, or naming a reference without
      `kind`, is dropped. */
  lemma OutlineOfMissing(refs: seq<(string, Reference)>, key: string)
    requires (forall i :: 0 <= i < |refs| ==> refs[i].0 != key)
      || (exists i :: 0 <= i < |refs| && refs[i].0 == key && refs[i].1.kind.None?
            && forall j :: 0 <= j < i ==> refs[j].0 != key)
    ensures OutlineOf(refs, key).None?
  {
    LookupFirst(refs, key);
  }

  /** `Lookup` finds the first entry with the key. */
  lemma {:induction false} LookupFirst(refs: seq<(string, Reference)>, key: string)
    ensures forall i :: 0 <= i < |refs| && refs[i].0 == key && (forall j :: 0 <= j < i ==> refs[j].0 != key) ==>
      Lookup(refs, key) == Some(refs[i].1)
  {
    if refs != [] && refs[0].0 != key {
      LookupFirst(refs[1..], key);
      forall i | 0 < i < |refs| && refs[i].0 == key && (forall j :: 0 <= j < i ==> refs[j].0 != key)
        ensures Lookup(refs, key) == Some(refs[i].1)
      {
        assert refs[1..][i - 1] == refs[i];
        assert forall j :: 0 <= j < i - 1 ==> refs[1..][j] == refs[j + 1];
      }
    }
  }
}
