/** `searchTrainingTutorials` after the catalog is fetched: the reference
    filter, the placement of each tutorial in a volume and chapter, and the
    exact-title-first ordering. */
module TrainingSearch {
  import opened Wrappers
  import opened Strings
  import opened TrainingTypes
  import opened TrainingCatalog

  /** `${titleText} ${abstractText}`, both lower-cased. */
  function SearchText(r: Reference): string {
    Lower(r.title) + " " + Lower(AbstractText(r.summary))
  }

  /** The keywords of each platform; "all" has none and is not filtered. */
  function PlatformKeywords(p: Platform): seq<string> {
    match p
    case IPhone => ["iphone", "ios"]
    case IPad => ["ipad", "ipados"]
    case Mac => ["mac", "macos"]
    case AllPlatforms => []
  }

  /** The platform filter: no platform, or "all", lets everything through;
      otherwise the text must contain one of the platform's keywords. */
  predicate MatchesPlatform(text: string, platform: Option<Platform>) {
    platform.None? || platform.value == AllPlatforms
      || exists i :: 0 <= i < |PlatformKeywords(platform.value)| && Contains(text, PlatformKeywords(platform.value)[i])
  }

  /** The references the loop keeps: topic tutorials whose search text holds
      the lower-cased query and passes the platform filter. */
  predicate Selected(r: Reference, queryLower: string, platform: Option<Platform>) {
    IsTopicTutorial(r) && Contains(SearchText(r), queryLower) && MatchesPlatform(SearchText(r), platform)
  }

  lemma PlatformFilter(text: string, p: Platform)
    ensures p == IPhone ==> (MatchesPlatform(text, Some(p)) <==> Contains(text, "iphone") || Contains(text, "ios"))
    ensures p == IPad ==> (MatchesPlatform(text, Some(p)) <==> Contains(text, "ipad") || Contains(text, "ipados"))
    ensures p == Mac ==> (MatchesPlatform(text, Some(p)) <==> Contains(text, "mac") || Contains(text, "macos"))
    ensures MatchesPlatform(text, Some(AllPlatforms)) && MatchesPlatform(text, None)
  {
    var ks := PlatformKeywords(p);
    if p != AllPlatforms && (Contains(text, ks[0]) || Contains(text, ks[1])) {
      assert Contains(text, ks[0]) ==> 0 < |ks| && Contains(text, ks[0]);
      assert Contains(text, ks[1]) ==> 1 < |ks| && Contains(text, ks[1]);
    }
  }

  // ---------------------------------------------------------------------------
  // Placement: the nested loop over volumes and chapters

  datatype Placement = Placement(volume: Option<string>, chapter: Option<string>)

  /** The first chapter of `chs` that lists the identifier. */
  function ChapterWith(chs: seq<Chapter>, identifier: string): (r: Option<nat>)
    ensures r.Some? ==> r.value < |chs| && identifier in chs[r.value].tutorials
    ensures r.Some? ==> forall j :: 0 <= j < r.value ==> identifier !in chs[j].tutorials
    ensures r.None? ==> forall j :: 0 <= j < |chs| ==> identifier !in chs[j].tutorials
  {
    if chs == [] then None
    else if identifier in chs[0].tutorials then Some(0)
    else
      match ChapterWith(chs[1..], identifier)
      case None => None
      case Some(k) => Some(k + 1)
  }

  /** The section names the tutorial's place when it is a volume with chapters
      and one of them lists it. */
  predicate Holds(s: Section, identifier: string) {
    s.kind == "volume" && s.chapters.Some? && ChapterWith(s.chapters.value, identifier).Some?
  }

  /** Where the search puts a tutorial. The inner `break` leaves only the
      chapter loop, so a later volume overrides an earlier one: the place is
      the first chapter, in the last volume, that lists the identifier. */
  function PlacementIn(sections: seq<Section>, identifier: string): Placement
    decreases |sections|
  {
    if sections == [] then Placement(None, None)
    else
      var s := sections[|sections| - 1];
      if Holds(s, identifier) then
        Placement(s.name, Some(s.chapters.value[ChapterWith(s.chapters.value, identifier).value].name))
      else PlacementIn(sections[..|sections| - 1], identifier)
  }

  /** The loops that set `volumeName` and `chapterName`. */
  method FindPlacement(sections: seq<Section>, identifier: string) returns (volume: Option<string>, chapter: Option<string>)
    ensures Placement(volume, chapter) == PlacementIn(sections, identifier)
  {
    volume, chapter := None, None;
    for n := 0 to |sections|
      invariant Placement(volume, chapter) == PlacementIn(sections[..n], identifier)
    {
      var s := sections[n];
      assert sections[..n + 1][..n] == sections[..n];
      if s.kind == "volume" && s.chapters.Some? {
        var chs := s.chapters.value;
        var k := 0;
        while k < |chs|
          invariant k <= |chs|
          invariant forall j :: 0 <= j < k ==> identifier !in chs[j].tutorials
        {
          if identifier in chs[k].tutorials {
            volume, chapter := s.name, Some(chs[k].name);
            assert ChapterWith(chs, identifier) == Some(k);
            break;
          }
          k := k + 1;
        }
      }
    }
    assert sections[..|sections|] == sections;
  }

  /** The tutorial is placed exactly when a volume lists it, and then in the
      first listing chapter of the last listing volume. */
  lemma {:induction false} PlacementSpec(sections: seq<Section>, identifier: string)
    ensures PlacementIn(sections, identifier).chapter.None? <==>
      forall i :: 0 <= i < |sections| ==> !Holds(sections[i], identifier)
    ensures PlacementIn(sections, identifier).chapter.Some? ==>
      exists i :: 0 <= i < |sections| && PlacedBy(sections, i, identifier)
    decreases |sections|
  {
    if sections != [] {
      var front := sections[..|sections| - 1];
      var last := |sections| - 1;
      if Holds(sections[last], identifier) {
        assert PlacedBy(sections, last, identifier);
      } else {
        PlacementSpec(front, identifier);
        assert forall i :: 0 <= i < |front| ==> front[i] == sections[i];
        if PlacementIn(front, identifier).chapter.Some? {
          var i :| 0 <= i < |front| && PlacedBy(front, i, identifier);
          assert PlacedBy(sections, i, identifier);
        }
      }
    }
  }

  /** Section `i` is the last one listing the tutorial, and the placement
      names it and its first listing chapter. */
  predicate PlacedBy(sections: seq<Section>, i: nat, identifier: string)
    requires i < |sections|
  {
    && Holds(sections[i], identifier)
    && (forall j :: i < j < |sections| ==> !Holds(sections[j], identifier))
    && PlacementIn(sections, identifier) == Placement(sections[i].name,
         Some(sections[i].chapters.value[ChapterWith(sections[i].chapters.value, identifier).value].name))
  }

  // ---------------------------------------------------------------------------
  // The results

  /** The result the loop pushes for a selected tutorial. */
  function ResultOf(r: Reference, sections: seq<Section>): SearchResult
    requires IsTopicTutorial(r)
  {
    var p := PlacementIn(sections, r.identifier);
    SearchResult(TutorialId(r.url), r.title, AbstractText(r.summary), r.estimatedTime,
      TrainingBaseUrl + r.url, r.kind.value, p.volume, p.chapter)
  }

  /** A result links to the tutorial on the training site, and its id is the
      last segment of the tutorial's link. */
  lemma ResultShape(r: Reference, sections: seq<Section>)
    requires IsTopicTutorial(r)
    ensures ResultOf(r, sections).url == TrainingBaseUrl + r.url
    ensures StartsWith(ResultOf(r, sections).url, TrainingBaseUrl)
    ensures '/' !in ResultOf(r, sections).tutorialId && EndsWith(r.url, ResultOf(r, sections).tutorialId)
    ensures ResultOf(r, sections).title == r.title && ResultOf(r, sections).kind == r.kind.value
  {
    StartsWithPrefix(TrainingBaseUrl, r.url);
  }

  /** The results of the reference loop, in entry order, before sorting. */
  function Collected(refs: seq<(string, Reference)>, sections: seq<Section>, queryLower: string, platform: Option<Platform>): seq<SearchResult>
    decreases |refs|
  {
    if refs == [] then []
    else
      var front := Collected(refs[..|refs| - 1], sections, queryLower, platform);
      var r := refs[|refs| - 1].1;
      if Selected(r, queryLower, platform) then front + [ResultOf(r, sections)] else front
  }

  /** Every result comes from a selected reference. */
  lemma {:induction false} CollectedSound(refs: seq<(string, Reference)>, sections: seq<Section>, q: string, platform: Option<Platform>)
    ensures forall x :: x in Collected(refs, sections, q, platform) ==>
      exists i :: 0 <= i < |refs| && Selected(refs[i].1, q, platform) && x == ResultOf(refs[i].1, sections)
    decreases |refs|
  {
    if refs != [] {
      var front := refs[..|refs| - 1];
      CollectedSound(front, sections, q, platform);
      forall x | x in Collected(refs, sections, q, platform)
        ensures exists i :: 0 <= i < |refs| && Selected(refs[i].1, q, platform) && x == ResultOf(refs[i].1, sections)
      {
        if x in Collected(front, sections, q, platform) {
          var i :| 0 <= i < |front| && Selected(front[i].1, q, platform) && x == ResultOf(front[i].1, sections);
          assert refs[i] == front[i];
        } else {
          assert x == ResultOf(refs[|refs| - 1].1, sections);
        }
      }
    }
  }

  /** Every selected reference gives a result: the loop drops nothing else. */
  lemma {:induction false} CollectedComplete(refs: seq<(string, Reference)>, sections: seq<Section>, q: string, platform: Option<Platform>, i: nat)
    requires i < |refs| && Selected(refs[i].1, q, platform)
    ensures ResultOf(refs[i].1, sections) in Collected(refs, sections, q, platform)
    decreases |refs|
  {
    if i < |refs| - 1 {
      var front := refs[..|refs| - 1];
      assert front[i] == refs[i];
      CollectedComplete(front, sections, q, platform, i);
    }
  }

  /** Consecutive runs of references give consecutive runs of results. */
  lemma {:induction false} CollectedAppend(a: seq<(string, Reference)>, b: seq<(string, Reference)>, sections: seq<Section>, q: string, platform: Option<Platform>)
    ensures Collected(a + b, sections, q, platform) == Collected(a, sections, q, platform) + Collected(b, sections, q, platform)
    decreases |b|
  {
    if b == [] {
      assert a + b == a;
    } else {
      var b' := b[..|b| - 1];
      assert (a + b)[..|a + b| - 1] == a + b';
      assert (a + b)[|a + b| - 1] == b[|b| - 1];
      CollectedAppend(a, b', sections, q, platform);
    }
  }

  // ---------------------------------------------------------------------------
  // The sort

  /** `a.title.toLowerCase() === queryLower`. */
  predicate IsExact(x: SearchResult, queryLower: string) {
    Lower(x.title) == queryLower
  }

  /** The results whose exactness is `exact`, in their order. */
  function WithExactness(rs: seq<SearchResult>, q: string, exact: bool): (r: seq<SearchResult>)
    ensures forall i :: 0 <= i < |r| ==> IsExact(r[i], q) == exact
  {
    if rs == [] then []
    else
      var rest := WithExactness(rs[1..], q, exact);
      if IsExact(rs[0], q) == exact then [rs[0]] + rest else rest
  }

  /** `results.sort(...)` with the exact-match-first comparator. The comparator
      returns 0 for two results of equal exactness and the sort is stable, so
      the outcome is the exact matches in their order, then the others in
      theirs. */
  function ExactFirst(rs: seq<SearchResult>, q: string): seq<SearchResult> {
    WithExactness(rs, q, true) + WithExactness(rs, q, false)
  }

  lemma {:induction false} WithExactnessSplit(rs: seq<SearchResult>, q: string)
    ensures multiset(WithExactness(rs, q, true)) + multiset(WithExactness(rs, q, false)) == multiset(rs)
  {
    if rs != [] {
      WithExactnessSplit(rs[1..], q);
      assert rs == [rs[0]] + rs[1..];
    }
  }

  lemma {:induction false} WithExactnessAppend(a: seq<SearchResult>, b: seq<SearchResult>, q: string, exact: bool)
    ensures WithExactness(a + b, q, exact) == WithExactness(a, q, exact) + WithExactness(b, q, exact)
  {
    if a == [] {
      assert a + b == b;
    } else {
      assert (a + b)[1..] == a[1..] + b;
      WithExactnessAppend(a[1..], b, q, exact);
    }
  }

  lemma {:induction false} WithExactnessAll(rs: seq<SearchResult>, q: string, exact: bool)
    requires forall i :: 0 <= i < |rs| ==> IsExact(rs[i], q) == exact
    ensures WithExactness(rs, q, exact) == rs
    ensures WithExactness(rs, q, !exact) == []
  {
    if rs != [] {
      WithExactnessAll(rs[1..], q, exact);
    }
  }

  /** The sort gives a permutation whose exact matches all come first, and
      that keeps the relative order of the exact matches and of the others. */
  lemma ExactFirstSpec(rs: seq<SearchResult>, q: string)
    ensures multiset(ExactFirst(rs, q)) == multiset(rs)
    ensures forall i, j :: 0 <= i < j < |ExactFirst(rs, q)| && IsExact(ExactFirst(rs, q)[j], q) ==> IsExact(ExactFirst(rs, q)[i], q)
    ensures WithExactness(ExactFirst(rs, q), q, true) == WithExactness(rs, q, true)
    ensures WithExactness(ExactFirst(rs, q), q, false) == WithExactness(rs, q, false)
  {
    var e, o := WithExactness(rs, q, true), WithExactness(rs, q, false);
    WithExactnessSplit(rs, q);
    WithExactnessAppend(e, o, q, true);
    WithExactnessAppend(e, o, q, false);
    WithExactnessAll(e, q, true);
    WithExactnessAll(o, q, false);
    var r := ExactFirst(rs, q);
    forall i, j | 0 <= i < j < |r| && IsExact(r[j], q) ensures IsExact(r[i], q) {
      assert j < |e|;
    }
  }

  /** The search keeps the order of the catalog when no title is an exact match. */
  lemma ExactFirstNoExact(rs: seq<SearchResult>, q: string)
    requires forall i :: 0 <= i < |rs| ==> !IsExact(rs[i], q)
    ensures ExactFirst(rs, q) == rs
  {
    WithExactnessAll(rs, q, false);
  }

  /** What `searchTrainingTutorials` returns for a fetched catalog. */
  function SearchResults(catalog: Catalog, query: string, platform: Option<Platform>): seq<SearchResult> {
    ExactFirst(Collected(catalog.references, catalog.sections, Lower(query), platform), Lower(query))
  }

  /** The results are exactly the results of the selected references, exact
      title matches first. */
  lemma SearchResultsMembers(catalog: Catalog, query: string, platform: Option<Platform>)
    ensures var refs, q := catalog.references, Lower(query);
      forall x :: x in SearchResults(catalog, query, platform) <==>
        exists i :: 0 <= i < |refs| && Selected(refs[i].1, q, platform) && x == ResultOf(refs[i].1, catalog.sections)
    ensures var r := SearchResults(catalog, query, platform);
      forall i, j :: 0 <= i < j < |r| && IsExact(r[j], Lower(query)) ==> IsExact(r[i], Lower(query))
  {
    var refs, q := catalog.references, Lower(query);
    var c := Collected(refs, catalog.sections, q, platform);
    ExactFirstSpec(c, q);
    CollectedSound(refs, catalog.sections, q, platform);
    forall x ensures x in SearchResults(catalog, query, platform) <==> x in c {
      assert x in multiset(c) <==> x in multiset(ExactFirst(c, q));
    }
    forall i | 0 <= i < |refs| && Selected(refs[i].1, q, platform) ensures ResultOf(refs[i].1, catalog.sections) in c {
      CollectedComplete(refs, catalog.sections, q, platform, i);
    }
  }

  /** The body of the reference loop: the result for one reference, or
      nothing when the loop `continue`s. */
  method ResultFor(r: Reference, sections: seq<Section>, queryLower: string, platform: Option<Platform>)
    returns (res: Option<SearchResult>)
    ensures res == if Selected(r, queryLower, platform) then Some(ResultOf(r, sections)) else None
  {
    if !IsTopicTutorial(r) {
      return None;
    }
    var searchText := Lower(r.title) + " " + Lower(AbstractText(r.summary));
    if !Contains(searchText, queryLower) {
      return None;
    }
    if platform.Some? && platform.value != AllPlatforms {
      var keywords := PlatformKeywords(platform.value);
      var matchesPlatform := exists i :: 0 <= i < |keywords| && Contains(searchText, keywords[i]);
      if !matchesPlatform {
        return None;
      }
    }
    var volume, chapter := FindPlacement(sections, r.identifier);
    return Some(SearchResult(TutorialId(r.url), r.title, AbstractText(r.summary), r.estimatedTime,
      TrainingBaseUrl + r.url, r.kind.value, volume, chapter));
  }

  /** `searchTrainingTutorials` on a fetched catalog. */
  method SearchTrainingTutorials(catalog: Catalog, query: string, platform: Option<Platform>) returns (results: seq<SearchResult>)
    ensures results == SearchResults(catalog, query, platform)
  {
    var queryLower := Lower(query);
    var refs := catalog.references;
    results := [];
    for n := 0 to |refs|
      invariant results == Collected(refs[..n], catalog.sections, queryLower, platform)
    {
      assert refs[..n + 1][..n] == refs[..n];
      var res := ResultFor(refs[n].1, catalog.sections, queryLower, platform);
      if res.Some? {
        results := results + [res.value];
      }
    }
    assert refs[..|refs|] == refs;
    results := ExactFirst(results, queryLower);
  }
}
