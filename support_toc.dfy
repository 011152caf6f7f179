/** The table of contents of a support guide: turning the matched links into
    items (`parseTocHtml`), keyword search over them (`searchToc`) and the
    tiered best-match lookup (`findTopic`). */
module SupportToc {
  import opened Wrappers
  import opened Strings
  import opened Sequences

  datatype TocItem = TocItem(title: string, slug: string, url: string, id: string)

  /** One match of the link pattern: the `href`, the `data-tocid` and the text
      of the `name` span, as the pattern captures them. */
  datatype TocMatch = TocMatch(url: string, id: string, text: string)

  // ---------------------------------------------------------------------------
  // The slug: `/\/guide\/[^/]+\/[^/]+-([a-z0-9]+)\//`

  const GuidePart: string := "/guide/"

  predicate SlugChar(c: char) {
    'a' <= c <= 'z' || '0' <= c <= '9'
  }

  predicate AllSlugChars(s: string) {
    forall i :: 0 <= i < |s| ==> SlugChar(s[i])
  }

  /** Index of the last '-' in `s[lo..hi]`. */
  function LastDash(s: string, lo: nat, hi: nat): (r: Option<nat>)
    requires lo <= hi <= |s|
    ensures r.Some? ==> lo <= r.value < hi && s[r.value] == '-'
    ensures r.Some? ==> forall j :: r.value < j < hi ==> s[j] != '-'
    ensures r.None? ==> forall j :: lo <= j < hi ==> s[j] != '-'
    decreases hi
  {
    if hi == lo then None
    else if s[hi - 1] == '-' then Some(hi - 1)
    else LastDash(s, lo, hi - 1)
  }

  /** `LastDash` finds the last dash. */
  lemma {:induction false} LastDashAt(s: string, lo: nat, hi: nat, d: nat)
    requires lo <= d < hi <= |s| && s[d] == '-'
    requires forall j :: d < j < hi ==> s[j] != '-'
    ensures LastDash(s, lo, hi) == Some(d)
    decreases hi
  {
    if d < hi - 1 {
      LastDashAt(s, lo, hi - 1, d);
    }
  }

  /** The capture group of the slug pattern for a match starting at `i`, if the
      pattern matches there. A match is "/guide/", a non-empty segment, "/",
      then a segment made of a non-empty part, a '-', and the slug of
      lower-case letters and digits, then "/". As the slug holds no '-', its
      '-' is the last one of the segment: that is the only place where the
      greedy `[^/]+` can stop. */
  function SlugAt(url: string, i: nat): (r: Option<string>)
    requires i <= |url|
    ensures r.Some? ==> r.value != [] && AllSlugChars(r.value)
  {
    if !MatchesAt(url, GuidePart, i) then None
    else
      var q1 := NextChar(url, i + 7, '/');
      if q1 == i + 7 || q1 == |url| then None
      else
        var q2 := NextChar(url, q1 + 1, '/');
        if q2 == |url| then None
        else
          match LastDash(url, q1 + 1, q2)
          case None => None
          case Some(d) =>
            if d == q1 + 1 || d + 1 == q2 || !AllSlugChars(url[d + 1..q2]) then None
            else Some(url[d + 1..q2])
  }

  /** `url.match(...)`: the leftmost position where the pattern matches. */
  function SlugFrom(url: string, i: nat): (r: Option<string>)
    requires i <= |url|
    ensures r.Some? ==> r.value != [] && AllSlugChars(r.value)
    decreases |url| - i
  {
    match SlugAt(url, i)
    case Some(slug) => Some(slug)
    case None => if i == |url| then None else SlugFrom(url, i + 1)
  }

  function SlugOf(url: string): (r: Option<string>)
    ensures r.Some? ==> r.value != [] && AllSlugChars(r.value)
  {
    SlugFrom(url, 0)
  }

  /** The leftmost match wins. */
  lemma {:induction false} SlugFromFirst(url: string, i: nat, k: nat)
    requires i <= k <= |url|
    requires forall j :: i <= j < k ==> SlugAt(url, j).None?
    ensures SlugFrom(url, i) == SlugFrom(url, k)
    decreases k - i
  {
    if i < k {
      SlugFromFirst(url, i + 1, k);
    }
  }

  lemma GuideAt(pre: string, rest: string)
    ensures MatchesAt(pre + GuidePart + rest, GuidePart, |pre|)
  {
    assert (pre + GuidePart + rest)[|pre|..|pre| + 7] == GuidePart;
  }

  /** The pieces of a guide link, spelled out as indices. */
  lemma GuideLinkPieces(pre: string, g: string, t: string, slug: string, rest: string)
    ensures var url := pre + GuidePart + g + "/" + t + "-" + slug + "/" + rest;
      var i := |pre| + 7;
      var q1 := i + |g|;
      var d := q1 + 1 + |t|;
      var q2 := d + 1 + |slug|;
      && q2 < |url|
      && url[i..q1] == g && url[q1] == '/'
      && url[q1 + 1..q2] == t + "-" + slug && url[d] == '-'
      && url[d + 1..q2] == slug && url[q2] == '/'
  {
    var url := pre + GuidePart + g + "/" + t + "-" + slug + "/" + rest;
    var i := |pre| + 7;
    assert url == (pre + GuidePart) + g + (['/'] + t + ['-'] + slug + ['/']) + rest;
    assert url[i..i + |g|] == g;
    var tail := ['/'] + t + ['-'] + slug + ['/'];
    assert url[i + |g|..i + |g| + |tail|] == tail;
    assert tail[1..|tail| - 1] == t + "-" + slug;
  }

  /** `NextChar` skips a run without `c`. */
  lemma NextCharOver(s: string, from: nat, k: nat, c: char)
    requires from <= k < |s| && s[k] == c && c !in s[from..k]
    ensures NextChar(s, from, c) == k
  {
    forall j | from <= j < k ensures s[j] != c {
      assert s[j] == s[from..k][j - from];
    }
    NextCharAt(s, from, c, k);
  }

  /** `LastDash` stops at a dash followed by a run without one. */
  lemma LastDashOver(s: string, lo: nat, d: nat, hi: nat)
    requires lo <= d < hi <= |s| && s[d] == '-' && '-' !in s[d + 1..hi]
    ensures LastDash(s, lo, hi) == Some(d)
  {
    forall j | d < j < hi ensures s[j] != '-' {
      assert s[j] == s[d + 1..hi][j - d - 1];
    }
    LastDashAt(s, lo, hi, d);
  }

  lemma SlugCharsNoSlash(slug: string)
    requires AllSlugChars(slug)
    ensures '/' !in slug && '-' !in slug
  {
  }

  /** The scan of `SlugAt`, given the places where it stops. */
  lemma SlugAtStops(url: string, i: nat, q1: nat, d: nat, q2: nat)
    requires MatchesAt(url, GuidePart, i)
    requires i + 7 < q1 < |url| && NextChar(url, i + 7, '/') == q1
    requires q2 < |url| && NextChar(url, q1 + 1, '/') == q2
    requires q1 + 1 < d && d + 1 < q2 && LastDash(url, q1 + 1, q2) == Some(d)
    requires AllSlugChars(url[d + 1..q2])
    ensures SlugAt(url, i) == Some(url[d + 1..q2])
  {
  }

  /** The first segment of a guide link ends at its first '/'. */
  lemma SlugLinkFirst(url: string, pre: string, g: string, t: string, slug: string, rest: string)
    requires url == pre + GuidePart + g + "/" + t + "-" + slug + "/" + rest
    requires '/' !in g
    ensures MatchesAt(url, GuidePart, |pre|)
    ensures NextChar(url, |pre| + 7, '/') == |pre| + 7 + |g|
  {
    var i := |pre| + 7;
    var q1 := i + |g|;
    assert MatchesAt(url, GuidePart, |pre|) by {
      GuideAt(pre, g + "/" + t + "-" + slug + "/" + rest);
      assert url == pre + GuidePart + (g + "/" + t + "-" + slug + "/" + rest);
    }
    assert q1 < |url| && url[i..q1] == g && url[q1] == '/' by {
      GuideLinkPieces(pre, g, t, slug, rest);
    }
    NextCharOver(url, i, q1, '/');
  }

  /** The second segment `{t}-{slug}` ends at the '/' after the slug, and its
      last dash is the one before the slug. */
  lemma SlugSegment(url: string, lo: nat, d: nat, hi: nat, t: string, slug: string)
    requires lo <= hi < |url| && url[lo..hi] == t + "-" + slug && url[hi] == '/'
    requires d == lo + |t|
    requires '/' !in t && AllSlugChars(slug)
    ensures NextChar(url, lo, '/') == hi
    ensures LastDash(url, lo, hi) == Some(d)
    ensures url[d + 1..hi] == slug
  {
    var seg := t + "-" + slug;
    SlugCharsNoSlash(slug);
    assert '/' !in seg;
    NextCharOver(url, lo, hi, '/');
    assert url[d] == seg[|t|];
    assert url[d + 1..hi] == seg[|t| + 1..];
    LastDashOver(url, lo, d, hi);
  }

  /** A link `.../guide/{g}/{t}-{slug}/...` has the slug `slug` at the place
      where "/guide/" starts. */
  lemma SlugAtLink(url: string, pre: string, g: string, t: string, slug: string, rest: string)
    requires url == pre + GuidePart + g + "/" + t + "-" + slug + "/" + rest
    requires g != [] && '/' !in g
    requires t != [] && '/' !in t
    requires slug != [] && AllSlugChars(slug)
    ensures SlugAt(url, |pre|) == Some(slug)
  {
    var q1 := |pre| + 7 + |g|;
    var d := q1 + 1 + |t|;
    var q2 := d + 1 + |slug|;
    assert MatchesAt(url, GuidePart, |pre|) && NextChar(url, |pre| + 7, '/') == q1 by {
      SlugLinkFirst(url, pre, g, t, slug, rest);
    }
    assert q2 < |url| && url[q1 + 1..q2] == t + "-" + slug && url[q2] == '/' by {
      GuideLinkPieces(pre, g, t, slug, rest);
    }
    assert NextChar(url, q1 + 1, '/') == q2 && LastDash(url, q1 + 1, q2) == Some(d) && url[d + 1..q2] == slug by {
      SlugSegment(url, q1 + 1, d, q2, t, slug);
    }
    SlugAtStops(url, |pre|, q1, d, q2);
  }

  /** When "/guide/" does not start earlier, that slug is the one `match`
      reports. */
  lemma SlugOfLink(url: string, pre: string, g: string, t: string, slug: string, rest: string)
    requires url == pre + GuidePart + g + "/" + t + "-" + slug + "/" + rest
    requires g != [] && '/' !in g
    requires t != [] && '/' !in t
    requires slug != [] && AllSlugChars(slug)
    requires forall j :: 0 <= j < |pre| ==> !MatchesAt(url, GuidePart, j)
    ensures SlugOf(url) == Some(slug)
  {
    SlugAtLink(url, pre, g, t, slug, rest);
    SlugFromFirst(url, 0, |pre|);
  }

  // ---------------------------------------------------------------------------
  // The URL: `url.replace(/\/1\/web\/1\.0$/, "/web")`

  const VersionedWeb: string := "/1/web/1.0"
  const PlainWeb: string := "/web"

  function NormalizeTocUrl(url: string): (r: string)
  {
    if EndsWith(url, VersionedWeb) then url[..|url| - 10] + PlainWeb else url
  }

  /** A link ending in the versioned suffix ends in "/web" instead; any other
      link is kept as it is. */
  lemma NormalizeTocUrlRewrites(p: string)
    ensures NormalizeTocUrl(p + VersionedWeb) == p + PlainWeb
  {
    assert (p + VersionedWeb)[|p|..] == VersionedWeb;
    assert (p + VersionedWeb)[..|p|] == p;
  }

  lemma NormalizeTocUrlKeeps(url: string)
    requires !EndsWith(url, VersionedWeb)
    ensures NormalizeTocUrl(url) == url
  {
  }

  /** The normalised link never ends in the versioned suffix, so normalising
      twice changes nothing. */
  lemma NormalizeTocUrlIdempotent(url: string)
    ensures !EndsWith(NormalizeTocUrl(url), VersionedWeb)
    ensures NormalizeTocUrl(NormalizeTocUrl(url)) == NormalizeTocUrl(url)
  {
    var r := NormalizeTocUrl(url);
    if EndsWith(url, VersionedWeb) {
      assert r[|r| - 1] == 'b';
      assert |VersionedWeb| <= |r| ==> r[|r| - 10..][9] == r[|r| - 1];
    }
  }

  // ---------------------------------------------------------------------------
  // `parseTocHtml`

  /** The item one match yields: none when its link has no slug. */
  function TocItemOf(m: TocMatch): (r: Option<TocItem>)
  {
    match SlugOf(m.url)
    case None => None
    case Some(slug) => Some(TocItem(Trim(m.text), slug, NormalizeTocUrl(m.url), m.id))
  }

  /** The items of a sequence of matches, in match order. */
  function TocItems(ms: seq<TocMatch>): (r: seq<TocItem>)
    decreases |ms|
  {
    if ms == [] then []
    else
      var front := TocItems(ms[..|ms| - 1]);
      match TocItemOf(ms[|ms| - 1])
      case None => front
      case Some(item) => front + [item]
  }

  /** The `exec` loop of `parseTocHtml` over the matches, in document order. */
  method ParseTocHtml(matches: seq<TocMatch>) returns (items: seq<TocItem>)
    ensures items == TocItems(matches)
  {
    items := [];
    var n := 0;
    while n < |matches|
      invariant n <= |matches|
      invariant items == TocItems(matches[..n])
    {
      var m := matches[n];
      assert matches[..n + 1][..n] == matches[..n];
      var slug := SlugOf(m.url);
      if slug.Some? {
        items := items + [TocItem(Trim(m.text), slug.value, NormalizeTocUrl(m.url), m.id)];
      }
      n := n + 1;
    }
    assert matches[..n] == matches;
  }

  /** Items of consecutive runs of matches follow each other: document order
      is kept. */
  lemma {:induction false} TocItemsAppend(a: seq<TocMatch>, b: seq<TocMatch>)
    ensures TocItems(a + b) == TocItems(a) + TocItems(b)
    decreases |b|
  {
    if b == [] {
      assert a + b == a;
    } else {
      var b' := b[..|b| - 1];
      assert (a + b)[..|a + b| - 1] == a + b';
      assert (a + b)[|a + b| - 1] == b[|b| - 1];
      TocItemsAppend(a, b');
    }
  }

  /** A match whose link has no slug yields no item; any other yields exactly
      one. */
  lemma TocItemsSingle(m: TocMatch)
    ensures SlugOf(m.url).None? ==> TocItems([m]) == []
    ensures SlugOf(m.url).Some? ==> TocItems([m]) == [TocItem(Trim(m.text), SlugOf(m.url).value, NormalizeTocUrl(m.url), m.id)]
  {
    assert [m][..0] == [];
  }

  /** Every item comes from one of the matches, carries a slug of lower-case
      letters and digits, a trimmed title and a normalised link. */
  lemma {:induction false} TocItemsSound(ms: seq<TocMatch>)
    ensures |TocItems(ms)| <= |ms|
    ensures forall i :: 0 <= i < |TocItems(ms)| ==>
      exists j :: 0 <= j < |ms| && TocItemOf(ms[j]) == Some(TocItems(ms)[i])
    ensures forall i :: 0 <= i < |TocItems(ms)| ==>
      TocItems(ms)[i].slug != [] && AllSlugChars(TocItems(ms)[i].slug)
      && !EndsWith(TocItems(ms)[i].url, VersionedWeb)
      && TocItems(ms)[i].title == Trim(TocItems(ms)[i].title)
    decreases |ms|
  {
    if ms != [] {
      var front := ms[..|ms| - 1];
      TocItemsSound(front);
      var last := ms[|ms| - 1];
      NormalizeTocUrlIdempotent(last.url);
      TrimIdempotent(last.text);
      var r := TocItems(ms);
      forall i | 0 <= i < |r|
        ensures exists j :: 0 <= j < |ms| && TocItemOf(ms[j]) == Some(r[i])
      {
        if i < |TocItems(front)| {
          var j :| 0 <= j < |front| && TocItemOf(front[j]) == Some(TocItems(front)[i]);
          assert ms[j] == front[j];
        } else {
          assert TocItemOf(ms[|ms| - 1]) == Some(r[i]);
        }
      }
    }
  }

  /** No match with a slug, no items. */
  lemma {:induction false} TocItemsNone(ms: seq<TocMatch>)
    requires forall j :: 0 <= j < |ms| ==> SlugOf(ms[j].url).None?
    ensures TocItems(ms) == []
    decreases |ms|
  {
    if ms != [] {
      TocItemsNone(ms[..|ms| - 1]);
    }
  }

  // ---------------------------------------------------------------------------
  // `searchToc`

  /** `split(/\s+/).filter((w) => w.length > 2)`. */
  function LongWords(ws: seq<string>): (r: seq<string>)
    ensures forall i :: 0 <= i < |r| ==> Utf16Length(r[i]) > 2 && r[i] in ws
    ensures forall i :: 0 <= i < |ws| && Utf16Length(ws[i]) > 2 ==> ws[i] in r
  {
    if ws == [] then []
    else if Utf16Length(ws[0]) > 2 then [ws[0]] + LongWords(ws[1..])
    else LongWords(ws[1..])
  }

  function QueryWords(lowered: string): (r: seq<string>)
  {
    LongWords(Words(lowered))
  }

  /** `words.some((word) => title.includes(word))`. */
  predicate HasSomeWord(title: string, words: seq<string>) {
    exists i :: 0 <= i < |words| && Contains(title, words[i])
  }

  /** `items.filter(...)` with the same test. */
  function Matching(items: seq<TocItem>, words: seq<string>): (r: seq<TocItem>)
    ensures forall i :: 0 <= i < |r| ==> HasSomeWord(Lower(r[i].title), words)
    ensures forall i :: 0 <= i < |items| && HasSomeWord(Lower(items[i].title), words) ==> items[i] in r
    ensures IsSubseq(r, items)
  {
    if items == [] then []
    else
      var rest := Matching(items[1..], words);
      assert forall i :: 1 <= i < |items| ==> items[i] == items[1..][i - 1];
      if HasSomeWord(Lower(items[0].title), words) then
        assert ([items[0]] + rest)[1..] == rest;
        [items[0]] + rest
      else
        rest
  }

  function SearchToc(items: seq<TocItem>, query: string): (r: seq<TocItem>)
    ensures |r| <= 20
    ensures IsSubseq(r, items)
    ensures forall i :: 0 <= i < |r| ==> HasSomeWord(Lower(r[i].title), QueryWords(Lower(query)))
    ensures QueryWords(Lower(query)) == [] ==> r == []
  {
    var words := QueryWords(Lower(query));
    var all := Matching(items, words);
    var r := Take(all, 20);
    PrefixSubseq(all, items, |r|);
    assert all != [] ==> HasSomeWord(Lower(all[0].title), words);
    r
  }

  /** The filter keeps document order: filtering a concatenation filters each
      part. */
  lemma {:induction false} MatchingAppend(a: seq<TocItem>, b: seq<TocItem>, words: seq<string>)
    ensures Matching(a + b, words) == Matching(a, words) + Matching(b, words)
    decreases |a|
  {
    if a == [] {
      assert a + b == b;
    } else {
      assert (a + b)[1..] == a[1..] + b;
      MatchingAppend(a[1..], b, words);
    }
  }

  /** The slice keeps the FIRST 20 matches: a matching item with fewer than 20
      matching items before it is in the result, at the position given by that
      count; it is missing only when 20 matching items come before it. */
  lemma SearchTocComplete(items: seq<TocItem>, query: string, i: nat)
    requires i < |items| && HasSomeWord(Lower(items[i].title), QueryWords(Lower(query)))
    ensures var before := |Matching(items[..i], QueryWords(Lower(query)))|;
      before < 20 ==> before < |SearchToc(items, query)| && SearchToc(items, query)[before] == items[i]
    ensures items[i] in SearchToc(items, query) || |Matching(items[..i], QueryWords(Lower(query)))| >= 20
  {
    var words := QueryWords(Lower(query));
    var pre := Matching(items[..i], words);
    var m := Matching(items, words);
    assert m == pre + ([items[i]] + Matching(items[i + 1..], words)) by {
      SplitAt(items, i);
      MatchingAppend(items[..i], [items[i]] + items[i + 1..], words);
      MatchingCons(items[i], items[i + 1..], words);
    }
    assert m[|pre|] == items[i];
    assert SearchToc(items, query) == Take(m, 20);
  }

  /** A matching item heads the filter of the items it heads. */
  lemma MatchingCons(x: TocItem, rest: seq<TocItem>, words: seq<string>)
    requires HasSomeWord(Lower(x.title), words)
    ensures Matching([x] + rest, words) == [x] + Matching(rest, words)
  {
    assert ([x] + rest)[1..] == rest;
  }

  // ---------------------------------------------------------------------------
  // `findTopic`

  /** The three tests `findTopic` tries in turn, on the lower-cased title. */
  datatype Tier = Exact | Containing | EveryWord

  predicate Hits(tier: Tier, title: string, q: string, words: seq<string>) {
    match tier
    case Exact => title == q
    case Containing => Contains(title, q)
    case EveryWord => forall i :: 0 <= i < |words| ==> Contains(title, words[i])
  }

  /** `items.find(...)`: the index of the first item passing the test. */
  function FirstHitIndex(items: seq<TocItem>, tier: Tier, q: string, words: seq<string>): (r: Option<nat>)
    ensures r.Some? ==> r.value < |items| && Hits(tier, Lower(items[r.value].title), q, words)
    ensures r.Some? ==> forall j :: 0 <= j < r.value ==> !Hits(tier, Lower(items[j].title), q, words)
    ensures r.None? ==> forall j :: 0 <= j < |items| ==> !Hits(tier, Lower(items[j].title), q, words)
  {
    if items == [] then None
    else if Hits(tier, Lower(items[0].title), q, words) then Some(0)
    else
      match FirstHitIndex(items[1..], tier, q, words)
      case None => None
      case Some(k) => Some(k + 1)
  }

  function FirstHit(items: seq<TocItem>, tier: Tier, q: string, words: seq<string>): (r: Option<TocItem>)
  {
    match FirstHitIndex(items, tier, q, words)
    case None => None
    case Some(k) => Some(items[k])
  }

  /** `x` is the first item that passes the test of `tier`. */
  predicate FirstOfTier(items: seq<TocItem>, tier: Tier, q: string, words: seq<string>, x: TocItem) {
    exists i :: 0 <= i < |items| && items[i] == x && Hits(tier, Lower(items[i].title), q, words)
      && forall j :: 0 <= j < i ==> !Hits(tier, Lower(items[j].title), q, words)
  }

  predicate SomeHit(items: seq<TocItem>, tier: Tier, q: string, words: seq<string>) {
    exists i :: 0 <= i < |items| && Hits(tier, Lower(items[i].title), q, words)
  }

  lemma FirstHitSpec(items: seq<TocItem>, tier: Tier, q: string, words: seq<string>)
    ensures FirstHit(items, tier, q, words).Some? <==> SomeHit(items, tier, q, words)
    ensures FirstHit(items, tier, q, words).Some? ==> FirstOfTier(items, tier, q, words, FirstHit(items, tier, q, words).value)
  {
    var k := FirstHitIndex(items, tier, q, words);
    if k.Some? {
      assert items[k.value] == FirstHit(items, tier, q, words).value;
    }
  }

  /** The query as `findTopic` compares it: lower-cased, then trimmed. */
  function TopicQuery(query: string): string {
    Trim(Lower(query))
  }

  function FindTopic(items: seq<TocItem>, query: string): (r: Option<TocItem>)
    ensures r.Some? ==> r.value in items
  {
    var q := TopicQuery(query);
    var words := QueryWords(q);
    var exact := FirstHit(items, Exact, q, words);
    if exact.Some? then exact
    else
      var contains := FirstHit(items, Containing, q, words);
      if contains.Some? then contains
      else FirstHit(items, EveryWord, q, words)
  }

  /** The tiers of `findTopic`: the first exact match if there is one, else the
      first containing match, else the first item holding every long word,
      else nothing. */
  lemma FindTopicTiers(items: seq<TocItem>, query: string)
    ensures var q, words, r := TopicQuery(query), QueryWords(TopicQuery(query)), FindTopic(items, query);
      && (SomeHit(items, Exact, q, words) ==> r.Some? && FirstOfTier(items, Exact, q, words, r.value))
      && (!SomeHit(items, Exact, q, words) && SomeHit(items, Containing, q, words) ==>
            r.Some? && FirstOfTier(items, Containing, q, words, r.value))
      && (!SomeHit(items, Exact, q, words) && !SomeHit(items, Containing, q, words) ==>
            (r.Some? <==> SomeHit(items, EveryWord, q, words))
            && (r.Some? ==> FirstOfTier(items, EveryWord, q, words, r.value)))
  {
    var q := TopicQuery(query);
    var words := QueryWords(q);
    FirstHitSpec(items, Exact, q, words);
    FirstHitSpec(items, Containing, q, words);
    FirstHitSpec(items, EveryWord, q, words);
  }

  /** As written, a query whose words are all short, and that no title
      contains, still returns the first item: `every` holds for an empty list
      of words. */
  lemma FindTopicShortQuery(items: seq<TocItem>, query: string)
    requires items != []
    requires !SomeHit(items, Containing, TopicQuery(query), QueryWords(TopicQuery(query)))
    requires QueryWords(TopicQuery(query)) == []
    ensures FindTopic(items, query) == Some(items[0])
  {
    var q := TopicQuery(query);
    var words := QueryWords(q);
    FirstHitSpec(items, Exact, q, words);
    FirstHitSpec(items, Containing, q, words);
    assert Hits(EveryWord, Lower(items[0].title), q, words);
  }

  /** One concrete instance: the query "zz" finds the "Overview" item,
      whose title does not contain it. */
  lemma FindTopicShortQueryExample()
    ensures FindTopic([TocItem("Overview", "o1", "u", "1")], "zz") == Some(TocItem("Overview", "o1", "u", "1"))
    ensures !Contains(Lower("Overview"), "zz")
  {
    var items := [TocItem("Overview", "o1", "u", "1")];
    ZzQuery();
    OverviewLacksZz();
    assert !SomeHit(items, Containing, "zz", []);
    FindTopicShortQuery(items, "zz");
  }

  lemma ZzQuery()
    ensures TopicQuery("zz") == "zz"
    ensures QueryWords("zz") == []
  {
    assert Lower("zz") == "zz";
    assert LeadingSpaces("zz") == 0 && TrailingSpaces("zz") == 0;
    assert NonSpaceRun("zz") == 2;
    assert "zz"[0..] == "zz" && "zz"[..2] == "zz" && "zz"[2..] == [];
    assert Words([]) == [];
    assert Words("zz") == ["zz"];
    assert Utf16Length("zz") == 2;
  }

  lemma OverviewLacksZz()
    ensures Lower("Overview") == "overview"
    ensures !Contains("overview", "zz")
  {
    FirstCharAbsent("overview", "zz");
  }

  /** `findTopic` with the word tier tried only when the query has a word of
      more than two characters. */
  function FindTopicWithWords(items: seq<TocItem>, query: string): (r: Option<TocItem>)
    ensures r.Some? ==> r.value in items
  {
    var q := TopicQuery(query);
    var words := QueryWords(q);
    var exact := FirstHit(items, Exact, q, words);
    if exact.Some? then exact
    else
      var contains := FirstHit(items, Containing, q, words);
      if contains.Some? then contains
      else if words == [] then None
      else FirstHit(items, EveryWord, q, words)
  }

  /** Every item found shares text with the query: its lower-cased title
      contains the query or one of the query's long words. */
  lemma FindTopicWithWordsRelevant(items: seq<TocItem>, query: string)
    ensures var q, r := TopicQuery(query), FindTopicWithWords(items, query);
      r.Some? ==> Contains(Lower(r.value.title), q) || HasSomeWord(Lower(r.value.title), QueryWords(q))
  {
    var q := TopicQuery(query);
    var words := QueryWords(q);
    var r := FindTopicWithWords(items, query);
    FirstHitSpec(items, Exact, q, words);
    FirstHitSpec(items, Containing, q, words);
    FirstHitSpec(items, EveryWord, q, words);
    if r.Some? {
      var t := Lower(r.value.title);
      if FirstHit(items, Exact, q, words).Some? {
        ContainsAt(t, q, 0);
      } else if FirstHit(items, Containing, q, words).None? {
        assert Hits(EveryWord, t, q, words);
        assert Contains(t, words[0]);
      }
    }
  }

  /** The two agree whenever the query has a long word. */
  lemma FindTopicWithWordsAgrees(items: seq<TocItem>, query: string)
    requires QueryWords(TopicQuery(query)) != []
    ensures FindTopicWithWords(items, query) == FindTopic(items, query)
  {
  }
}
