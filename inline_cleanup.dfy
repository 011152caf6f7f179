/** The global regular-expression replacements the regex extractor applies to
    a paragraph before it emits it: unwrapping `span`s, rewriting anchors,
    `strong` and `em` to Markdown, turning `&nbsp;` into a space and removing
    whole tags. Each pattern is a small hand-written matcher that follows the
    pattern's greedy semantics, and `ReplaceAll` is the left-to-right,
    non-overlapping scan of `String.prototype.replace` with a global pattern. */
module InlineCleanup {
  import opened Wrappers
  import opened Strings

  /** A match at the start of a text: what replaces it and how many
      characters it covers. */
  datatype Hit = Hit(out: string, len: nat)

  /** `([^<]+)CLOSE` at index `from` of `s`: non-empty text without `<`,
      then `close`. The hit carries the text; its length counts from the
      start of `s`. */
  function TextAt(s: string, from: nat, close: string): (h: Option<Hit>)
    requires from <= |s|
    ensures h.Some? ==> from + |h.value.out| + |close| == h.value.len <= |s| && h.value.out != []
  {
    var m := NextChar(s, from, '<');
    if m == from || !MatchesAt(s, close, m) then None
    else Some(Hit(s[from..m], m + |close|))
  }

  /** `<NAME[^>]*ATTR[^>]*>([^<]+)CLOSE` at the start of `s`, `open` being
      `<NAME`: the open tag runs to its first `>` and contains `attr`, and it
      is followed by non-empty text without `<` and then `close`. The hit
      carries that text. */
  function ElementAt(s: string, open: string, attr: string, close: string): (h: Option<Hit>)
    ensures h.Some? ==> StartsWith(s, open) && |open| < h.value.len <= |s|
    ensures h.Some? ==> |h.value.out| + |open| < h.value.len
  {
    if !StartsWith(s, open) then None
    else
      var e := NextChar(s, |open|, '>');
      if e == |s| || !Contains(s[|open|..e], attr) then None
      else TextAt(s, e + 1, close)
  }

  /** `OPEN([^<]+)CLOSE` at the start of `s`, `open` being a whole open tag
      such as `<strong>`. */
  function WrapAt(s: string, open: string, close: string): (h: Option<Hit>)
    ensures h.Some? ==> StartsWith(s, open) && |open| < h.value.len <= |s|
    ensures h.Some? ==> |h.value.out| + |open| + |close| == h.value.len
  {
    if !StartsWith(s, open) then None
    else TextAt(s, |open|, close)
  }

  /** An anchor matched by `<a[^>]*href="([^"]+)"[^>]*>([^<]+)<\/a>`. */
  datatype Link = Link(target: string, text: string, len: nat)

  const HrefOpen := "href=\""

  /** The rest of the anchor pattern with `href="` at index `p`: a non-empty
      target up to the next `"`, the remainder of the open tag up to the next
      `>`, non-empty text without `<`, and `</a>`. */
  function AnchorFrom(s: string, p: nat): (l: Option<Link>)
    requires p <= |s|
    ensures l.Some? ==> p + |l.value.target| + |l.value.text| + 12 <= l.value.len <= |s|
  {
    if !MatchesAt(s, HrefOpen, p) then None
    else
      var q := NextChar(s, p + 6, '"');
      if q == p + 6 || q == |s| then None
      else
        var r := NextChar(s, q + 1, '>');
        if r == |s| then None
        else
          var m := NextChar(s, r + 1, '<');
          if m == r + 1 || !MatchesAt(s, "</a>", m) then None
          else Some(Link(s[p + 6..q], s[r + 1..m], m + 4))
  }

  /** The greedy `[^>]*` before `href="` tries the longest prefix of the open
      tag first: `href="` at index `p`, then at `p - 1`, and so on back to
      index 2. */
  function AnchorTry(s: string, p: nat): (l: Option<Link>)
    requires p <= |s|
    ensures l.Some? ==> |l.value.target| + |l.value.text| + 14 <= l.value.len <= |s|
    decreases p
  {
    if p < 2 then None
    else
      var l := AnchorFrom(s, p);
      if l.Some? then l else AnchorTry(s, p - 1)
  }

  /** The anchor pattern at the start of `s`; `href="` may start anywhere in
      the open tag before its first `>`. */
  function AnchorAt(s: string): (l: Option<Link>)
    ensures l.Some? ==> StartsWith(s, "<a") && |l.value.target| + |l.value.text| + 14 <= l.value.len <= |s|
  {
    if !StartsWith(s, "<a") then None
    else AnchorTry(s, NextChar(s, 2, '>'))
  }

  /** `<[^>]+>` at the start of `s`: a `<`, at least one character that is not
      `>`, and a `>` later on. */
  predicate TagAt(s: string) {
    |s| >= 2 && s[0] == '<' && s[1] != '>' && NextChar(s, 1, '>') < |s|
  }

  const NoBreakAttr := "class=\"NoBreak\""

  /** The replacements, in the order the extractor applies them. */
  datatype Rule =
    | NoBreakSpan  // <span[^>]*class="NoBreak"[^>]*>([^<]+)<\/span>  ->  $1
    | AnySpan      // <span[^>]*>([^<]+)<\/span>                      ->  $1
    | Anchor       // <a[^>]*href="([^"]+)"[^>]*>([^<]+)<\/a>         ->  [$2]($1)
    | Strong       // <strong>([^<]+)<\/strong>                       ->  **$1**
    | Emphasis     // <em>([^<]+)<\/em>                               ->  *$1*
    | Nbsp         // &nbsp;                                          ->  " "
    | AnyTag       // <[^>]+>                                         ->  ""

  lemma StartsWithHead(s: string, p: string)
    requires StartsWith(s, p) && p != []
    ensures s[0] == p[0]
  {
    assert s[..|p|][0] == s[0];
  }

  /** The rule's match at the start of `s`. Every pattern begins with `<` or
      `&`, and no replacement is longer than what it replaces. */
  function Apply(rule: Rule, s: string): (h: Option<Hit>)
    ensures h.Some? ==> 0 < h.value.len <= |s|
    ensures h.Some? ==> |h.value.out| <= h.value.len
    ensures h.Some? ==> s[0] == '<' || s[0] == '&'
  {
    match rule
    case NoBreakSpan =>
      var h := ElementAt(s, "<span", NoBreakAttr, "</span>");
      if h.Some? then StartsWithHead(s, "<span"); h else None
    case AnySpan =>
      var h := ElementAt(s, "<span", "", "</span>");
      if h.Some? then StartsWithHead(s, "<span"); h else None
    case Anchor =>
      var l := AnchorAt(s);
      if l.Some? then
        StartsWithHead(s, "<a");
        Some(Hit("[" + l.value.text + "](" + l.value.target + ")", l.value.len))
      else None
    case Strong =>
      var h := WrapAt(s, "<strong>", "</strong>");
      if h.Some? then
        StartsWithHead(s, "<strong>");
        Some(Hit("**" + h.value.out + "**", h.value.len))
      else None
    case Emphasis =>
      var h := WrapAt(s, "<em>", "</em>");
      if h.Some? then
        StartsWithHead(s, "<em>");
        Some(Hit("*" + h.value.out + "*", h.value.len))
      else None
    case Nbsp =>
      if StartsWith(s, "&nbsp;") then StartsWithHead(s, "&nbsp;"); Some(Hit(" ", 6)) else None
    case AnyTag =>
      if TagAt(s) then Some(Hit("", NextChar(s, 1, '>') + 1)) else None
  }

  /** `s.replace(pattern, replacement)` with a global pattern: matches are
      taken left to right without overlapping; text between them is kept. */
  function ReplaceAll(rule: Rule, s: string): string
    decreases |s|
  {
    if s == [] then []
    else
      var h := Apply(rule, s);
      if h.Some? then h.value.out + ReplaceAll(rule, s[h.value.len..])
      else [s[0]] + ReplaceAll(rule, s[1..])
  }

  /** No replacement makes the text longer. */
  lemma {:induction false} ReplaceAllShorter(rule: Rule, s: string)
    ensures |ReplaceAll(rule, s)| <= |s|
    decreases |s|
  {
    if s != [] {
      var h := Apply(rule, s);
      if h.Some? {
        ReplaceAllShorter(rule, s[h.value.len..]);
      } else {
        ReplaceAllShorter(rule, s[1..]);
      }
    }
  }

  /** Text without `<` and `&` passes through every replacement unchanged, and
      a replacement works on what follows such text independently of it. */
  lemma {:induction false} ReplaceAllPlainPrefix(rule: Rule, p: string, rest: string)
    requires '<' !in p && '&' !in p
    ensures ReplaceAll(rule, p + rest) == p + ReplaceAll(rule, rest)
  {
    if p == [] {
      assert p + rest == rest;
    } else {
      var s := p + rest;
      assert s[0] == p[0];
      assert s[1..] == p[1..] + rest;
      assert Apply(rule, s).None?;
      assert ReplaceAll(rule, s) == [p[0]] + ReplaceAll(rule, p[1..] + rest);
      ReplaceAllPlainPrefix(rule, p[1..], rest);
      assert [p[0]] + p[1..] == p;
      AppendAssoc([p[0]], p[1..], ReplaceAll(rule, rest));
    }
  }

  lemma ReplaceAllPlain(rule: Rule, s: string)
    requires '<' !in s && '&' !in s
    ensures ReplaceAll(rule, s) == s
  {
    ReplaceAllPlainPrefix(rule, s, []);
    assert s + [] == s;
  }

  /** A match at the start is replaced and the scan resumes after it. */
  lemma ReplaceAllHit(rule: Rule, e: string, rest: string, out: string)
    requires Apply(rule, e + rest) == Some(Hit(out, |e|))
    ensures ReplaceAll(rule, e + rest) == out + ReplaceAll(rule, rest)
  {
    assert (e + rest)[|e|..] == rest;
  }

  /** The matchers on a text of the shape they describe. */
  lemma TextAtShape(pre: string, x: string, close: string, rest: string)
    requires x != [] && '<' !in x
    requires close != [] && close[0] == '<'
    ensures TextAt(pre + x + close + rest, |pre|, close) == Some(Hit(x, |pre| + |x| + |close|))
  {
    var s := pre + x + close + rest;
    var m := |pre| + |x|;
    assert s == pre + x + (close + rest);
    RunTo(pre, x, close + rest, '<');
    assert s[m..m + |close|] == close;
  }

  lemma ElementAtShape(open: string, attr: string, a: string, x: string, close: string, rest: string)
    requires '>' !in a && Contains(a, attr)
    requires x != [] && '<' !in x
    requires close != [] && close[0] == '<'
    ensures ElementAt(open + a + ">" + x + close + rest, open, attr, close)
         == Some(Hit(x, |open| + |a| + 1 + |x| + |close|))
  {
    var s := open + a + ">" + x + close + rest;
    OpenTagShape(open, a, x, close, rest);
    TextAtShape(open + a + ">", x, close, rest);
    ElementAtUnfold(s, open, attr, close);
  }

  /** Up to the first `>`, an open tag is its name and attributes. */
  lemma OpenTagShape(open: string, a: string, x: string, close: string, rest: string)
    requires '>' !in a
    ensures StartsWith(open + a + ">" + x + close + rest, open)
    ensures NextChar(open + a + ">" + x + close + rest, |open|, '>') == |open| + |a|
    ensures (open + a + ">" + x + close + rest)[|open|..|open| + |a|] == a
  {
    var tail := ">" + x + close + rest;
    assert open + a + ">" + x + close + rest == open + (a + tail);
    StartsWithPrefix(open, a + tail);
    assert open + a + ">" + x + close + rest == open + a + tail;
    RunTo(open, a, tail, '>');
  }

  lemma ElementAtUnfold(s: string, open: string, attr: string, close: string)
    requires StartsWith(s, open)
    requires NextChar(s, |open|, '>') < |s| && Contains(s[|open|..NextChar(s, |open|, '>')], attr)
    ensures ElementAt(s, open, attr, close) == TextAt(s, NextChar(s, |open|, '>') + 1, close)
  {
  }

  lemma WrapAtShape(open: string, x: string, close: string, rest: string)
    requires x != [] && '<' !in x
    requires close != [] && close[0] == '<'
    ensures WrapAt(open + x + close + rest, open, close) == Some(Hit(x, |open| + |x| + |close|))
  {
    assert open + x + close + rest == open + (x + close + rest);
    StartsWithPrefix(open, x + close + rest);
    TextAtShape(open, x, close, rest);
  }

  /** Scanning for `c` across text without `c` stops where the text ends. */
  lemma RunTo(pre: string, x: string, tail: string, c: char)
    requires c !in x && tail != [] && tail[0] == c
    ensures NextChar(pre + x + tail, |pre|, c) == |pre| + |x|
    ensures (pre + x + tail)[|pre|..|pre| + |x|] == x
  {
    var s := pre + x + tail;
    forall j | |pre| <= j < |pre| + |x| ensures s[j] != c {
      assert s[j] == x[j - |pre|];
    }
    NextCharAt(s, |pre|, c, |pre| + |x|);
  }

  /** `<span ...class="NoBreak"...>x</span>` becomes `x`. */
  lemma NoBreakSpanUnwraps(a: string, x: string, rest: string)
    requires '>' !in a && Contains(a, NoBreakAttr)
    requires x != [] && '<' !in x
    ensures ReplaceAll(NoBreakSpan, "<span" + a + ">" + x + "</span>" + rest) == x + ReplaceAll(NoBreakSpan, rest)
  {
    var e := "<span" + a + ">" + x + "</span>";
    ElementAtShape("<span", NoBreakAttr, a, x, "</span>", rest);
    ReplaceAllHit(NoBreakSpan, e, rest, x);
  }

  /** `<span ...>x</span>` becomes `x`. */
  lemma SpanUnwraps(a: string, x: string, rest: string)
    requires '>' !in a
    requires x != [] && '<' !in x
    ensures ReplaceAll(AnySpan, "<span" + a + ">" + x + "</span>" + rest) == x + ReplaceAll(AnySpan, rest)
  {
    var e := "<span" + a + ">" + x + "</span>";
    assert MatchesAt(a, "", 0);
    ElementAtShape("<span", "", a, x, "</span>", rest);
    ReplaceAllHit(AnySpan, e, rest, x);
  }

  /** `<strong>x</strong>` becomes `**x**`. */
  lemma StrongBecomesBold(x: string, rest: string)
    requires x != [] && '<' !in x
    ensures ReplaceAll(Strong, "<strong>" + x + "</strong>" + rest) == "**" + x + "**" + ReplaceAll(Strong, rest)
  {
    WrapAtShape("<strong>", x, "</strong>", rest);
    ReplaceAllHit(Strong, "<strong>" + x + "</strong>", rest, "**" + x + "**");
  }

  /** `<em>x</em>` becomes `*x*`. */
  lemma EmphasisBecomesItalic(x: string, rest: string)
    requires x != [] && '<' !in x
    ensures ReplaceAll(Emphasis, "<em>" + x + "</em>" + rest) == "*" + x + "*" + ReplaceAll(Emphasis, rest)
  {
    WrapAtShape("<em>", x, "</em>", rest);
    ReplaceAllHit(Emphasis, "<em>" + x + "</em>", rest, "*" + x + "*");
  }

  /** `&nbsp;` becomes a space. */
  lemma NbspBecomesSpace(rest: string)
    ensures ReplaceAll(Nbsp, "&nbsp;" + rest) == " " + ReplaceAll(Nbsp, rest)
  {
    StartsWithPrefix("&nbsp;", rest);
    ReplaceAllHit(Nbsp, "&nbsp;", rest, " ");
  }

  /** No `<[^>]+>` starts anywhere in `t`. */
  predicate NoTagIn(t: string) {
    forall i :: 0 <= i < |t| ==> !TagAt(t[i..])
  }

  /** Removing tags, and turning `&nbsp;` into a space, bring in no
      character other than the space. */
  lemma {:induction false} KeepsChars(rule: Rule, s: string, c: char)
    requires rule == AnyTag || rule == Nbsp
    requires c in ReplaceAll(rule, s) && c != ' '
    ensures c in s
    decreases |s|
  {
    var h := Apply(rule, s);
    if h.Some? {
      assert c !in h.value.out;
      KeepsChars(rule, s[h.value.len..], c);
    } else if c != s[0] {
      KeepsChars(rule, s[1..], c);
    }
  }

  /** A `>` at the start begins no match, so it is kept. */
  lemma KeepsClose(rule: Rule, s: string)
    requires s != [] && s[0] == '>'
    ensures ReplaceAll(rule, s) != [] && ReplaceAll(rule, s)[0] == '>'
  {
  }

  lemma NoTagSuffix(t: string, k: nat)
    requires NoTagIn(t) && k <= |t|
    ensures NoTagIn(t[k..])
  {
    forall i | 0 <= i < |t[k..]| ensures !TagAt(t[k..][i..]) {
      assert t[k..][i..] == t[k + i..];
    }
  }

  /** A tag at the start of a prefix is a tag at the start of the text. */
  lemma TagAtPrefix(x: string, n: nat)
    requires n <= |x|
    ensures TagAt(x[..n]) ==> TagAt(x)
  {
    if TagAt(x[..n]) {
      var j := NextChar(x[..n], 1, '>');
      assert x[j] == '>';
    }
  }

  /** Cutting a piece out of a text without tags leaves no tag. */
  lemma NoTagSlice(t: string, a: nat, b: nat)
    requires NoTagIn(t) && a <= b <= |t|
    ensures NoTagIn(t[a..b])
  {
    forall i | 0 <= i < b - a ensures !TagAt(t[a..b][i..]) {
      assert t[a..b][i..] == t[a + i..][..b - a - i];
      TagAtPrefix(t[a + i..], b - a - i);
    }
  }

  /** After `.replace(/<[^>]+>/g, "")` no tag is left. */
  lemma {:induction false} AnyTagRemovesAll(s: string)
    ensures NoTagIn(ReplaceAll(AnyTag, s))
    decreases |s|
  {
    if s != [] {
      var h := Apply(AnyTag, s);
      if h.Some? {
        AnyTagRemovesAll(s[h.value.len..]);
        assert ReplaceAll(AnyTag, s) == ReplaceAll(AnyTag, s[h.value.len..]);
      } else {
        var r := ReplaceAll(AnyTag, s[1..]);
        AnyTagRemovesAll(s[1..]);
        var t := [s[0]] + r;
        assert ReplaceAll(AnyTag, s) == t;
        forall i | 0 <= i < |t| ensures !TagAt(t[i..]) {
          if i > 0 {
            assert t[i..] == r[i - 1..];
          } else if s[0] == '<' && |s| >= 2 {
            if s[1] == '>' {
              KeepsClose(AnyTag, s[1..]);
              assert t[1] == '>';
            } else {
              assert NextChar(s, 1, '>') == |s|;
              if TagAt(t) {
                var k := NextChar(t, 1, '>');
                assert r[k - 1] == '>';
                KeepsChars(AnyTag, s[1..], '>');
              }
            }
          }
        }
      }
    }
  }

  /** Text without tags has nothing to remove. */
  lemma {:induction false} AnyTagNoop(t: string)
    requires NoTagIn(t)
    ensures ReplaceAll(AnyTag, t) == t
    decreases |t|
  {
    if t != [] {
      assert !TagAt(t[0..]) && t[0..] == t;
      assert NoTagIn(t[1..]) by {
        forall i | 0 <= i < |t[1..]| ensures !TagAt(t[1..][i..]) {
          assert t[1..][i..] == t[i + 1..];
        }
      }
      AnyTagNoop(t[1..]);
    }
  }

  /** Removing tags twice is removing them once. */
  lemma AnyTagIdempotent(s: string)
    ensures ReplaceAll(AnyTag, ReplaceAll(AnyTag, s)) == ReplaceAll(AnyTag, s)
  {
    AnyTagRemovesAll(s);
    AnyTagNoop(ReplaceAll(AnyTag, s));
  }

  /** `AnchorTry` steps over the positions where `href="` does not start. */
  lemma {:induction false} AnchorTryDown(s: string, p: nat, lo: nat)
    requires 2 <= lo <= p <= |s|
    requires forall k :: lo < k <= p ==> !MatchesAt(s, HrefOpen, k)
    ensures AnchorTry(s, p) == AnchorTry(s, lo)
    decreases p
  {
    if lo < p {
      AnchorTryDown(s, p - 1, lo);
    }
  }

  /** The text of a plain anchor, `<a href="u">t</a>`. */
  function AnchorText(u: string, t: string): string {
    "<a href=\"" + u + "\">" + t + "</a>"
  }

  /** A character that differs from the pattern rules out a match. */
  lemma Mismatch(s: string, pat: string, k: nat, j: nat)
    requires k <= j < k + |pat| && j < |s| && s[j] != pat[j - k]
    ensures !MatchesAt(s, pat, k)
  {
    if k + |pat| <= |s| {
      assert s[k..k + |pat|][j - k] == s[j];
    }
  }

  /** In `<a href="u">...`, `href="` starts only at index 3 before the
      first `>`, when `u` has no `"` and `>` and does not end in `href=`. */
  lemma AnchorOnlyHref(u: string, t: string, rest: string, k: nat)
    requires '"' !in u && '>' !in u && !EndsWith(u, "href=")
    requires 3 < k <= |u| + 10
    ensures !MatchesAt(AnchorText(u, t) + rest, HrefOpen, k)
  {
    var s := AnchorText(u, t) + rest;
    var n := |u|;
    if k <= 8 {
      Mismatch(s, HrefOpen, k, 8);
    } else if k >= n + 5 {
      Mismatch(s, HrefOpen, k, n + 10);
    } else if k < n + 4 {
      assert s[k + 5] == u[k - 4];
      Mismatch(s, HrefOpen, k, k + 5);
    } else if k + 6 <= |s| {
      assert s[k..k + 5] == u[n - 5..];
      assert s[k..k + 6][..5] == s[k..k + 5];
      assert HrefOpen[..5] == "href=";
    }
  }

  /** The rest of the anchor pattern, once its four scans are known. */
  lemma AnchorFromUnfold(s: string, p: nat, q: nat, r: nat, m: nat, u: string, t: string)
    requires p + 6 <= |s| && MatchesAt(s, HrefOpen, p)
    requires NextChar(s, p + 6, '"') == q && p + 6 < q < |s|
    requires NextChar(s, q + 1, '>') == r && r < |s|
    requires NextChar(s, r + 1, '<') == m && r + 1 < m && MatchesAt(s, "</a>", m)
    requires s[p + 6..q] == u && s[r + 1..m] == t
    ensures AnchorFrom(s, p) == Some(Link(u, t, m + 4))
  {
  }

  lemma AnchorOpenTag(u: string, t: string, rest: string)
    requires '>' !in u
    ensures var s := AnchorText(u, t) + rest;
      StartsWith(s, "<a") && NextChar(s, 2, '>') == |u| + 10
  {
    AnchorRegroup(u, t, rest);
    AnchorCut("<a", " href=\"" + u + "\"", t + "</a>" + rest);
  }

  lemma AnchorTagEnd(u: string, t: string, rest: string)
    requires '>' !in u
    ensures NextChar(AnchorText(u, t) + rest, |u| + 10, '>') == |u| + 10
  {
    AnchorRegroup(u, t, rest);
    AnchorCut("<a", " href=\"" + u + "\"", t + "</a>" + rest);
  }

  /** An open tag `pre` + `mid` + `>` whose `mid` has no `>`. */
  lemma AnchorCut(pre: string, mid: string, post: string)
    requires '>' !in mid
    ensures var s := pre + mid + (">" + post);
      && StartsWith(s, pre) && NextChar(s, |pre|, '>') == |pre| + |mid|
      && NextChar(s, |pre| + |mid|, '>') == |pre| + |mid|
  {
    AppendAssoc(pre, mid, ">" + post);
    StartsWithPrefix(pre, mid + (">" + post));
    RunTo(pre, mid, ">" + post, '>');
  }

  lemma AnchorHrefAt(u: string, t: string, rest: string)
    ensures MatchesAt(AnchorText(u, t) + rest, HrefOpen, 3)
  {
    var tail := u + "\">" + t + "</a>" + rest;
    assert "<a href=\"" == "<a " + HrefOpen;
    assert AnchorText(u, t) + rest == "<a " + HrefOpen + tail;
    Infix("<a ", HrefOpen, tail);
  }

  /** The middle of three strings occurs where the first one ends. */
  lemma Infix(a: string, b: string, c: string)
    ensures MatchesAt(a + b + c, b, |a|)
  {
    assert (a + b + c)[|a|..|a| + |b|] == b;
  }

  /** The open tag of a plain anchor, cut at its `>`. */
  lemma AnchorRegroup(u: string, t: string, rest: string)
    ensures AnchorText(u, t) + rest == "<a" + (" href=\"" + u + "\"") + (">" + (t + "</a>" + rest))
  {
    var a, b := "<a", " href=\"";
    assert "<a href=\"" == a + b;
    assert "\">" == "\"" + ">";
    var post := t + "</a>" + rest;
    assert AnchorText(u, t) + rest == "<a href=\"" + u + "\">" + post;
    assert "<a href=\"" + u + "\">" + post == a + b + u + "\">" + post;
  }

  lemma AnchorTarget(u: string, t: string, rest: string)
    requires '"' !in u
    ensures var s := AnchorText(u, t) + rest;
      NextChar(s, 9, '"') == |u| + 9 && s[9..|u| + 9] == u
  {
    var tail := "\">" + t + "</a>" + rest;
    assert AnchorText(u, t) + rest == "<a href=\"" + u + tail;
    RunTo("<a href=\"", u, tail, '"');
  }

  lemma AnchorLabel(u: string, t: string, rest: string)
    requires '<' !in t
    ensures var s, m := AnchorText(u, t) + rest, |u| + 11 + |t|;
      NextChar(s, |u| + 11, '<') == m && s[|u| + 11..m] == t && MatchesAt(s, "</a>", m)
  {
    var pre := "<a href=\"" + u + "\">";
    AppendAssoc(pre + t, "</a>", rest);
    RunTo(pre, t, "</a>" + rest, '<');
    Infix(pre + t, "</a>", rest);
  }

  /** The pieces of `<a href="u">t</a>` that the anchor matcher finds. */
  lemma AnchorFromShape(u: string, t: string, rest: string)
    requires u != [] && '"' !in u && '>' !in u
    requires t != [] && '<' !in t
    ensures AnchorFrom(AnchorText(u, t) + rest, 3) == Some(Link(u, t, |AnchorText(u, t)|))
  {
    var s := AnchorText(u, t) + rest;
    var n := |u|;
    AnchorHrefAt(u, t, rest);
    AnchorTagEnd(u, t, rest);
    AnchorTarget(u, t, rest);
    AnchorLabel(u, t, rest);
    AnchorFromUnfold(s, 3, n + 9, n + 10, n + 11 + |t|, u, t);
  }

  /** The greedy scan for `href="` in a plain anchor backs off to index 3. */
  lemma AnchorBacksOff(u: string, t: string, rest: string)
    requires '"' !in u && '>' !in u && !EndsWith(u, "href=")
    ensures |u| + 10 <= |AnchorText(u, t) + rest|
    ensures AnchorTry(AnchorText(u, t) + rest, |u| + 10) == AnchorTry(AnchorText(u, t) + rest, 3)
  {
    var s := AnchorText(u, t) + rest;
    forall k | 3 < k <= |u| + 10 ensures !MatchesAt(s, HrefOpen, k) {
      AnchorOnlyHref(u, t, rest, k);
    }
    AnchorTryDown(s, |u| + 10, 3);
  }

  /** The anchor matcher on a plain anchor. */
  lemma AnchorAtShape(u: string, t: string, rest: string)
    requires u != [] && '"' !in u && '>' !in u && !EndsWith(u, "href=")
    requires t != [] && '<' !in t
    ensures AnchorAt(AnchorText(u, t) + rest) == Some(Link(u, t, |AnchorText(u, t)|))
  {
    var s := AnchorText(u, t) + rest;
    AnchorOpenTag(u, t, rest);
    AnchorBacksOff(u, t, rest);
    AnchorFromShape(u, t, rest);
    AnchorAtUnfold(s, |u| + 10, Link(u, t, |AnchorText(u, t)|));
  }

  lemma AnchorAtUnfold(s: string, e: nat, l: Link)
    requires StartsWith(s, "<a") && NextChar(s, 2, '>') == e && 3 <= e
    requires AnchorFrom(s, 3) == Some(l)
    requires AnchorTry(s, e) == AnchorTry(s, 3)
    ensures AnchorAt(s) == Some(l)
  {
  }

  lemma ApplyAnchor(s: string, l: Link)
    requires AnchorAt(s) == Some(l)
    ensures Apply(Anchor, s) == Some(Hit("[" + l.text + "](" + l.target + ")", l.len))
  {
  }

  /** `<a href="u">t</a>` becomes `[t](u)`. */
  lemma AnchorBecomesLink(u: string, t: string, rest: string)
    requires u != [] && '"' !in u && '>' !in u && !EndsWith(u, "href=")
    requires t != [] && '<' !in t
    ensures ReplaceAll(Anchor, AnchorText(u, t) + rest) == "[" + t + "](" + u + ")" + ReplaceAll(Anchor, rest)
  {
    AnchorAtShape(u, t, rest);
    ApplyAnchor(AnchorText(u, t) + rest, Link(u, t, |AnchorText(u, t)|));
    ReplaceAllHit(Anchor, AnchorText(u, t), rest, "[" + t + "](" + u + ")");
  }

  /** Turning `&nbsp;` into a space creates no tag. */
  lemma {:induction false} NbspKeepsNoTag(s: string)
    requires NoTagIn(s)
    ensures NoTagIn(ReplaceAll(Nbsp, s))
    decreases |s|
  {
    if s != [] {
      var h := Apply(Nbsp, s);
      if h.Some? {
        NoTagSuffix(s, 6);
        NbspKeepsNoTag(s[6..]);
        var r := ReplaceAll(Nbsp, s[6..]);
        assert ReplaceAll(Nbsp, s) == " " + r;
        forall i | 0 <= i < |r| + 1 ensures !TagAt((" " + r)[i..]) {
          if i > 0 {
            assert (" " + r)[i..] == r[i - 1..];
          }
        }
      } else {
        NoTagSuffix(s, 1);
        NbspKeepsNoTag(s[1..]);
        var r := ReplaceAll(Nbsp, s[1..]);
        var t := [s[0]] + r;
        assert ReplaceAll(Nbsp, s) == t;
        assert !TagAt(s[0..]) && s[0..] == s;
        forall i | 0 <= i < |t| ensures !TagAt(t[i..]) {
          if i > 0 {
            assert t[i..] == r[i - 1..];
          } else if s[0] == '<' && |s| >= 2 {
            if s[1] == '>' {
              KeepsClose(Nbsp, s[1..]);
              assert t[1] == '>';
            } else {
              assert NextChar(s, 1, '>') == |s|;
              if TagAt(t) {
                var k := NextChar(t, 1, '>');
                assert r[k - 1] == '>';
                KeepsChars(Nbsp, s[1..], '>');
              }
            }
          }
        }
      }
    }
  }

  /** The clean-up of an intro or Subhead paragraph: the six replacements in
      order, then `trim()`. (Its last replacement swaps the em dash for
      itself and so changes nothing.) */
  function CleanParagraph(t: string): string {
    var a := ReplaceAll(NoBreakSpan, t);
    var b := ReplaceAll(AnySpan, a);
    var c := ReplaceAll(Anchor, b);
    var d := ReplaceAll(Strong, c);
    var e := ReplaceAll(Emphasis, d);
    Trim(ReplaceAll(Nbsp, e))
  }

  /** The clean-up of the Outro paragraph: tags removed, `&nbsp;` turned into
      a space, then `trim()`. */
  function CleanOutro(t: string): string {
    Trim(ReplaceAll(Nbsp, ReplaceAll(AnyTag, t)))
  }

  /** The clean-up never lengthens a paragraph. */
  lemma CleanParagraphShorter(t: string)
    ensures |CleanParagraph(t)| <= |t|
  {
    var a := ReplaceAll(NoBreakSpan, t);
    var b := ReplaceAll(AnySpan, a);
    var c := ReplaceAll(Anchor, b);
    var d := ReplaceAll(Strong, c);
    var e := ReplaceAll(Emphasis, d);
    ReplaceAllShorter(NoBreakSpan, t);
    ReplaceAllShorter(AnySpan, a);
    ReplaceAllShorter(Anchor, b);
    ReplaceAllShorter(Strong, c);
    ReplaceAllShorter(Emphasis, d);
    ReplaceAllShorter(Nbsp, e);
  }

  /** Text without markup is only trimmed. */
  lemma CleanParagraphPlain(t: string)
    requires '<' !in t && '&' !in t
    ensures CleanParagraph(t) == Trim(t)
  {
    ReplaceAllPlain(NoBreakSpan, t);
    ReplaceAllPlain(AnySpan, t);
    ReplaceAllPlain(Anchor, t);
    ReplaceAllPlain(Strong, t);
    ReplaceAllPlain(Emphasis, t);
    ReplaceAllPlain(Nbsp, t);
  }

  /** The Outro text holds no tag at all. */
  lemma CleanOutroNoTag(t: string)
    ensures NoTagIn(CleanOutro(t))
  {
    var a := ReplaceAll(AnyTag, t);
    var b := ReplaceAll(Nbsp, a);
    AnyTagRemovesAll(t);
    NbspKeepsNoTag(a);
    TrimSpec(b);
    var k := LeadingSpaces(b);
    NoTagSlice(b, k, k + |Trim(b)|);
  }

  /** Text without markup is only trimmed in the Outro too. */
  lemma CleanOutroPlain(t: string)
    requires '<' !in t && '&' !in t
    ensures CleanOutro(t) == Trim(t)
  {
    ReplaceAllPlain(AnyTag, t);
    ReplaceAllPlain(Nbsp, t);
  }
}
