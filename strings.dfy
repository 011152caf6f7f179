/** The JavaScript string operations the pipeline relies on, each with the
    semantics of the ECMAScript built-in it stands for. */
module Strings {
  import opened Wrappers

  /** The characters JavaScript's `trim` removes and `\s` matches: white space
      and line terminators. */
  predicate IsSpace(c: char) {
    || c == ' ' || c == '\t' || c == '\n' || c == '\r' || c == '\U{000B}' || c == '\U{000C}'
    || c == '\U{00A0}' || c == '\U{1680}' || ('\U{2000}' <= c <= '\U{200A}')
    || c == '\U{2028}' || c == '\U{2029}' || c == '\U{202F}' || c == '\U{205F}'
    || c == '\U{3000}' || c == '\U{FEFF}'
  }

  predicate AllSpace(s: string) {
    forall i :: 0 <= i < |s| ==> IsSpace(s[i])
  }

  /** Number of white-space characters at the start of `s`. */
  function LeadingSpaces(s: string): (n: nat)
    ensures n <= |s|
    ensures n < |s| ==> !IsSpace(s[n])
  {
    if s == [] || !IsSpace(s[0]) then 0 else 1 + LeadingSpaces(s[1..])
  }

  lemma {:induction false} LeadingSpacesAreSpace(s: string)
    ensures forall i :: 0 <= i < LeadingSpaces(s) ==> IsSpace(s[i])
  {
    if s != [] && IsSpace(s[0]) {
      LeadingSpacesAreSpace(s[1..]);
      forall i | 0 <= i < LeadingSpaces(s) ensures IsSpace(s[i]) {
        if i > 0 { assert s[i] == s[1..][i - 1]; }
      }
    }
  }

  /** Number of white-space characters at the end of `s`. */
  function TrailingSpaces(s: string): (n: nat)
    ensures n <= |s|
    ensures n < |s| ==> !IsSpace(s[|s| - n - 1])
  {
    if s == [] || !IsSpace(s[|s| - 1]) then 0 else 1 + TrailingSpaces(s[..|s| - 1])
  }

  lemma {:induction false} TrailingSpacesAreSpace(s: string)
    ensures forall i :: |s| - TrailingSpaces(s) <= i < |s| ==> IsSpace(s[i])
  {
    if s != [] && IsSpace(s[|s| - 1]) {
      var p := s[..|s| - 1];
      TrailingSpacesAreSpace(p);
      forall i | |s| - TrailingSpaces(s) <= i < |s| ensures IsSpace(s[i]) {
        if i < |s| - 1 { assert s[i] == p[i]; }
      }
    }
  }

  /** `r` is `s` with white space removed at both ends and nothing else. */
  ghost predicate TrimmedOf(s: string, r: string, a: nat) {
    && a + |r| <= |s|
    && (forall i :: 0 <= i < a ==> IsSpace(s[i]))
    && s[a..a + |r|] == r
    && (forall i :: a + |r| <= i < |s| ==> IsSpace(s[i]))
  }

  /** JavaScript's `String.prototype.trim`: the text between the leading and
      the trailing white space. */
  function Trim(s: string): (r: string)
    ensures |r| <= |s|
    ensures r == [] || (!IsSpace(r[0]) && !IsSpace(r[|r| - 1]))
  {
    var a := LeadingSpaces(s);
    var t := s[a..];
    t[..|t| - TrailingSpaces(t)]
  }

  /** Trimming removes white space at both ends and nothing else; it leaves
      nothing exactly when the text is all white space. */
  lemma TrimSpec(s: string)
    ensures TrimmedOf(s, Trim(s), LeadingSpaces(s))
  {
    var a := LeadingSpaces(s);
    var t := s[a..];
    var b := TrailingSpaces(t);
    LeadingSpacesAreSpace(s);
    TrailingSpacesAreSpace(t);
    forall i | |s| - b <= i < |s| ensures IsSpace(s[i]) {
      assert s[i] == t[i - a];
    }
  }

  lemma TrimEmpty(s: string)
    ensures Trim(s) == [] <==> AllSpace(s)
  {
    TrimSpec(s);
    if AllSpace(s) {
      assert LeadingSpaces(s) == |s|;
    }
  }

  /** `!s.trim()`: the text is empty or only white space. */
  predicate IsBlank(s: string) {
    Trim(s) == []
  }

  /** Trimming a string that has no white space at either end changes nothing;
      in particular trimming is idempotent. */
  lemma TrimNoop(s: string)
    requires s == [] || (!IsSpace(s[0]) && !IsSpace(s[|s| - 1]))
    ensures Trim(s) == s
  {
  }

  lemma TrimIdempotent(s: string)
    ensures Trim(Trim(s)) == Trim(s)
  {
    TrimNoop(Trim(s));
  }

  /** White space in front of a text does not change its trimmed form. */
  lemma {:induction false} TrimAfterSpace(p: string, t: string)
    requires AllSpace(p)
    ensures Trim(p + t) == Trim(t)
    decreases |p|
  {
    if p != [] {
      var x := p + t;
      assert x[0] == p[0] && IsSpace(p[0]);
      assert x[1..] == p[1..] + t;
      assert LeadingSpaces(x) == 1 + LeadingSpaces(x[1..]);
      assert (x[1..])[LeadingSpaces(x[1..])..] == x[LeadingSpaces(x)..];
      assert Trim(x) == Trim(x[1..]);
      assert AllSpace(p[1..]) by {
        forall i | 0 <= i < |p[1..]| ensures IsSpace(p[1..][i]) { assert p[1..][i] == p[i + 1]; }
      }
      TrimAfterSpace(p[1..], t);
    } else {
      assert p + t == t;
    }
  }

  /** ASCII case mapping (`toLowerCase` restricted to A-Z). */
  function LowerChar(c: char): (d: char)
    ensures 'A' <= c <= 'Z' ==> d as int == c as int + 32
    ensures !('A' <= c <= 'Z') ==> d == c
  {
    if 'A' <= c <= 'Z' then (c as int + 32) as char else c
  }

  /** ASCII case mapping (`toUpperCase` restricted to a-z). */
  function UpperChar(c: char): (d: char)
    ensures 'a' <= c <= 'z' ==> d as int == c as int - 32
    ensures !('a' <= c <= 'z') ==> d == c
  {
    if 'a' <= c <= 'z' then (c as int - 32) as char else c
  }

  function Lower(s: string): (r: string)
    ensures |r| == |s|
    ensures forall i :: 0 <= i < |s| ==> r[i] == LowerChar(s[i])
  {
    if s == [] then [] else [LowerChar(s[0])] + Lower(s[1..])
  }

  /** `.length`: the number of UTF-16 code units. */
  function Utf16Length(s: string): (n: nat)
    ensures |s| <= n <= 2 * |s|
  {
    if s == [] then 0
    else (if s[0] as int >= 0x1_0000 then 2 else 1) + Utf16Length(s[1..])
  }

  predicate StartsWith(s: string, p: string) {
    |p| <= |s| && s[..|p|] == p
  }

  predicate EndsWith(s: string, p: string) {
    |p| <= |s| && s[|s| - |p|..] == p
  }

  lemma StartsWithPrefix(p: string, q: string)
    ensures StartsWith(p + q, p)
  {
    assert (p + q)[..|p|] == p;
  }

  lemma EndsWithSuffix(p: string, q: string)
    ensures EndsWith(p + q, q)
  {
    assert (p + q)[|p|..] == q;
  }

  /** `pat` occurs in `s` starting at index `i`. */
  predicate MatchesAt(s: string, pat: string, i: nat) {
    i + |pat| <= |s| && s[i..i + |pat|] == pat
  }

  /** `s.indexOf(pat, from)`, absent when there is no occurrence. */
  function FindFrom(s: string, pat: string, from: nat): (r: Option<nat>)
    requires from <= |s|
    ensures r.Some? ==> from <= r.value && MatchesAt(s, pat, r.value)
    decreases |s| - from
  {
    if MatchesAt(s, pat, from) then Some(from)
    else if from == |s| then None
    else FindFrom(s, pat, from + 1)
  }

  /** `FindFrom` finds the first occurrence, and finds nothing only when there is none. */
  lemma {:induction false} FindFromFirst(s: string, pat: string, from: nat, j: nat)
    requires from <= j <= |s|
    requires FindFrom(s, pat, from).None? || j < FindFrom(s, pat, from).value
    ensures !MatchesAt(s, pat, j)
    decreases |s| - from
  {
    if from < j {
      FindFromFirst(s, pat, from + 1, j);
    }
  }

  /** `s.includes(pat)`. */
  predicate Contains(s: string, pat: string) {
    ContainsFrom(s, pat, 0)
  }

  /** `pat` occurs in `s` at or after `from`. */
  predicate ContainsFrom(s: string, pat: string, from: nat)
    decreases |s| - from
  {
    from <= |s| && (MatchesAt(s, pat, from) || (from < |s| && ContainsFrom(s, pat, from + 1)))
  }

  lemma {:induction false} ContainsFromAt(s: string, pat: string, from: nat, i: nat)
    requires from <= i && MatchesAt(s, pat, i)
    ensures ContainsFrom(s, pat, from)
    decreases i - from
  {
    if from < i {
      ContainsFromAt(s, pat, from + 1, i);
    }
  }

  lemma ContainsAt(s: string, pat: string, i: nat)
    requires MatchesAt(s, pat, i)
    ensures Contains(s, pat)
  {
    ContainsFromAt(s, pat, 0, i);
  }

  lemma {:induction false} ContainsFromWitness(s: string, pat: string, from: nat) returns (i: nat)
    requires ContainsFrom(s, pat, from)
    ensures from <= i && MatchesAt(s, pat, i)
    decreases |s| - from
  {
    if MatchesAt(s, pat, from) {
      i := from;
    } else {
      i := ContainsFromWitness(s, pat, from + 1);
    }
  }

  lemma ContainsWitness(s: string, pat: string) returns (i: nat)
    requires Contains(s, pat)
    ensures MatchesAt(s, pat, i)
  {
    i := ContainsFromWitness(s, pat, 0);
  }

  lemma {:induction false} NotContainsFrom(s: string, pat: string, from: nat)
    requires forall i :: from <= i <= |s| ==> !MatchesAt(s, pat, i)
    ensures !ContainsFrom(s, pat, from)
    decreases |s| - from
  {
    if from < |s| {
      NotContainsFrom(s, pat, from + 1);
    }
  }

  /** A pattern whose first character does not occur is not contained. */
  lemma FirstCharAbsent(s: string, pat: string)
    requires pat != [] && pat[0] !in s
    ensures !Contains(s, pat)
  {
    forall i | 0 <= i <= |s| ensures !MatchesAt(s, pat, i) {
      if i < |s| {
        assert s[i] != pat[0];
        assert i + |pat| <= |s| ==> s[i..i + |pat|][0] == s[i];
      }
    }
    NotContainsFrom(s, pat, 0);
  }

  /** `includes` and `indexOf` agree. */
  lemma ContainsFind(s: string, pat: string)
    ensures Contains(s, pat) <==> FindFrom(s, pat, 0).Some?
  {
    if Contains(s, pat) {
      var i := ContainsWitness(s, pat);
      if FindFrom(s, pat, 0).None? {
        FindFromFirst(s, pat, 0, i);
      }
    }
    if FindFrom(s, pat, 0).Some? {
      ContainsAt(s, pat, FindFrom(s, pat, 0).value);
    }
  }

  /** `s.replace(pat, rep)` with a string pattern: the first occurrence only. */
  function ReplaceFirst(s: string, pat: string, rep: string): (r: string)
  {
    match FindFrom(s, pat, 0)
    case None => s
    case Some(k) => s[..k] + rep + s[k + |pat|..]
  }

  /** Index of the first `c` at or after `from`, or `|s|` when there is none. */
  function NextChar(s: string, from: nat, c: char): (k: nat)
    requires from <= |s|
    ensures from <= k <= |s|
    ensures k < |s| ==> s[k] == c
    ensures forall j :: from <= j < k ==> s[j] != c
    decreases |s| - from
  {
    if from == |s| || s[from] == c then from else NextChar(s, from + 1, c)
  }

  /** `NextChar` passes over a stretch without `c`. */
  lemma {:induction false} NextCharSkip(s: string, from: nat, stop: nat, c: char)
    requires from <= stop <= |s|
    requires forall j :: from <= j < stop ==> s[j] != c
    ensures NextChar(s, from, c) == NextChar(s, stop, c)
    decreases stop - from
  {
    if from < stop {
      NextCharSkip(s, from + 1, stop, c);
    }
  }

  /** `NextChar` stops at the first `c`. */
  lemma NextCharAt(s: string, from: nat, c: char, k: nat)
    requires from <= k < |s| && s[k] == c
    requires forall j :: from <= j < k ==> s[j] != c
    ensures NextChar(s, from, c) == k
  {
  }

  /** `parts.join("")`. */
  function Concat(parts: seq<string>): (r: string)
  {
    if parts == [] then [] else parts[0] + Concat(parts[1..])
  }

  lemma {:induction false} ConcatAppend(a: seq<string>, b: seq<string>)
    ensures Concat(a + b) == Concat(a) + Concat(b)
  {
    if a == [] {
      assert a + b == b;
    } else {
      assert (a + b)[1..] == a[1..] + b;
      ConcatAppend(a[1..], b);
    }
  }

  /** `parts.join(sep)`. */
  function Join(parts: seq<string>, sep: string): (r: string)
  {
    if parts == [] then []
    else if |parts| == 1 then parts[0]
    else parts[0] + sep + Join(parts[1..], sep)
  }

  /** Regrouping a sequence of appends (of lines, or of characters); stated
      once so that long chains can be regrouped one step at a time. */
  lemma AppendAssoc<T>(a: seq<T>, b: seq<T>, c: seq<T>)
    ensures a + b + c == a + (b + c)
  {
  }

  lemma JoinCons(x: string, rest: seq<string>, sep: string)
    requires rest != []
    ensures Join([x] + rest, sep) == x + sep + Join(rest, sep)
  {
    assert ([x] + rest)[1..] == rest;
  }

  lemma {:induction false} JoinSnoc(parts: seq<string>, x: string, sep: string)
    requires parts != []
    ensures Join(parts + [x], sep) == Join(parts, sep) + sep + x
  {
    if |parts| > 1 {
      assert (parts + [x])[1..] == parts[1..] + [x];
      JoinSnoc(parts[1..], x, sep);
    }
  }

  lemma {:induction false} JoinAppend(a: seq<string>, b: seq<string>, sep: string)
    requires a != [] && b != []
    ensures Join(a + b, sep) == Join(a, sep) + sep + Join(b, sep)
  {
    if |a| > 1 {
      assert (a + b)[1..] == a[1..] + b;
      JoinAppend(a[1..], b, sep);
    }
  }

  /** `s.split(sep)` for a one-character separator. Joining the pieces with the
      separator gives `s` back, and no piece contains the separator. */
  function Split(s: string, sep: char): (r: seq<string>)
    ensures |r| >= 1
    ensures forall i :: 0 <= i < |r| ==> sep !in r[i]
    ensures Join(r, [sep]) == s
    decreases |s|
  {
    var k := NextChar(s, 0, sep);
    if k == |s| then
      assert sep !in s;
      [s]
    else
      var rest := Split(s[k + 1..], sep);
      assert sep !in s[..k];
      assert s == s[..k] + [sep] + s[k + 1..];
      [s[..k]] + rest
  }

  /** `s.split(sep).pop()`: the text after the last `sep`, all of `s` when it
      has none. */
  function LastPiece(s: string, sep: char): (r: string)
    ensures sep !in r
    ensures EndsWith(s, r)
    ensures |r| < |s| ==> s[|s| - |r| - 1] == sep
  {
    var parts := Split(s, sep);
    LastOfJoin(parts, sep);
    parts[|parts| - 1]
  }

  lemma {:induction false} LastOfJoin(parts: seq<string>, sep: char)
    requires |parts| >= 1
    ensures var s, r := Join(parts, [sep]), parts[|parts| - 1];
      EndsWith(s, r) && (|r| < |s| ==> s[|s| - |r| - 1] == sep)
  {
    if |parts| > 1 {
      LastOfJoin(parts[1..], sep);
    }
  }

  /** A piece of `s` without white space, for `split(/\s+/)`. */
  function NonSpaceRun(s: string): (n: nat)
    ensures n <= |s|
    ensures forall j :: 0 <= j < n ==> !IsSpace(s[j])
    ensures n < |s| ==> IsSpace(s[n])
  {
    if s == [] || IsSpace(s[0]) then 0 else 1 + NonSpaceRun(s[1..])
  }

  /** The non-empty pieces of `s.split(/\s+/)`, in order. */
  function Words(s: string): (r: seq<string>)
    ensures forall i :: 0 <= i < |r| ==> r[i] != [] && forall j :: 0 <= j < |r[i]| ==> !IsSpace(r[i][j])
    decreases |s|
  {
    var a := LeadingSpaces(s);
    if a == |s| then []
    else
      var t := s[a..];
      var n := NonSpaceRun(t);
      [t[..n]] + Words(t[n..])
  }

  function DigitChar(d: nat): (c: char)
    requires d < 10
    ensures '0' <= c <= '9' && c as int - '0' as int == d
  {
    (d + '0' as int) as char
  }

  predicate AllDigits(s: string) {
    forall i :: 0 <= i < |s| ==> '0' <= s[i] <= '9'
  }

  /** The number a string of decimal digits denotes. */
  function DigitsValue(s: string): nat
    requires AllDigits(s)
  {
    if s == [] then 0 else 10 * DigitsValue(s[..|s| - 1]) + (s[|s| - 1] as int - '0' as int)
  }

  /** JavaScript's rendering of a non-negative integer: its shortest decimal
      digit string, which reads back as the same number. */
  function NatToString(n: nat): (r: string)
    ensures r != [] && AllDigits(r)
    ensures |r| > 1 ==> r[0] != '0'
    ensures DigitsValue(r) == n
  {
    if n < 10 then [DigitChar(n)]
    else
      var r := NatToString(n / 10) + [DigitChar(n % 10)];
      assert r[..|r| - 1] == NatToString(n / 10);
      r
  }

  /** JavaScript's rendering of an integer. */
  function IntToString(i: int): (r: string)
    ensures i >= 0 ==> r == NatToString(i)
    ensures i < 0 ==> r == "-" + NatToString(-i)
  {
    if i < 0 then "-" + NatToString(-i) else NatToString(i)
  }
}
