/** The slug variation generator: from a free-text query, the ordered list of
    URL slugs to try on the lyrics site (src/search-lyrics.tsx,
    `generateComprehensiveVariations` and the older `generateQueryVariations`). */
module Slugs {
  import opened Strings
  import opened Regex
  import opened Seqs

  /** `query.toLowerCase().trim()`. */
  function CleanQuery(query: string): string {
    Trim(Lower(query))
  }

  /** `.replace(/[^a-z0-9\s]/g, '')`: the letters, digits and white space
      of `s`, in order. */
  function StripNonSlug(s: string): (r: string)
    ensures forall c :: c in r ==> IsLowerAlnum(c) || IsSpace(c)
    ensures r == Drop(s, NotLowerAlnumOrSpace)
  {
    var r := ReplaceAll(Single(NotLowerAlnumOrSpace), s, "");
    ReplaceKeeps(Single(NotLowerAlnumOrSpace), s, "", 0, c => IsLowerAlnum(c) || IsSpace(c));
    ReplaceDrop(Single(NotLowerAlnumOrSpace), s, "", NotLowerAlnumOrSpace);
    forall k | 0 <= k < |r| ensures !In(r[k], NotLowerAlnumOrSpace) {
      assert r[k] in r;
    }
    DropNone(r, NotLowerAlnumOrSpace);
    r
  }

  /** `.replace(/\s+/g, '-')`. */
  function Hyphenate(s: string): string {
    ReplaceAll(Run(WhiteSpace, 1), s, "-")
  }

  /** On slug characters and spaces, hyphenating leaves slug characters only. */
  lemma HyphenateSlug(s: string)
    requires forall c :: c in s ==> IsLowerAlnum(c) || IsSpace(c)
    ensures forall c :: c in Hyphenate(s) ==> IsLowerAlnum(c) || c == '-'
  {
    var p := Run(WhiteSpace, 1);
    forall j | 0 <= j < |s| && MatchLen(p, s, j) == 0 ensures IsLowerAlnum(s[j]) {
      assert s[j] in s;
      assert RunLen(s, j, WhiteSpace) == 0;
    }
    ReplaceKeeps(p, s, "-", 0, c => IsLowerAlnum(c) || c == '-');
  }

  /** `.replace(/--+/g, '-')`: no two hyphens in a row remain, the other
      characters are kept in order, and a text without repeated hyphens is
      left as it is. */
  function CollapseHyphens(s: string): (r: string)
    ensures NoRun(r, '-', 2)
    ensures Drop(r, Exactly('-')) == Drop(s, Exactly('-'))
    ensures NoRun(s, '-', 2) ==> r == s
  {
    var p := Run(Exactly('-'), 2);
    CollapseRuns('-', s, "-", 0);
    ReplaceDrop(p, s, "-", Exactly('-'));
    SingleHyphensKept(s);
    ReplaceAll(p, s, "-")
  }

  lemma SingleHyphensKept(s: string)
    ensures NoRun(s, '-', 2) ==> ReplaceAll(Run(Exactly('-'), 2), s, "-") == s
  {
    var p := Run(Exactly('-'), 2);
    if NoRun(s, '-', 2) {
      forall k | 0 <= k < |s| ensures MatchLen(p, s, k) == 0 {
        if RunLen(s, k, Exactly('-')) >= 2 {
          assert RunAt(s, k, '-', 2);
        }
      }
      NoMatchIdentity(p, s, "-");
    }
  }

  /** Collapsing hyphens brings in no character other than a hyphen. */
  lemma CollapseSlug(s: string)
    requires forall c :: c in s ==> IsLowerAlnum(c) || c == '-'
    ensures forall c :: c in CollapseHyphens(s) ==> IsLowerAlnum(c) || c == '-'
  {
    var p := Run(Exactly('-'), 2);
    forall j | 0 <= j < |s| && MatchLen(p, s, j) == 0 ensures IsLowerAlnum(s[j]) || s[j] == '-' {
      assert s[j] in s;
    }
    ReplaceKeeps(p, s, "-", 0, c => IsLowerAlnum(c) || c == '-');
  }

  /** The base slug: lower-cased, trimmed, stripped to `[a-z0-9\s]`, white
      space runs hyphenated, repeated hyphens collapsed. Apart from its
      hyphens it holds exactly the letters and digits of the lower-cased
      query, in order. */
  function BaseSlug(query: string): (b: string)
    ensures forall c :: c in b ==> IsLowerAlnum(c) || c == '-'
    ensures NoRun(b, '-', 2)
    ensures Drop(b, NotLowerAlnum) == Drop(Lower(query), NotLowerAlnum)
  {
    var stripped := StripNonSlug(CleanQuery(query));
    HyphenateSlug(stripped);
    CollapseSlug(Hyphenate(stripped));
    BaseSlugLetters(query);
    CollapseHyphens(Hyphenate(stripped))
  }

  lemma BaseSlugLetters(query: string)
    ensures var h := Hyphenate(StripNonSlug(CleanQuery(query)));
      Drop(CollapseHyphens(h), NotLowerAlnum) == Drop(Lower(query), NotLowerAlnum)
  {
    var cq := CleanQuery(query);
    var stripped := StripNonSlug(cq);
    var h := Hyphenate(stripped);
    DropTrim(Lower(query), NotLowerAlnum);
    StripKeepsLetters(cq);
    HyphenateKeepsLetters(stripped);
    CollapseKeepsLetters(h);
  }

  lemma StripKeepsLetters(s: string)
    ensures Drop(StripNonSlug(s), NotLowerAlnum) == Drop(s, NotLowerAlnum)
  {
    ReplaceDrop(Single(NotLowerAlnumOrSpace), s, "", NotLowerAlnum);
  }

  lemma HyphenateKeepsLetters(s: string)
    ensures Drop(Hyphenate(s), NotLowerAlnum) == Drop(s, NotLowerAlnum)
  {
    ReplaceDrop(Run(WhiteSpace, 1), s, "-", NotLowerAlnum);
  }

  lemma CollapseKeepsLetters(s: string)
    ensures Drop(CollapseHyphens(s), NotLowerAlnum) == Drop(s, NotLowerAlnum)
  {
    ReplaceDrop(Run(Exactly('-'), 2), s, "-", NotLowerAlnum);
  }

  /** The first three candidates: the base slug and its two lyrics suffixes. */
  function BaseTriple(b: string): seq<string> {
    [b, b + "-song-lyrics", b + "-lyrics"]
  }

  /** The battery of rewrites of the clean query, in the order they are tried. */
  function CommonPatterns(cq: string): (ps: seq<string>)
    ensures |ps| == 9
  {
    [ ReplaceAll(Word("bless"), cq, "bless"),
      ReplaceAll(WordPair("god", "bless"), cq, "godbless"),
      ReplaceAll(Word("anirudh"), cq, "anirudh-ravichander"),
      ReplaceAll(WordPair("paal", "dabba"), cq, "paaldabba"),
      ReplaceAll(SpacesThenWord(["song", "lyrics"]), cq, ""),
      ReplaceAll(Run(WhiteSpace, 1), cq, ""),
      ReplaceAll(Run(WhiteSpace, 1), cq, "-") + "-song",
      ReplaceAll(Run(WhiteSpace, 1), cq, "-") + "-tamil-lyrics",
      ReplaceAll(Run(WhiteSpace, 1), cq, "") + "-lyrics" ]
  }

  /** `pattern.replace(/\s+/g, '-').replace(/--+/g, '-')`. */
  function FormatPattern(pattern: string): string {
    CollapseHyphens(Hyphenate(pattern))
  }

  /** One round of the pattern loop: a pattern longer than two characters is
      formatted and pushed unless `variations.includes` it already. */
  function AddPattern(variations: seq<string>, pattern: string): seq<string> {
    if |pattern| > 2 then
      var formatted := FormatPattern(pattern);
      if formatted in variations then variations else variations + [formatted]
    else variations
  }

  /** The pattern loop over `patterns`, in order. */
  function AddPatterns(variations: seq<string>, patterns: seq<string>): (r: seq<string>)
    ensures |variations| <= |r| <= |variations| + |patterns|
    ensures r[..|variations|] == variations
  {
    if patterns == [] then variations
    else AddPattern(AddPatterns(variations, patterns[..|patterns| - 1]), patterns[|patterns| - 1])
  }

  /** The query with the whole word "song" removed, re-slugged (without the
      final hyphen collapse the base slug gets). */
  function WithoutSong(cq: string): string {
    Hyphenate(StripNonSlug(Trim(ReplaceAll(Word("song"), cq, ""))))
  }

  /** The two "without song" forms, pushed only for a query containing "song". */
  function SongForms(cq: string): (r: seq<string>)
    ensures |r| <= 2
  {
    if Contains(cq, "song") then
      var w := WithoutSong(cq);
      [w, w + "-lyrics"]
    else []
  }

  /** Everything pushed before the final deduplication, from the base slug
      and the clean query. */
  function Pushed(b: string, cq: string): (r: seq<string>)
    ensures 3 <= |r| <= 14 && r[..3] == BaseTriple(b)
  {
    var v := AddPatterns(BaseTriple(b), CommonPatterns(cq));
    assert (v + SongForms(cq))[..3] == v[..3];
    v + SongForms(cq)
  }

  function RawVariations(query: string): seq<string> {
    Pushed(BaseSlug(query), CleanQuery(query))
  }

  /** `.filter(v => v && v.length > 1)`. */
  function KeepLong(s: seq<string>): (r: seq<string>)
    ensures |r| <= |s|
    ensures forall i :: 0 <= i < |r| ==> |r[i]| > 1
  {
    if s == [] then []
    else if |s[0]| > 1 then [s[0]] + KeepLong(s[1..])
    else KeepLong(s[1..])
  }

  /** The kept entries are exactly the entries longer than one character. */
  lemma {:induction false} KeepLongMembers(s: seq<string>)
    ensures forall x :: x in KeepLong(s) <==> x in s && |x| > 1
  {
    if s != [] {
      KeepLongMembers(s[1..]);
      assert s == [s[0]] + s[1..];
    }
  }

  lemma {:induction false} KeepLongAllLong(s: seq<string>)
    requires forall i :: 0 <= i < |s| ==> |s[i]| > 1
    ensures KeepLong(s) == s
  {
    if s != [] {
      KeepLongAllLong(s[1..]);
    }
  }

  lemma {:induction false} KeepLongConcat(a: seq<string>, b: seq<string>)
    ensures KeepLong(a + b) == KeepLong(a) + KeepLong(b)
  {
    if a != [] {
      KeepLongConcat(a[1..], b);
      assert (a + b)[1..] == a[1..] + b;
    } else {
      assert a + b == b;
    }
  }

  /** The kept entries form a subsequence of the input. */
  lemma {:induction false} KeepLongSubseq(s: seq<string>)
    ensures exists idx :: SubseqAt(s, KeepLong(s), idx)
  {
    if s == [] {
      var none: seq<nat> := [];
      assert SubseqAt(s, KeepLong(s), none);
    } else {
      KeepLongSubseq(s[1..]);
      var k := KeepLong(s[1..]);
      var idx: seq<nat> :| SubseqAt(s[1..], k, idx);
      SubseqOfTail(s, k, idx);
      if |s[0]| > 1 {
        SubseqCons(s, k, Shift(idx));
        assert KeepLong(s) == [s[0]] + k;
      } else {
        assert KeepLong(s) == k;
      }
    }
  }

  lemma KeepLongOrder(s: seq<string>, src: seq<string>)
    requires forall i :: 0 <= i < |s| ==> s[i] in src
    requires NoDups(s) && InFirstSeenOrder(s, src)
    ensures NoDups(KeepLong(s))
    ensures (forall i :: 0 <= i < |KeepLong(s)| ==> KeepLong(s)[i] in src)
      && InFirstSeenOrder(KeepLong(s), src)
  {
    KeepLongSubseq(s);
    var idx: seq<nat> :| SubseqAt(s, KeepLong(s), idx);
    SubseqKeepsOrder(s, KeepLong(s), idx, src);
  }

  /** `generateComprehensiveVariations(query)`. */
  function ComprehensiveVariations(query: string): seq<string> {
    KeepLong(Dedup(RawVariations(query)))
  }

  /** The pattern loop: each pattern longer than two characters is
      formatted and pushed unless it is already present. */
  method PushPatterns(start: seq<string>, patterns: seq<string>) returns (variations: seq<string>)
    ensures variations == AddPatterns(start, patterns)
  {
    variations := start;
    var i := 0;
    while i < |patterns|
      invariant 0 <= i <= |patterns|
      invariant variations == AddPatterns(start, patterns[..i])
    {
      var pattern := patterns[i];
      if |pattern| > 2 {
        var formatted := CollapseHyphens(Hyphenate(pattern));
        if formatted !in variations {
          variations := variations + [formatted];
        }
      }
      assert patterns[..i + 1][..i] == patterns[..i];
      i := i + 1;
    }
    assert patterns[..i] == patterns;
  }

  /** The generator itself: the base forms, the pattern loop, the "without
      song" forms, then the `Set` deduplication and the length filter. */
  method GenerateComprehensiveVariations(query: string) returns (variations: seq<string>)
    ensures variations == ComprehensiveVariations(query)
  {
    var cleanQuery := Trim(Lower(query));
    var baseUrl := CollapseHyphens(Hyphenate(StripNonSlug(cleanQuery)));
    variations := PushPatterns([baseUrl, baseUrl + "-song-lyrics", baseUrl + "-lyrics"], CommonPatterns(cleanQuery));
    if Contains(cleanQuery, "song") {
      var withoutSong := Hyphenate(StripNonSlug(Trim(ReplaceAll(Word("song"), cleanQuery, ""))));
      variations := variations + [withoutSong, withoutSong + "-lyrics"];
    } else {
      assert variations + SongForms(cleanQuery) == variations;
    }
    variations := KeepLong(Dedup(variations));
  }

  /** Deduplicating and then dropping the one-character entries leaves
      distinct entries, longer than one character, exactly the long entries of
      the input, in the order each was first seen. */
  lemma {:induction false} DedupKeepLong(raw: seq<string>)
    ensures var v := KeepLong(Dedup(raw));
      NoDups(v)
      && (forall i :: 0 <= i < |v| ==> |v[i]| > 1)
      && |v| <= |raw|
      && (forall x :: x in v <==> x in raw && |x| > 1)
      && InFirstSeenOrder(v, raw)
  {
    var d := Dedup(raw);
    DedupFirstSeen(raw);
    KeepLongOrder(d, raw);
    KeepLongMembers(d);
    forall x | x in raw ensures x in d {
      var k :| 0 <= k < |raw| && raw[k] == x;
    }
    forall x | x in d ensures x in raw {
      var m :| 0 <= m < |d| && d[m] == x;
    }
  }

  /** The candidates are distinct, each longer than one character, at most 14
      of them (3 base forms, 9 patterns, 2 "without song" forms), and they are
      exactly the pushed candidates longer than one character, in the order
      each was first pushed. */
  lemma VariationsWellFormed(query: string)
    ensures var v := ComprehensiveVariations(query);
      NoDups(v)
      && (forall i :: 0 <= i < |v| ==> |v[i]| > 1)
      && |v| <= 14
      && (forall x :: x in v <==> x in RawVariations(query) && |x| > 1)
      && InFirstSeenOrder(v, RawVariations(query))
  {
    DedupKeepLong(RawVariations(query));
  }

  /** Filtering keeps a long prefix in place. */
  lemma KeepLongPrefix(t: seq<string>, x: seq<string>)
    requires |x| >= |t| && x[..|t|] == t
    requires forall i :: 0 <= i < |t| ==> |t[i]| > 1
    ensures |KeepLong(x)| >= |t| && KeepLong(x)[..|t|] == t
  {
    assert x == t + x[|t|..];
    KeepLongConcat(t, x[|t|..]);
    KeepLongAllLong(t);
  }

  /** A distinct prefix of long entries survives deduplication and
      filtering in place. */
  lemma DedupKeepLongPrefix(t: seq<string>, raw: seq<string>)
    requires |raw| >= |t| && raw[..|t|] == t
    requires NoDups(t) && forall i :: 0 <= i < |t| ==> |t[i]| > 1
    ensures |KeepLong(Dedup(raw))| >= |t| && KeepLong(Dedup(raw))[..|t|] == t
  {
    assert raw == t + raw[|t|..];
    DedupDistinctPrefix(t, raw[|t|..]);
    KeepLongPrefix(t, Dedup(raw));
  }

  lemma BaseTripleDistinct(b: string)
    ensures NoDups(BaseTriple(b))
    ensures |b| > 1 ==> forall i :: 0 <= i < 3 ==> |BaseTriple(b)[i]| > 1
  {
    var t := BaseTriple(b);
    assert |t[0]| < |t[2]| < |t[1]|;
  }

  /** When the base slug is longer than one character the list begins with
      the base slug, then "-song-lyrics", then "-lyrics". */
  lemma VariationsStartWithBase(query: string)
    requires |BaseSlug(query)| > 1
    ensures var b := BaseSlug(query);
      |ComprehensiveVariations(query)| >= 3
      && ComprehensiveVariations(query)[..3] == [b, b + "-song-lyrics", b + "-lyrics"]
  {
    var b := BaseSlug(query);
    BaseTripleDistinct(b);
    DedupKeepLongPrefix(BaseTriple(b), RawVariations(query));
  }

  /** `generateQueryVariations` (not called anywhere): the base triple and, for
      a query containing "song", the two "without song" forms; no
      deduplication and no length filter. */
  function QueryVariations(query: string): seq<string> {
    var cq := CleanQuery(query);
    var b := BaseSlug(query);
    if Contains(cq, "song") then
      var w := WithoutSong(cq);
      BaseTriple(b) + [w, w + "-lyrics"]
    else BaseTriple(b)
  }

  /** Every candidate of the simpler generator that the comprehensive one
      would keep (longer than one character) is among its candidates. */
  lemma QueryVariationsSubsumed(query: string)
    ensures forall x :: x in QueryVariations(query) && |x| > 1 ==> x in ComprehensiveVariations(query)
  {
    var raw := RawVariations(query);
    var t := BaseTriple(BaseSlug(query));
    assert raw[..3] == t;
    VariationsWellFormed(query);
    forall x | x in QueryVariations(query) && |x| > 1 ensures x in raw {
      if x in t {
        assert x in raw[..3];
      }
    }
  }

  // An example: "happy birthday"

  /** Two words joined by one space are hyphenated to two words joined by
      one hyphen. */
  lemma HyphenateTwoWords(a: string, b: string)
    requires a != [] && b != []
    requires forall k :: 0 <= k < |a| ==> !IsSpace(a[k])
    requires forall k :: 0 <= k < |b| ==> !IsSpace(b[k])
    ensures Hyphenate(a + " " + b) == a + "-" + b
  {
    var p, s, n := Run(WhiteSpace, 1), a + " " + b, |a|;
    TwoWordsMatches(a, b);
    CopySegment(p, s, "-", 0, n);
    CopySegment(p, s, "-", n + 1, |s|);
    assert ReplaceFrom(p, s, "-", n) == "-" + ReplaceFrom(p, s, "-", n + 1);
    assert ReplaceFrom(p, s, "-", |s|) == "";
    assert s[0..n] == a && s[n + 1..|s|] == b;
  }

  /** The only white space run in two words joined by a space is that space. */
  lemma TwoWordsMatches(a: string, b: string)
    requires a != [] && b != []
    requires forall k :: 0 <= k < |a| ==> !IsSpace(a[k])
    requires forall k :: 0 <= k < |b| ==> !IsSpace(b[k])
    ensures var p, s := Run(WhiteSpace, 1), a + " " + b;
      && (forall k :: 0 <= k < |s| && k != |a| ==> MatchLen(p, s, k) == 0)
      && MatchLen(p, s, |a|) == 1
  {
    var p, s, n := Run(WhiteSpace, 1), a + " " + b, |a|;
    forall k | 0 <= k < |s| && k != n ensures MatchLen(p, s, k) == 0 {
      if k < n {
        assert s[k] == a[k];
      } else {
        assert s[k] == b[k - n - 1];
      }
    }
    assert s[n + 1] == b[0];
  }

  /** A single hyphen between two hyphen-free words is no run. */
  lemma OneHyphen(a: string, b: string)
    requires '-' !in a && '-' !in b
    ensures NoRun(a + "-" + b, '-', 2)
  {
    var s := a + "-" + b;
    forall i | 0 <= i <= |s| ensures !RunAt(s, i, '-', 2) {
      if i + 2 <= |s| {
        if i < |a| {
          assert s[i] == a[i];
        } else {
          assert i + 1 > |a| && s[i + 1] == b[i - |a|];
        }
      }
    }
  }

  /** Two lower-case words joined by a space make the slug of the two words
      joined by a hyphen. */
  lemma BaseSlugTwoWords(a: string, b: string)
    requires a != [] && b != []
    requires forall k :: 0 <= k < |a| ==> IsLowerAlnum(a[k])
    requires forall k :: 0 <= k < |b| ==> IsLowerAlnum(b[k])
    ensures BaseSlug(a + " " + b) == a + "-" + b
  {
    TwoWordsSteps(a, b);
    BaseSlugOfSteps(a + " " + b, a + "-" + b);
  }

  lemma TwoWordsSteps(a: string, b: string)
    requires a != [] && b != []
    requires forall k :: 0 <= k < |a| ==> IsLowerAlnum(a[k])
    requires forall k :: 0 <= k < |b| ==> IsLowerAlnum(b[k])
    ensures var q, h := a + " " + b, a + "-" + b;
      CleanQuery(q) == q && StripNonSlug(q) == q && Hyphenate(q) == h && CollapseHyphens(h) == h
  {
    TwoWordsQuery(a, b);
    TwoWordsSlug(a, b);
  }

  lemma TwoWordsQuery(a: string, b: string)
    requires a != [] && b != []
    requires forall k :: 0 <= k < |a| ==> IsLowerAlnum(a[k])
    requires forall k :: 0 <= k < |b| ==> IsLowerAlnum(b[k])
    ensures var q := a + " " + b; CleanQuery(q) == q && StripNonSlug(q) == q
  {
    TwoWordsClean(a, b);
    TwoWordsStrip(a, b);
  }

  lemma TwoWordsSlug(a: string, b: string)
    requires a != [] && b != []
    requires forall k :: 0 <= k < |a| ==> IsLowerAlnum(a[k])
    requires forall k :: 0 <= k < |b| ==> IsLowerAlnum(b[k])
    ensures var q, h := a + " " + b, a + "-" + b; Hyphenate(q) == h && CollapseHyphens(h) == h
  {
    HyphenateTwoWords(a, b);
    TwoWordsCollapse(a, b);
  }

  lemma TwoWordsCollapse(a: string, b: string)
    requires forall k :: 0 <= k < |a| ==> IsLowerAlnum(a[k])
    requires forall k :: 0 <= k < |b| ==> IsLowerAlnum(b[k])
    ensures CollapseHyphens(a + "-" + b) == a + "-" + b
  {
    assert '-' !in a && '-' !in b by {
      assert forall c :: c in a ==> IsLowerAlnum(c);
      assert forall c :: c in b ==> IsLowerAlnum(c);
    }
    OneHyphen(a, b);
  }

  lemma BaseSlugOfSteps(q: string, h: string)
    requires CleanQuery(q) == q && StripNonSlug(q) == q && Hyphenate(q) == h && CollapseHyphens(h) == h
    ensures BaseSlug(q) == h
  {
    BaseSlugSteps(q);
  }

  lemma BaseSlugSteps(query: string)
    ensures BaseSlug(query) == CollapseHyphens(Hyphenate(StripNonSlug(CleanQuery(query))))
  {
  }

  lemma TwoWordsClean(a: string, b: string)
    requires a != [] && b != []
    requires forall k :: 0 <= k < |a| ==> IsLowerAlnum(a[k])
    requires forall k :: 0 <= k < |b| ==> IsLowerAlnum(b[k])
    ensures CleanQuery(a + " " + b) == a + " " + b
  {
    var q := a + " " + b;
    forall i | 0 <= i < |q| ensures IsLowerAlnum(q[i]) || q[i] == ' ' {
      if i < |a| {
        assert q[i] == a[i];
      } else if i > |a| {
        assert q[i] == b[i - |a| - 1];
      }
    }
    assert Lower(q) == q;
    assert q[0] == a[0] && q[|q| - 1] == b[|b| - 1];
    TrimOfTrimmed(q);
  }

  lemma TwoWordsStrip(a: string, b: string)
    requires forall k :: 0 <= k < |a| ==> IsLowerAlnum(a[k])
    requires forall k :: 0 <= k < |b| ==> IsLowerAlnum(b[k])
    ensures StripNonSlug(a + " " + b) == a + " " + b
  {
    var q := a + " " + b;
    forall i | 0 <= i < |q| ensures !In(q[i], NotLowerAlnumOrSpace) {
      if i < |a| {
        assert q[i] == a[i];
      } else if i > |a| {
        assert q[i] == b[i - |a| - 1];
      }
    }
    DropNone(q, NotLowerAlnumOrSpace);
  }

  const Happy := "happy"
  const Birthday := "birthday"

  /** "happy birthday" gives the slug "happy-birthday". */
  lemma HappySlug()
    ensures BaseSlug(Happy + " " + Birthday) == Happy + "-" + Birthday
  {
    assert forall k :: 0 <= k < |Happy| ==> IsLowerAlnum(Happy[k]);
    assert forall k :: 0 <= k < |Birthday| ==> IsLowerAlnum(Birthday[k]);
    BaseSlugTwoWords(Happy, Birthday);
  }

  /** ... and the candidates for it begin with that slug, then its
      "-song-lyrics" and "-lyrics" forms. */
  lemma HappyBirthday()
    ensures var b, v := Happy + "-" + Birthday, ComprehensiveVariations(Happy + " " + Birthday);
      |v| >= 3 && v[..3] == BaseTriple(b)
  {
    HappySlug();
    VariationsStartWithBase(Happy + " " + Birthday);
  }
}
