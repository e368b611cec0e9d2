/** The lyrics-site scraper (src/search-lyrics.tsx, `scrapeTamil2Lyrics`):
    from one fetched song page, the title, singers, composer and lyrics, with
    the clean-up applied to the lyrics. The HTML parser is not modelled: a
    `Page` holds what the scraper's selector queries return. */
module Extract {
  import opened Wrappers
  import opened Strings
  import opened Regex
  import opened Types

  /** What the scraper's queries return on one page:
      - `h1`: the text of the first `h1` ("" when there is none);
      - `singersText` / `singersTamilText`: the text of the parent of the
        `strong` elements containing "Singers" / "பாடகர்கள்" ("" when none);
      - `musicText` / `musicTamilText`: the same for "Music by" /
        "இசையமைப்பாளர்";
      - `markerNext`: for each element whose text contains "தமிழ்", in
        document order, the text of its next sibling (`None`: no sibling);
      - `blocks`: the texts of the `p` and `div` elements, in document order;
      - `containers`: the text of the elements each selector matches (a
        selector missing from the map matches nothing). */
  datatype Page = Page(
    h1: string,
    singersText: string,
    singersTamilText: string,
    musicText: string,
    musicTamilText: string,
    markerNext: seq<Option<string>>,
    blocks: seq<string>,
    containers: map<string, string>)

  // ---------------------------------------------------------------- title

  /** `$('h1').first().text().replace('Song Lyrics', '').trim() ||
      querySlug.replace(/-/g, ' ')`. */
  function PageTitle(h1: string, slug: string): (t: string)
    ensures var fromH1 := Trim(ReplaceFirst(h1, "Song Lyrics", ""));
      fromH1 == [] ==>
        |t| == |slug| && forall k :: 0 <= k < |t| ==> t[k] == if slug[k] == '-' then ' ' else slug[k]
    ensures t == [] <==> Trim(ReplaceFirst(h1, "Song Lyrics", "")) == [] && slug == []
    ensures var fromH1 := Trim(ReplaceFirst(h1, "Song Lyrics", "")); fromH1 != [] ==> t == fromH1
  {
    var fromH1 := Trim(ReplaceFirst(h1, "Song Lyrics", ""));
    ReplaceChar('-', ' ', slug);
    if fromH1 != [] then fromH1 else ReplaceAll(Single(Exactly('-')), slug, " ")
  }

  // ---------------------------------------------------------------- credits

  /** The credit shown when neither reading gives one. */
  const Unknown := "Unknown"

  /** `text.replace(a, '').replace(b, '').trim()`. */
  function Unmark(text: string, a: string, b: string): (r: string)
    ensures Trim(r) == r
  {
    TrimIdempotent(ReplaceFirst(ReplaceFirst(text, a, ""), b, ""));
    Trim(ReplaceFirst(ReplaceFirst(text, a, ""), b, ""))
  }

  /** One credit line: the text with both marks removed (each only once,
      `mark` first) and trimmed; when that is empty or "Unknown", the
      second query's text with the marks removed in the other order, or
      "Unknown" when that is empty too. */
  function Credit(primary: string, secondary: string, mark: string, otherMark: string): (v: string)
    ensures v != []
    ensures Trim(v) == v
  {
    var first := Unmark(primary, mark, otherMark);
    TrimOfTrimmed(Unknown);
    if first == [] || first == Unknown then
      var second := Unmark(secondary, otherMark, mark);
      if second == [] then Unknown else second
    else first
  }

  /** A usable first reading makes the second query irrelevant, and a
      missing credit reads "Unknown". */
  lemma CreditFallback(primary: string, s1: string, s2: string, mark: string, otherMark: string)
    ensures var first := Unmark(primary, mark, otherMark);
      first != [] && first != Unknown ==>
        Credit(primary, s1, mark, otherMark) == Credit(primary, s2, mark, otherMark) == first
    ensures var first, second := Unmark(primary, mark, otherMark), Unmark(s1, otherMark, mark);
      (first == [] || first == Unknown) ==>
        Credit(primary, s1, mark, otherMark) == if second == [] then Unknown else second
    ensures Credit(primary, s1, mark, otherMark) == Unknown ==>
      var first, second := Unmark(primary, mark, otherMark), Unmark(s1, otherMark, mark);
      (first == [] || first == Unknown) && (second == [] || second == Unknown)
    ensures primary == [] && s1 == [] ==> Credit(primary, s1, mark, otherMark) == Unknown
  {
    if primary == [] && s1 == [] {
      assert !Contains([], mark) || mark == [];
      assert ReplaceFirst([], mark, "") == [] by {
        if Contains([], mark) {
          assert mark == [];
        }
      }
      assert ReplaceFirst([], otherMark, "") == [] by {
        if Contains([], otherMark) {
          assert otherMark == [];
        }
      }
    }
  }

  function Singers(page: Page): string {
    Credit(page.singersText, page.singersTamilText, "Singers :", "பாடகர்கள் :")
  }

  function MusicBy(page: Page): string {
    Credit(page.musicText, page.musicTamilText, "Music by :", "இசையமைப்பாளர் :")
  }

  // ---------------------------------------------------------------- lyrics

  /** The first position at or after `from` whose (already trimmed)
      candidate is longer than `min`. */
  function FirstOver(cands: seq<string>, min: nat, from: nat): (r: Option<nat>)
    requires from <= |cands|
    ensures r.Some? ==> from <= r.value < |cands| && |cands[r.value]| > min
    ensures r.Some? ==> forall j :: from <= j < r.value ==> |cands[j]| <= min
    ensures r.None? ==> forall j :: from <= j < |cands| ==> |cands[j]| <= min
    decreases |cands| - from
  {
    if from == |cands| then None
    else if |cands[from]| > min then Some(from)
    else FirstOver(cands, min, from + 1)
  }

  function TrimAll(texts: seq<string>): (ts: seq<string>)
    ensures |ts| == |texts| && forall k :: 0 <= k < |texts| ==> ts[k] == Trim(texts[k])
  {
    seq(|texts|, k requires 0 <= k < |texts| => Trim(texts[k]))
  }

  /** The trimmed text of the first candidate longer than `min` after
      trimming, or "" when there is none. */
  function FirstTrimmedOver(texts: seq<string>, min: nat): (r: string)
    ensures r == [] <==> forall k :: 0 <= k < |texts| ==> |Trim(texts[k])| <= min
    ensures r != [] ==> exists k :: (0 <= k < |texts| && r == Trim(texts[k]) && |r| > min
      && forall j :: 0 <= j < k ==> |Trim(texts[j])| <= min)
  {
    var ts := TrimAll(texts);
    match FirstOver(ts, min, 0)
    case Some(k) => ts[k]
    case None => ""
  }

  /** The loop over candidates that stops at the first long enough one. */
  method FindFirstOver(texts: seq<string>, min: nat) returns (lyrics: string)
    ensures lyrics == FirstTrimmedOver(texts, min)
  {
    ghost var ts := TrimAll(texts);
    lyrics := "";
    var i := 0;
    while i < |texts|
      invariant 0 <= i <= |texts|
      invariant FirstOver(ts, min, 0) == FirstOver(ts, min, i)
    {
      var text := Trim(texts[i]);
      if |text| > min {
        lyrics := text;
        return;
      }
      i := i + 1;
    }
  }

  /** The text after a "தமிழ்" marker, "" where the marker has no next
      sibling (whose text then cannot qualify). */
  function MarkerTexts(markerNext: seq<Option<string>>): (ts: seq<string>)
    ensures |ts| == |markerNext|
    ensures forall k :: 0 <= k < |ts| ==> ts[k] == if markerNext[k].Some? then markerNext[k].value else ""
  {
    seq(|markerNext|, k requires 0 <= k < |markerNext| =>
      match markerNext[k] case Some(t) => t case None => "")
  }

  /** Candidates that look like Tamil lyrics: they contain "ஆண்" (male
      voice) or "குழு" (chorus), or a letter in the range த..ஹ. */
  predicate TamilLike(text: string) {
    Contains(text, "ஆண்") || Contains(text, "குழு")
    || exists k :: 0 <= k < |text| && '\U{0BA4}' <= text[k] <= '\U{0BB9}'
  }

  predicate BlockQualifies(text: string) {
    TamilLike(text) && |text| > 50
  }

  /** The `p, div` pass: the longest Tamil-looking block longer than 50
      characters, the earliest among equally long ones. */
  function LongestBlock(blocks: seq<string>): (r: string)
    ensures r == [] || BlockQualifies(r)
    ensures forall k :: 0 <= k < |blocks| && BlockQualifies(blocks[k]) ==> |blocks[k]| <= |r|
    ensures r != [] ==> r in blocks
  {
    if blocks == [] then ""
    else
      var best := LongestBlock(blocks[..|blocks| - 1]);
      var text := blocks[|blocks| - 1];
      assert forall k :: 0 <= k < |blocks| - 1 ==> blocks[k] == blocks[..|blocks| - 1][k];
      if TamilLike(text) && |text| > |best| && |text| > 50 then text else best
  }

  /** The block chosen is the first of the longest: every qualifying block
      before it is strictly shorter. */
  lemma {:induction false} LongestBlockIsFirst(blocks: seq<string>)
    requires LongestBlock(blocks) != []
    ensures exists k :: (0 <= k < |blocks| && blocks[k] == LongestBlock(blocks)
      && forall j :: 0 <= j < k && BlockQualifies(blocks[j]) ==> |blocks[j]| < |blocks[k]|)
  {
    var init, text := blocks[..|blocks| - 1], blocks[|blocks| - 1];
    var best := LongestBlock(init);
    var r := LongestBlock(blocks);
    if r == best {
      LongestBlockIsFirst(init);
      var k :| 0 <= k < |init| && init[k] == best
        && forall j :: 0 <= j < k && BlockQualifies(init[j]) ==> |init[j]| < |init[k]|;
      assert blocks[k] == r;
      forall j | 0 <= j < k && BlockQualifies(blocks[j]) ensures |blocks[j]| < |blocks[k]| {
        assert blocks[j] == init[j];
      }
    } else {
      var k := |blocks| - 1;
      forall j | 0 <= j < k && BlockQualifies(blocks[j]) ensures |blocks[j]| < |blocks[k]| {
        assert blocks[j] == init[j];
      }
    }
  }

  /** The `p, div` loop. */
  method FindLongestBlock(blocks: seq<string>) returns (lyrics: string)
    ensures lyrics == LongestBlock(blocks)
  {
    lyrics := "";
    var i := 0;
    while i < |blocks|
      invariant 0 <= i <= |blocks|
      invariant lyrics == LongestBlock(blocks[..i])
    {
      var text := blocks[i];
      assert blocks[..i + 1][..i] == blocks[..i];
      if TamilLike(text) {
        if |text| > |lyrics| && |text| > 50 {
          lyrics := text;
        }
      }
      i := i + 1;
    }
    assert blocks[..i] == blocks;
  }

  /** The content containers tried last, in order. */
  const Selectors: seq<string> := [".entry-content", ".post-content", ".lyrics-content", ".content", "article"]

  function ContainerTexts(page: Page): (ts: seq<string>)
    ensures |ts| == |Selectors|
    ensures forall k :: 0 <= k < |ts| ==>
      ts[k] == if Selectors[k] in page.containers then page.containers[Selectors[k]] else ""
  {
    seq(|Selectors|, k requires 0 <= k < |Selectors| =>
      if Selectors[k] in page.containers then page.containers[Selectors[k]] else "")
  }

  /** The three passes in order: the text after a "தமிழ்" marker (trimmed,
      longer than 50), else the longest Tamil-looking block, else the first
      content container whose trimmed text is longer than 100; "" when all
      three fail. */
  function PageLyrics(page: Page): (r: string)
    ensures r != [] ==> |r| > 50
  {
    var marked := FirstTrimmedOver(MarkerTexts(page.markerNext), 50);
    if marked != [] then marked
    else
      var block := LongestBlock(page.blocks);
      if block != [] then block
      else FirstTrimmedOver(ContainerTexts(page), 100)
  }

  /** The three passes, each taken only when the ones before it find
      nothing: the first marked text longer than 50 after trimming; else the
      longest Tamil-looking block; else the first container text longer than
      100 after trimming; and no lyrics exactly when all three fail. */
  lemma PageLyricsPasses(page: Page)
    ensures var marks := MarkerTexts(page.markerNext);
      (exists k :: 0 <= k < |marks| && |Trim(marks[k])| > 50) ==>
        PageLyrics(page) == FirstTrimmedOver(marks, 50)
    ensures var marks := MarkerTexts(page.markerNext);
      (forall k :: 0 <= k < |marks| ==> |Trim(marks[k])| <= 50)
      && (exists k :: 0 <= k < |page.blocks| && BlockQualifies(page.blocks[k])) ==>
        PageLyrics(page) == LongestBlock(page.blocks)
    ensures var marks := MarkerTexts(page.markerNext);
      (forall k :: 0 <= k < |marks| ==> |Trim(marks[k])| <= 50)
      && (forall k :: 0 <= k < |page.blocks| ==> !BlockQualifies(page.blocks[k])) ==>
        PageLyrics(page) == FirstTrimmedOver(ContainerTexts(page), 100)
    ensures var marks, cs := MarkerTexts(page.markerNext), ContainerTexts(page);
      PageLyrics(page) == [] <==>
        (forall k :: 0 <= k < |marks| ==> |Trim(marks[k])| <= 50)
        && (forall k :: 0 <= k < |page.blocks| ==> !BlockQualifies(page.blocks[k]))
        && (forall k :: 0 <= k < |cs| ==> |Trim(cs[k])| <= 100)
  {
    var block := LongestBlock(page.blocks);
    if block != [] {
      assert BlockQualifies(block);
      var k :| 0 <= k < |page.blocks| && page.blocks[k] == block;
    }
  }

  // ---------------------------------------------------------------- clean-up

  /** No line terminator from position `k` on: a regular-expression `.*$`
      without the `m` and `s` flags can reach the end of the text. */
  predicate NoLineBreakFrom(s: string, k: nat) {
    forall p :: k <= p < |s| ==> !IsLineTerminator(s[p])
  }

  /** `w` (lower case) occurs at `i`, ignoring ASCII case. */
  predicate LowerAt(s: string, i: nat, w: string) {
    i + |w| <= |s| && Lower(s[i..i + |w|]) == w
  }

  /** Number of decimal digits starting at `i`. */
  function DigitRun(s: string, i: nat): (n: nat)
    requires i <= |s|
    ensures i + n <= |s|
    ensures forall k :: i <= k < i + n ==> IsDigit(s[k])
    ensures i + n == |s| || !IsDigit(s[i + n])
    decreases |s| - i
  {
    if i < |s| && IsDigit(s[i]) then 1 + DigitRun(s, i + 1) else 0
  }

  /** The two trailers the scraper cuts off. */
  datatype Trailer =
    | Footer      // /tamil chat room.*$/i
    | Copyright   // /© \d+ - www\.tamil2lyrics\.com.*$/i

  const FooterText := "tamil chat room"
  const CopyrightMark := "© "
  const CopyrightSite := " - www.tamil2lyrics.com"

  /** Where the literal part of a trailer that starts at `i` ends. */
  function LiteralEnd(t: Trailer, s: string, i: nat): (e: Option<nat>)
    requires i <= |s|
    ensures e.Some? ==> i < e.value <= |s| && forall p :: i <= p < e.value ==> !IsLineTerminator(s[p])
  {
    match t
    case Footer =>
      if LowerAt(s, i, FooterText) then
        LiteralHasNoBreak(s, i, FooterText);
        Some(i + |FooterText|)
      else None
    case Copyright =>
      if LowerAt(s, i, CopyrightMark) then
        var n := DigitRun(s, i + |CopyrightMark|);
        var j := i + |CopyrightMark| + n;
        if n >= 1 && LowerAt(s, j, CopyrightSite) then
          LiteralHasNoBreak(s, i, CopyrightMark);
          LiteralHasNoBreak(s, j, CopyrightSite);
          Some(j + |CopyrightSite|)
        else None
      else None
  }

  /** `w` holds no line terminator. */
  predicate Plain(w: string) {
    forall c :: c in w ==> !IsLineTerminator(c)
  }

  lemma LiteralsPlain()
    ensures Plain(FooterText) && Plain(CopyrightMark) && Plain(CopyrightSite)
  {
  }

  lemma LiteralHasNoBreak(s: string, i: nat, w: string)
    requires LowerAt(s, i, w)
    requires w == FooterText || w == CopyrightMark || w == CopyrightSite
    ensures forall p :: i <= p < i + |w| ==> !IsLineTerminator(s[p])
  {
    LiteralsPlain();
    forall p | i <= p < i + |w| ensures !IsLineTerminator(s[p]) {
      assert Lower(s[i..i + |w|])[p - i] == LowerChar(s[p]);
      assert w[p - i] in w;
    }
  }

  /** The trailer's expression matches at `i`: its literal part, then
      anything up to the end of the text without a line terminator. */
  predicate TrailerAt(t: Trailer, s: string, i: nat) {
    i <= |s| && LiteralEnd(t, s, i).Some? && NoLineBreakFrom(s, LiteralEnd(t, s, i).value)
  }

  /** The leftmost match at or after `from`. */
  function FirstTrailer(t: Trailer, s: string, from: nat): (r: Option<nat>)
    requires from <= |s|
    ensures r.Some? ==> from <= r.value < |s| && TrailerAt(t, s, r.value)
    ensures r.Some? ==> forall j :: from <= j < r.value ==> !TrailerAt(t, s, j)
    ensures r.None? ==> forall j :: from <= j <= |s| ==> !TrailerAt(t, s, j)
    decreases |s| - from
  {
    if TrailerAt(t, s, from) then Some(from)
    else if from == |s| then None
    else FirstTrailer(t, s, from + 1)
  }

  /** `s.replace(/trailer.*$/i, '')`: the text before the leftmost match.
      What is cut off holds no line terminator, so at most the last line is
      shortened. */
  function StripTrailer(t: Trailer, s: string): (r: string)
    ensures |r| <= |s| && r == s[..|r|]
    ensures r == s <==> forall j :: 0 <= j <= |s| ==> !TrailerAt(t, s, j)
    ensures |r| < |s| ==> TrailerAt(t, s, |r|) && forall j :: 0 <= j < |r| ==> !TrailerAt(t, s, j)
    ensures NoLineBreakFrom(s, |r|)
  {
    match FirstTrailer(t, s, 0)
    case None => s
    case Some(i) =>
      TrailerNoBreak(t, s, i);
      s[..i]
  }

  lemma TrailerNoBreak(t: Trailer, s: string, i: nat)
    requires TrailerAt(t, s, i)
    ensures NoLineBreakFrom(s, i)
  {
  }

  lemma LowerAtPrefix(s: string, e: nat, i: nat, w: string)
    requires e <= |s|
    ensures LowerAt(s[..e], i, w) ==> LowerAt(s, i, w)
  {
    if LowerAt(s[..e], i, w) {
      assert s[..e][i..i + |w|] == s[i..i + |w|];
    }
  }

  lemma NoBreakPrefix(s: string, e: nat, k: nat)
    requires e <= |s| && NoLineBreakFrom(s, e)
    ensures NoLineBreakFrom(s[..e], k) ==> NoLineBreakFrom(s, k)
  {
    if NoLineBreakFrom(s[..e], k) {
      forall p | k <= p < |s| ensures !IsLineTerminator(s[p]) {
        if p < e {
          assert s[p] == s[..e][p];
        }
      }
    }
  }

  /** A match in a prefix that is followed by no line terminator is a match
      in the whole text. */
  lemma TrailerInPrefix(t: Trailer, s: string, e: nat, j: nat)
    requires j <= e <= |s| && NoLineBreakFrom(s, e)
    ensures TrailerAt(t, s[..e], j) ==> TrailerAt(t, s, j)
  {
    if TrailerAt(t, s[..e], j) {
      match t
      case Footer => FooterInPrefix(s, e, j);
      case Copyright => CopyrightInPrefix(s, e, j);
    }
  }

  lemma FooterInPrefix(s: string, e: nat, j: nat)
    requires j <= e <= |s| && NoLineBreakFrom(s, e)
    requires TrailerAt(Footer, s[..e], j)
    ensures TrailerAt(Footer, s, j)
  {
    LowerAtPrefix(s, e, j, FooterText);
    NoBreakPrefix(s, e, j + |FooterText|);
  }

  lemma CopyrightInPrefix(s: string, e: nat, j: nat)
    requires j <= e <= |s| && NoLineBreakFrom(s, e)
    requires TrailerAt(Copyright, s[..e], j)
    ensures TrailerAt(Copyright, s, j)
  {
    var r := s[..e];
    var m := |CopyrightMark|;
    var n := DigitRun(r, j + m);
    var k := j + m + n;
    assert LowerAt(r, j, CopyrightMark) && n >= 1 && LowerAt(r, k, CopyrightSite);
    LowerAtPrefix(s, e, j, CopyrightMark);
    DigitRunPrefix(s, e, j + m);
    LowerAtPrefix(s, e, k, CopyrightSite);
    NoBreakPrefix(s, e, k + |CopyrightSite|);
  }

  /** A digit run that ends inside a prefix is the same run in the whole text. */
  lemma {:induction false} DigitRunPrefix(s: string, e: nat, k: nat)
    requires k <= e <= |s|
    requires k + DigitRun(s[..e], k) < e
    ensures DigitRun(s, k) == DigitRun(s[..e], k)
    decreases e - k
  {
    if IsDigit(s[k]) {
      DigitRunPrefix(s, e, k + 1);
    }
  }

  /** Cutting a trailer twice cuts nothing more. */
  lemma StripTrailerIdempotent(t: Trailer, s: string)
    ensures StripTrailer(t, StripTrailer(t, s)) == StripTrailer(t, s)
  {
    var r := StripTrailer(t, s);
    if |r| < |s| {
      forall j | 0 <= j <= |r| ensures !TrailerAt(t, r, j) {
        TrailerInPrefix(t, s, |r|, j);
        if j == |r| {
          assert LiteralEnd(t, r, j).None?;
        }
      }
    }
  }

  /** `.substring(0, n)`. */
  function Truncate(s: string, n: nat): (r: string)
    ensures |r| <= n && |r| <= |s| && r == s[..|r|]
    ensures |s| <= n ==> r == s
  {
    if |s| <= n then s else s[..n]
  }

  /** `.replace(/\n\n+/g, '\n\n')`: no three newlines in a row remain, the
      other characters are kept in order, and a text without three newlines
      in a row is left as it is. */
  function CollapseBlankLines(lyrics: string): (r: string)
    ensures NoRun(r, '\n', 3)
    ensures Drop(r, Exactly('\n')) == Drop(lyrics, Exactly('\n'))
    ensures NoRun(lyrics, '\n', 3) ==> r == lyrics
  {
    CollapseRuns('\n', lyrics, "\n\n", 0);
    ReplaceDrop(Run(Exactly('\n'), 2), lyrics, "\n\n", Exactly('\n'));
    BlankLinesKept(lyrics);
    ReplaceAll(Run(Exactly('\n'), 2), lyrics, "\n\n")
  }

  /** Where no three newlines follow each other, every match is exactly one
      blank line, which is replaced by itself. */
  lemma BlankLinesKept(s: string)
    ensures NoRun(s, '\n', 3) ==> ReplaceAll(Run(Exactly('\n'), 2), s, "\n\n") == s
  {
    var p := Run(Exactly('\n'), 2);
    var ms := Matches(p, s);
    if NoRun(s, '\n', 3) {
      forall k | 0 <= k < |s| && ms[k] > 0 ensures s[k..k + ms[k]] == "\n\n" {
        var n := RunLen(s, k, Exactly('\n'));
        if n >= 3 {
          assert RunAt(s, k, '\n', 3);
        }
        assert ms[k] == n == 2;
      }
      ScanToItself(s, ms, "\n\n", 0);
      assert s[0..] == s;
    }
  }

  /** Trimming keeps a string free of runs. */
  lemma TrimNoRun(s: string, c: char, n: nat)
    requires NoRun(s, c, n)
    ensures NoRun(Trim(s), c, n)
  {
    NoRunInfix(s, c, n, Leading(s), Leading(s) + |Trim(s)|);
  }

  /** So does a prefix. */
  lemma PrefixNoRun(s: string, r: string, c: char, n: nat)
    requires NoRun(s, c, n) && |r| <= |s| && r == s[..|r|]
    ensures NoRun(r, c, n) && (r == [] || r[0] == s[0])
  {
    NoRunInfix(s, c, n, 0, |r|);
  }

  /** The clean-up chain: runs of blank lines collapsed to one blank line,
      white space trimmed, the chat-room footer and the copyright line cut
      off, and at most 3000 characters kept. */
  function Cleanup(lyrics: string): (r: string)
    ensures |r| <= 3000
    ensures NoRun(r, '\n', 3)
    ensures r == [] || !IsSpace(r[0])
  {
    var trimmed := Trim(CollapseBlankLines(lyrics));
    TrimNoRun(CollapseBlankLines(lyrics), '\n', 3);
    var noFooter := StripTrailer(Footer, trimmed);
    PrefixNoRun(trimmed, noFooter, '\n', 3);
    var noCopyright := StripTrailer(Copyright, noFooter);
    PrefixNoRun(noFooter, noCopyright, '\n', 3);
    PrefixNoRun(noCopyright, Truncate(noCopyright, 3000), '\n', 3);
    Truncate(noCopyright, 3000)
  }

  // ---------------------------------------------------------------- the page

  const SiteName := "Tamil2Lyrics.com"

  /** `https://www.tamil2lyrics.com/lyrics/${querySlug}/`. */
  function SongUrl(slug: string): string {
    "https://www.tamil2lyrics.com/lyrics/" + slug + "/"
  }

  /** The song read from a fetched page: only when the cleaned lyrics are
      longer than 50 characters. `now` is the clock reading used as the id. */
  function ExtractSong(page: Page, slug: string, url: string, now: int): Option<Song> {
    var lyrics := PageLyrics(page);
    var cleaned := if lyrics != [] then Cleanup(lyrics) else lyrics;
    if |cleaned| > 50 then
      Some(Song(now, PageTitle(page.h1, slug), Singers(page), Some(MusicBy(page)), url, "🎵", None,
                Some([LyricsSource(SiteName, cleaned, Some(url))])))
    else None
  }

  /** `scrapeTamil2Lyrics(querySlug)`: `site` maps each page address that
      can be fetched to its page; a failed fetch gives no song. */
  function Scrape(site: map<string, Page>, slug: string, now: int): (r: Option<Song>)
    ensures SongUrl(slug) !in site ==> r.None?
    ensures r.Some? ==> r.value.url == SongUrl(slug)
  {
    var url := SongUrl(slug);
    if url in site then ExtractSong(site[url], slug, url, now) else None
  }

  /** A scraped song is the page at the slug's address, carrying exactly
      one source, named after the site, whose cleaned lyrics are longer than
      50 and at most 3000 characters and whose address is the song's; it has
      no provider handle, singers and composer are never blank, and the id
      is the clock reading; its thumbnail is the note emoji. */
  lemma ScrapedSong(site: map<string, Page>, slug: string, now: int)
    requires Scrape(site, slug, now).Some?
    ensures var song := Scrape(site, slug, now).value;
      && SongUrl(slug) in site
      && song.url == SongUrl(slug) && song.thumbnail == "🎵"
      && song.id == now
      && song.fullSong.None?
      && song.artist != [] && song.album.Some? && song.album.value != []
      && song.availableSources.Some? && |song.availableSources.value| == 1
      && var src := song.availableSources.value[0];
         src.name == SiteName && src.url == Some(song.url)
         && 50 < |src.lyrics| <= 3000
         && src.lyrics == Cleanup(PageLyrics(site[SongUrl(slug)]))
  {
  }

  /** A page gives a song exactly when it can be fetched, one of the three
      passes finds text, and that text is still longer than 50 characters
      after the clean-up. */
  lemma ScrapeAccepts(site: map<string, Page>, slug: string, now: int)
    ensures Scrape(site, slug, now).Some? <==>
      SongUrl(slug) in site && PageLyrics(site[SongUrl(slug)]) != []
      && |Cleanup(PageLyrics(site[SongUrl(slug)]))| > 50
  {
  }

  /** The scraper as the source runs it: the three lyrics passes as loops,
      the clean-up, and the length check. */
  method ScrapeTamil2Lyrics(site: map<string, Page>, slug: string, now: int) returns (song: Option<Song>)
    ensures song == Scrape(site, slug, now)
  {
    var url := SongUrl(slug);
    if url !in site {
      return None;
    }
    var page := site[url];
    var lyrics := FindFirstOver(MarkerTexts(page.markerNext), 50);
    if lyrics == [] {
      lyrics := FindLongestBlock(page.blocks);
    }
    if lyrics == [] {
      lyrics := FindFirstOver(ContainerTexts(page), 100);
    }
    if lyrics != [] {
      lyrics := Cleanup(lyrics);
    }
    if |lyrics| > 50 {
      song := Some(Song(now, PageTitle(page.h1, slug), Singers(page), Some(MusicBy(page)), url, "🎵", None,
                        Some([LyricsSource(SiteName, lyrics, Some(url))])));
    } else {
      song := None;
    }
  }
}
