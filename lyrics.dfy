/** The lyrics view of one chosen song: deciding where its lyrics come from
    (the sources a regional search already scraped, then the catalog
    provider, then guidance: the Tamil lyrics helper or a generic
    suggestion), the search link the view offers, and the markdown it
    renders. */
module Lyrics {
  import opened Wrappers
  import opened Strings
  import opened Seqs
  import opened Types
  import opened Canned
  import Extract
  import Regional

  // ---------------------------------------------------------------------
  // Tamil content detection

  /** The Tamil block of Unicode, U+0B80 to U+0BFF. */
  predicate IsTamilCodePoint(c: char) {
    '\U{0B80}' <= c <= '\U{0BFF}'
  }

  /** `/[஀-௿]/.test(s)`, scanning from the front. */
  function HasTamilChar(s: string): (b: bool)
    ensures b <==> exists i :: 0 <= i < |s| && IsTamilCodePoint(s[i])
  {
    if s == [] then false
    else if IsTamilCodePoint(s[0]) then true
    else
      var b := HasTamilChar(s[1..]);
      assert forall i :: 1 <= i < |s| ==> s[i] == s[1..][i - 1];
      b
  }

  /** The words that mark a song as Tamil when they occur in its title or
      artist. */
  const TamilKeywords: seq<string> := ["tamil", "kollywood", "chennai", "madras", "ilayaraja",
    "rahman", "yuvan", "anirudh", "gv prakash", "harris jayaraj", "devi sri prasad", "sean roldan"]

  /** `keywords.some(k => text.includes(k))`, in list order. */
  function MentionsKeyword(text: string, keywords: seq<string>): (b: bool)
    ensures b <==> exists k :: k in keywords && Contains(text, k)
  {
    if keywords == [] then false
    else if Contains(text, keywords[0]) then true
    else
      var b := MentionsKeyword(text, keywords[1..]);
      assert forall k :: k in keywords ==> k == keywords[0] || k in keywords[1..];
      b
  }

  /** `isTamilContent(title, artist)`: a Tamil character in the title or the
      artist, or a keyword in the lower-cased "title artist". */
  function IsTamilContent(title: string, artist: string): (b: bool)
    ensures b <==>
      || (exists i :: 0 <= i < |title| && IsTamilCodePoint(title[i]))
      || (exists i :: 0 <= i < |artist| && IsTamilCodePoint(artist[i]))
      || (exists k :: k in TamilKeywords && Contains(Lower(title + " " + artist), k))
  {
    HasTamilChar(title) || HasTamilChar(artist)
    || MentionsKeyword(Lower(title + " " + artist), TamilKeywords)
  }

  /** Lower-casing leaves Tamil characters alone. */
  lemma {:induction false} LowerKeepsTamil(s: string)
    ensures HasTamilChar(Lower(s)) == HasTamilChar(s)
  {
    var t := Lower(s);
    if HasTamilChar(s) {
      var i :| 0 <= i < |s| && IsTamilCodePoint(s[i]);
      assert IsTamilCodePoint(t[i]);
    }
    if HasTamilChar(t) {
      var i :| 0 <= i < |t| && IsTamilCodePoint(t[i]);
      assert IsTamilCodePoint(s[i]);
    }
  }

  lemma LowerJoin(t: string, a: string)
    ensures Lower(t + " " + a) == Lower(t) + " " + Lower(a)
  {
    LowerConcat(t + " ", a);
    LowerConcat(t, " ");
    assert Lower(" ") == " ";
  }

  /** The test ignores the case of the title and the artist. */
  lemma TamilContentIgnoresCase(title: string, artist: string)
    ensures IsTamilContent(Lower(title), Lower(artist)) == IsTamilContent(title, artist)
  {
    LowerKeepsTamil(title);
    LowerKeepsTamil(artist);
    LowerJoin(title, artist);
    LowerJoin(Lower(title), Lower(artist));
    LowerIdempotent(title);
    LowerIdempotent(artist);
  }

  /** A keyword anywhere in the title makes the song Tamil, whatever the
      artist and whatever the case the keyword is written in. */
  lemma KeywordInTitle(title: string, artist: string, k: string)
    requires k in TamilKeywords && Contains(Lower(title), k)
    ensures IsTamilContent(title, artist)
  {
    assert title + " " + artist == title + (" " + artist);
    LowerConcat(title, " " + artist);
    ContainsExtend(Lower(title), k, Lower(" " + artist));
  }

  // ---------------------------------------------------------------------
  // encodeURIComponent

  /** The characters `encodeURIComponent` leaves as they are. */
  predicate Unreserved(c: char) {
    ('A' <= c <= 'Z') || ('a' <= c <= 'z') || ('0' <= c <= '9')
    || c == '-' || c == '_' || c == '.' || c == '!' || c == '~' || c == '*' || c == '\''
    || c == '(' || c == ')'
  }

  /** The characters an encoded component is made of. */
  predicate UriSafe(c: char) {
    Unreserved(c) || c == '%'
  }

  const HexDigits := "0123456789ABCDEF"

  /** The UTF-8 encoding of a code point. */
  function Utf8(c: char): (bytes: seq<nat>)
    ensures 1 <= |bytes| <= 4
    ensures forall k :: 0 <= k < |bytes| ==> bytes[k] < 256
  {
    var n := c as int;
    if n < 0x80 then [n]
    else if n < 0x800 then [0xC0 + n / 64, 0x80 + n % 64]
    else if n < 0x10000 then [0xE0 + n / 4096, 0x80 + (n / 64) % 64, 0x80 + n % 64]
    else [0xF0 + n / 262144, 0x80 + (n / 4096) % 64, 0x80 + (n / 64) % 64, 0x80 + n % 64]
  }

  /** One byte as `%` and two upper-case hexadecimal digits. */
  function Percent(b: nat): (r: string)
    requires b < 256
    ensures |r| == 3 && r[0] == '%'
  {
    ['%', HexDigits[b / 16], HexDigits[b % 16]]
  }

  function Percents(bytes: seq<nat>): (r: string)
    requires forall k :: 0 <= k < |bytes| ==> bytes[k] < 256
    ensures |r| == 3 * |bytes|
  {
    if bytes == [] then "" else Percent(bytes[0]) + Percents(bytes[1..])
  }

  function EncodeChar(c: char): string {
    if Unreserved(c) then [c] else Percents(Utf8(c))
  }

  /** `encodeURIComponent(s)`. A Dafny string holds scalar values only, so
      the lone surrogates that make the built-in throw cannot occur. */
  function EncodeURIComponent(s: string): (e: string)
    ensures |s| <= |e| <= 12 * |s|
  {
    EncodeLength(s);
    FlatMap(s, EncodeChar)
  }

  /** Each character becomes one to four `%HH` escapes or itself. */
  lemma {:induction false} EncodeLength(s: string)
    ensures |s| <= |FlatMap(s, EncodeChar)| <= 12 * |s|
  {
    if s != [] {
      EncodeLength(s[1..]);
      if !Unreserved(s[0]) {
        PercentsLength(Utf8(s[0]));
      }
    }
  }

  lemma {:induction false} PercentsLength(bytes: seq<nat>)
    requires forall k :: 0 <= k < |bytes| ==> bytes[k] < 256
    ensures |Percents(bytes)| == 3 * |bytes|
  {
    if bytes != [] {
      PercentsLength(bytes[1..]);
    }
  }

  /** An encoded component holds only unreserved characters and `%`. */
  lemma {:induction false} EncodeSafe(s: string)
    ensures forall i :: 0 <= i < |EncodeURIComponent(s)| ==> UriSafe(EncodeURIComponent(s)[i])
  {
    if s != [] {
      EncodeCharSafe(s[0]);
      EncodeSafe(s[1..]);
      var e, t := EncodeChar(s[0]), EncodeURIComponent(s[1..]);
      assert forall i :: |e| <= i < |e + t| ==> (e + t)[i] == t[i - |e|];
    }
  }

  lemma {:induction false} PercentsSafe(bytes: seq<nat>)
    requires forall k :: 0 <= k < |bytes| ==> bytes[k] < 256
    ensures forall i :: 0 <= i < |Percents(bytes)| ==> UriSafe(Percents(bytes)[i])
  {
    if bytes != [] {
      PercentsSafe(bytes[1..]);
      var p := Percent(bytes[0]);
      assert UriSafe(p[1]) && UriSafe(p[2]);
    }
  }

  lemma EncodeCharSafe(c: char)
    ensures forall i :: 0 <= i < |EncodeChar(c)| ==> UriSafe(EncodeChar(c)[i])
  {
    if !Unreserved(c) {
      PercentsSafe(Utf8(c));
    }
  }

  /** A text made of unreserved characters is its own encoding. */
  lemma {:induction false} EncodeUnreserved(s: string)
    requires forall i :: 0 <= i < |s| ==> Unreserved(s[i])
    ensures EncodeURIComponent(s) == s
  {
    if s != [] {
      EncodeUnreserved(s[1..]);
      assert [s[0]] + s[1..] == s;
    }
  }

  /** Encoding works character by character. */
  lemma EncodeConcat(a: string, b: string)
    ensures EncodeURIComponent(a + b) == EncodeURIComponent(a) + EncodeURIComponent(b)
  {
    FlatMapConcat(a, b, EncodeChar);
  }

  // The inverse, `decodeURIComponent`, as a reference for the encoder.

  function HexValue(c: char): nat {
    if '0' <= c <= '9' then c as int - '0' as int
    else if 'A' <= c <= 'F' then c as int - 'A' as int + 10
    else 0
  }

  /** The byte written by the three characters at `i`. */
  function ByteAt(s: string, i: nat): nat
    requires i + 3 <= |s|
  {
    HexValue(s[i + 1]) * 16 + HexValue(s[i + 2])
  }

  /** How many bytes a UTF-8 sequence starting with `b` has. */
  function Utf8Length(b: nat): nat {
    if b < 0xC0 then 1 else if b < 0xE0 then 2 else if b < 0xF0 then 3 else 4
  }

  function Utf8Value(b: seq<int>): int
    requires 1 <= |b| <= 4
  {
    if |b| == 1 then b[0]
    else if |b| == 2 then (b[0] - 0xC0) * 64 + (b[1] - 0x80)
    else if |b| == 3 then (b[0] - 0xE0) * 4096 + (b[1] - 0x80) * 64 + (b[2] - 0x80)
    else (b[0] - 0xF0) * 262144 + (b[1] - 0x80) * 4096 + (b[2] - 0x80) * 64 + (b[3] - 0x80)
  }

  function Prepend(c: char, o: Option<string>): Option<string> {
    if o.Some? then Some([c] + o.value) else None
  }

  /** `decodeURIComponent(s)`, None where it would throw. */
  function DecodeURIComponent(s: string): Option<string>
    decreases |s|
  {
    if s == [] then Some("")
    else if s[0] != '%' then Prepend(s[0], DecodeURIComponent(s[1..]))
    else if |s| < 3 then None
    else
      var k := Utf8Length(ByteAt(s, 0));
      if |s| < 3 * k then None
      else
        var v := Utf8Value(seq(k, j requires 0 <= j < k => ByteAt(s, 3 * j)));
        if (0 <= v < 0xD800) || (0xE000 <= v < 0x11_0000) then
          Prepend(v as char, DecodeURIComponent(s[3 * k..]))
        else None
  }

  lemma PercentByte(b: nat)
    requires b < 256
    ensures ByteAt(Percent(b), 0) == b
  {
    var hi, lo := b / 16, b % 16;
    assert HexValue(HexDigits[hi]) == hi;
    assert HexValue(HexDigits[lo]) == lo;
  }

  lemma {:induction false} PercentsAt(bytes: seq<nat>, rest: string, j: nat)
    requires forall k :: 0 <= k < |bytes| ==> bytes[k] < 256
    requires j < |bytes|
    ensures 3 * j + 3 <= |Percents(bytes) + rest|
    ensures ByteAt(Percents(bytes) + rest, 3 * j) == bytes[j]
  {
    var s := Percents(bytes) + rest;
    if j == 0 {
      PercentByte(bytes[0]);
      assert s[..3] == Percent(bytes[0]);
    } else {
      PercentsAt(bytes[1..], rest, j - 1);
      assert s[3..] == Percents(bytes[1..]) + rest;
    }
  }

  /** The lead byte announces the length, and the bytes give the code point back. */
  lemma Utf8Decodes(c: char)
    ensures Utf8Length(Utf8(c)[0]) == |Utf8(c)|
    ensures Utf8Value(Utf8(c)) == c as int
  {
    var n := c as int;
    Digits64(n);
    if n < 0x80 {
    } else if n < 0x800 {
      assert 2 <= n / 64 < 32;
    } else if n < 0x10000 {
      assert n / 4096 < 16;
    } else {
      assert n / 262144 < 5;
    }
  }

  /** The base-64 digits of a code point. */
  lemma Digits64(n: nat)
    ensures n == (n / 64) * 64 + n % 64
    ensures n / 64 == (n / 4096) * 64 + (n / 64) % 64
    ensures n / 4096 == (n / 262144) * 64 + (n / 4096) % 64
  {
  }

  lemma DecodeEncodedChar(c: char, rest: string)
    ensures DecodeURIComponent(EncodeChar(c) + rest) == Prepend(c, DecodeURIComponent(rest))
  {
    var s := EncodeChar(c) + rest;
    if Unreserved(c) {
      assert s[1..] == rest;
    } else {
      var bytes := Utf8(c);
      var k := |bytes|;
      Utf8Decodes(c);
      PercentsAt(bytes, rest, 0);
      assert s[0] == '%';
      var read := seq(k, j requires 0 <= j < k => ByteAt(s, 3 * j));
      forall j | 0 <= j < k
        ensures read[j] == bytes[j]
      {
        PercentsAt(bytes, rest, j);
      }
      assert read == bytes;
      assert s[3 * k..] == rest;
    }
  }

  /** Decoding an encoded text gives the text back, so no two texts share an
      encoding. */
  lemma {:induction false} DecodeEncode(s: string)
    ensures DecodeURIComponent(EncodeURIComponent(s)) == Some(s)
  {
    if s != [] {
      DecodeEncode(s[1..]);
      DecodeEncodedChar(s[0], EncodeURIComponent(s[1..]));
      assert [s[0]] + s[1..] == s;
    }
  }

  // ---------------------------------------------------------------------
  // Alternative sources

  const GoogleSearch := "https://www.google.com/search?q="

  /** `searchTamilLyrics`: the Tamil lyrics helper, with a web search for the
      song's lyrics. */
  function TamilHelper(songTitle: string, artistName: string): LyricsSource {
    LyricsSource("Tamil Lyrics Helper",
      "Search suggestions for Tamil song \"" + songTitle + "\" by " + artistName + ":\n\n" + Advice(songTitle),
      Some(GoogleSearch + EncodeURIComponent(songTitle + " " + artistName + " tamil lyrics")))
  }

  /** The generic suggestion when nothing else is found; it has no address. */
  function NotFound(songTitle: string, artistName: string): LyricsSource {
    LyricsSource("Suggestion", NotFoundHead + songTitle + "\" by " + artistName + NotFoundRest, None)
  }

  /** `searchAltLyrics(songTitle, artistName)`. */
  function AltLyrics(songTitle: string, artistName: string): seq<LyricsSource> {
    if IsTamilContent(songTitle, artistName) then [TamilHelper(songTitle, artistName)]
    else [NotFound(songTitle, artistName)]
  }

  /** There is always exactly one alternative; it carries an address exactly
      for Tamil content, and its text names the song. */
  lemma AltLyricsShape(songTitle: string, artistName: string)
    ensures var alt := AltLyrics(songTitle, artistName);
      && |alt| == 1
      && (alt[0].url.Some? <==> IsTamilContent(songTitle, artistName))
      && Contains(alt[0].lyrics, songTitle)
  {
    if IsTamilContent(songTitle, artistName) {
      TamilHelperNamesSong(songTitle, artistName);
    } else {
      NotFoundNamesSong(songTitle, artistName);
    }
  }

  lemma TamilHelperNamesSong(songTitle: string, artistName: string)
    ensures Contains(TamilHelper(songTitle, artistName).lyrics, songTitle)
  {
    var head := "Search suggestions for Tamil song \"";
    var tail := "\" by " + artistName + ":\n\n" + Advice(songTitle);
    ContainsInfix(head, songTitle, tail);
    assert head + songTitle + tail == TamilHelper(songTitle, artistName).lyrics;
  }

  lemma NotFoundNamesSong(songTitle: string, artistName: string)
    ensures Contains(NotFound(songTitle, artistName).lyrics, songTitle)
  {
    var tail := "\" by " + artistName + NotFoundRest;
    ContainsInfix(NotFoundHead, songTitle, tail);
    assert NotFoundHead + songTitle + tail == NotFound(songTitle, artistName).lyrics;
  }

  /** The helper's address is a web search whose query decodes to
      "title artist tamil lyrics". */
  lemma TamilHelperSearch(songTitle: string, artistName: string)
    ensures var url := TamilHelper(songTitle, artistName).url.value;
      && |GoogleSearch| <= |url| && url[..|GoogleSearch|] == GoogleSearch
      && DecodeURIComponent(url[|GoogleSearch|..]) == Some(songTitle + " " + artistName + " tamil lyrics")
  {
    var q := songTitle + " " + artistName + " tamil lyrics";
    var url := GoogleSearch + EncodeURIComponent(q);
    assert url[|GoogleSearch|..] == EncodeURIComponent(q);
    DecodeEncode(q);
  }

  /** `searchAltLyrics`, pushing onto a list as the source does. */
  method SearchAltLyrics(songTitle: string, artistName: string) returns (sources: seq<LyricsSource>)
    ensures sources == AltLyrics(songTitle, artistName)
  {
    sources := [];
    if IsTamilContent(songTitle, artistName) {
      var tamilSource := TamilHelper(songTitle, artistName);
      sources := sources + [tamilSource];
    }
    if |sources| == 0 {
      sources := sources + [NotFound(songTitle, artistName)];
    }
  }

  // ---------------------------------------------------------------------
  // Resolving the lyrics of a song

  /** What the view holds: the lyrics, the alternative sources, whether they
      are offered, and the error message ("" for none). */
  datatype View = View(lyrics: string, alternatives: seq<LyricsSource>, showAlternatives: bool, error: string)

  /** A freshly opened view. */
  const Initial := View("", [], false, "")

  const NoSource := "Lyrics not available from any source"

  /** The sources a regional search already scraped, when there are any. */
  predicate HasPrefetched(song: Song) {
    song.availableSources.Some? && |song.availableSources.value| > 0
  }

  /** The provider has non-blank lyrics for the song; a missing entry is a
      call that raised. */
  predicate ProviderHas(song: Song, provider: Provider) {
    song.fullSong.Some? && song.fullSong.value in provider.lyrics
    && Trim(provider.lyrics[song.fullSong.value]) != ""
  }

  /** `fetchLyrics`, from the view as it was before. */
  function Resolve(v0: View, song: Song, provider: Provider): (r: View)
    ensures r.error == ""
    ensures !HasPrefetched(song) ==> r.lyrics != ""
  {
    AltLyricsShape(song.title, song.artist);
    var v := v0.(error := "");
    if HasPrefetched(song) then
      var srcs := song.availableSources.value;
      v.(lyrics := srcs[0].lyrics, alternatives := srcs, showAlternatives := |srcs| > 1)
    else if ProviderHas(song, provider) then
      v.(lyrics := provider.lyrics[song.fullSong.value])
    else
      var alt := AltLyrics(song.title, song.artist);
      var w := v.(alternatives := alt, showAlternatives := true);
      if |alt| > 0 then w.(lyrics := alt[0].lyrics) else w.(error := NoSource)
  }

  /** Prefetched sources win: the first one's text is shown, all of them are
      kept, the others are offered when there are more, and the provider is
      never consulted. */
  lemma ResolvePrefetched(v0: View, song: Song, p: Provider, q: Provider)
    requires HasPrefetched(song)
    ensures var r, srcs := Resolve(v0, song, p), song.availableSources.value;
      && r == Resolve(v0, song, q)
      && r.lyrics == srcs[0].lyrics && r.alternatives == srcs
      && (r.showAlternatives <==> |srcs| > 1)
      && r.error == ""
  {
  }

  /** Otherwise non-blank provider lyrics are shown; the alternatives and
      whether they are offered stay as they were. */
  lemma ResolveFromProvider(v0: View, song: Song, p: Provider)
    requires !HasPrefetched(song) && ProviderHas(song, p)
    ensures var r := Resolve(v0, song, p);
      && r.lyrics == p.lyrics[song.fullSong.value]
      && Trim(r.lyrics) != ""
      && r.alternatives == v0.alternatives && r.showAlternatives == v0.showAlternatives
      && r.error == ""
  {
  }

  /** Otherwise the single alternative is offered and shown; it names the
      song and is the Tamil lyrics helper (with an address) exactly for
      Tamil content. */
  lemma ResolveGuidance(v0: View, song: Song, p: Provider)
    requires !HasPrefetched(song) && !ProviderHas(song, p)
    ensures var r := Resolve(v0, song, p);
      && |r.alternatives| == 1 && r.showAlternatives
      && r.lyrics == r.alternatives[0].lyrics && Contains(r.lyrics, song.title)
      && (r.alternatives[0].url.Some? <==> IsTamilContent(song.title, song.artist))
      && r.error == ""
  {
    AltLyricsShape(song.title, song.artist);
  }

  /** Every result of a regional search resolves to its own first source,
      whatever the provider holds. */
  lemma ResolveRegional(site: map<string, Extract.Page>, query: string, now: int, v0: View, p: Provider)
    ensures forall s :: s in Regional.RegionalResults(site, query, now) ==>
      HasPrefetched(s) && Resolve(v0, s, p).lyrics == s.availableSources.value[0].lyrics
  {
    var tries := Regional.Tries(query);
    Regional.RegionalIsKept(site, query, now);
    Regional.KeptFromScrapes(site, tries, now);
    var kept := Regional.Kept(site, tries, now);
    forall s | s in kept
      ensures HasPrefetched(s)
    {
      var v :| v in tries && Extract.Scrape(site, v, now) == Some(s);
      Extract.ScrapedSong(site, v, now);
    }
  }

  /** The link the view offers for searching online: the first
      alternative's address, when alternatives are offered. */
  function SearchOnline(v: View): Option<string> {
    if v.showAlternatives && |v.alternatives| > 0 && v.alternatives[0].url.Some?
    then v.alternatives[0].url else None
  }

  /** Without prefetched or provider lyrics, the search link is offered
      exactly for Tamil content, and then searches for the song. */
  lemma SearchOnlineForTamil(v0: View, song: Song, p: Provider)
    requires !HasPrefetched(song) && !ProviderHas(song, p)
    ensures var link := SearchOnline(Resolve(v0, song, p));
      && (link.Some? <==> IsTamilContent(song.title, song.artist))
      && (link.Some? ==> link == TamilHelper(song.title, song.artist).url)
  {
  }

  /** The lyrics view's state, updated in place by `FetchLyrics`. */
  class LyricsScreen {
    const song: Song
    var lyrics: string
    var alternatives: seq<LyricsSource>
    var showAlternatives: bool
    var error: string
    var isLoading: bool

    function Snapshot(): View
      reads this
    {
      View(lyrics, alternatives, showAlternatives, error)
    }

    constructor (song: Song)
      ensures this.song == song && Snapshot() == Initial && isLoading
    {
      this.song := song;
      lyrics, alternatives, showAlternatives, error := "", [], false, "";
      isLoading := true;
    }

    /** `fetchLyrics`: each source in turn until one has lyrics. */
    method FetchLyrics(provider: Provider)
      modifies this
      ensures Snapshot() == Resolve(old(Snapshot()), song, provider)
      ensures !isLoading
    {
      isLoading := true;
      error := "";
      var lyricsFound := false;
      if song.availableSources.Some? && |song.availableSources.value| > 0 {
        var primarySource := song.availableSources.value[0];
        lyrics := primarySource.lyrics;
        alternatives := song.availableSources.value;
        showAlternatives := |song.availableSources.value| > 1;
        lyricsFound := true;
      }
      if !lyricsFound && song.fullSong.Some? {
        var id := song.fullSong.value;
        if id in provider.lyrics {
          var lyricsText := provider.lyrics[id];
          if lyricsText != "" && Trim(lyricsText) != "" {
            lyrics := lyricsText;
            lyricsFound := true;
          }
        }
      }
      if !lyricsFound {
        var altSources := SearchAltLyrics(song.title, song.artist);
        alternatives := altSources;
        showAlternatives := true;
        if |altSources| > 0 {
          lyrics := altSources[0].lyrics;
        } else {
          error := NoSource;
        }
      }
      isLoading := false;
    }
  }

  // ---------------------------------------------------------------------
  // Markdown

  /** The lines of the lyrics, trimmed, blank ones dropped. */
  function CleanLines(lines: seq<string>): (r: seq<string>)
    ensures |r| <= |lines|
    ensures forall l :: l in r ==> l != "" && Trim(l) == l
  {
    if lines == [] then []
    else
      var t := Trim(lines[0]);
      TrimIdempotent(lines[0]);
      var rest := CleanLines(lines[1..]);
      if t == "" then rest else [t] + rest
  }

  /** Each non-blank line is kept, trimmed. */
  lemma {:induction false} CleanLinesKeep(lines: seq<string>, i: nat)
    requires i < |lines| && Trim(lines[i]) != ""
    ensures Trim(lines[i]) in CleanLines(lines)
  {
    if i > 0 {
      CleanLinesKeep(lines[1..], i - 1);
    }
  }

  /** `r` is the subsequence of the trimmed lines at `idx`, and `idx` holds
      every non-blank line. */
  predicate KeptAt(lines: seq<string>, r: seq<string>, idx: seq<nat>) {
    SubseqAt(Extract.TrimAll(lines), r, idx)
    && forall i :: 0 <= i < |lines| && Trim(lines[i]) != "" ==> i in idx
  }

  /** The kept lines are exactly the non-blank trimmed lines, in their
      order: a subsequence of the trimmed lines that passes over blank ones
      only. */
  lemma CleanLinesAt(lines: seq<string>)
    ensures exists idx :: KeptAt(lines, CleanLines(lines), idx)
  {
    var idx := CleanLinesIdx(lines);
  }

  lemma {:induction false} CleanLinesIdx(lines: seq<string>) returns (idx: seq<nat>)
    ensures KeptAt(lines, CleanLines(lines), idx)
  {
    if lines == [] {
      idx := [];
    } else {
      var rest := CleanLines(lines[1..]);
      var idx' := CleanLinesIdx(lines[1..]);
      idx := KeptStep(lines, rest, idx');
    }
  }

  lemma ShiftCovers(lines: seq<string>, idx': seq<nat>)
    requires lines != []
    requires forall i :: 0 <= i < |lines[1..]| && Trim(lines[1..][i]) != "" ==> i in idx'
    ensures forall i :: 1 <= i < |lines| && Trim(lines[i]) != "" ==> i in Shift(idx')
  {
    var sh := Shift(idx');
    forall i | 1 <= i < |lines| && Trim(lines[i]) != "" ensures i in sh {
      assert lines[1..][i - 1] == lines[i];
      var k :| 0 <= k < |idx'| && idx'[k] == i - 1;
      assert sh[k] == i;
    }
  }

  /** One line more in front: a blank one is passed over, any other is kept
      at position 0. */
  lemma KeptStep(lines: seq<string>, rest: seq<string>, idx': seq<nat>) returns (idx: seq<nat>)
    requires lines != [] && KeptAt(lines[1..], rest, idx')
    ensures KeptAt(lines, if Trim(lines[0]) == "" then rest else [Trim(lines[0])] + rest, idx)
  {
    var ts := Extract.TrimAll(lines);
    assert ts[1..] == Extract.TrimAll(lines[1..]);
    SubseqOfTail(ts, rest, idx');
    var sh := Shift(idx');
    ShiftCovers(lines, idx');
    if Trim(lines[0]) == "" {
      idx := sh;
    } else {
      SubseqCons(ts, rest, sh);
      idx := [0] + sh;
      forall i | 0 <= i < |lines| && Trim(lines[i]) != "" ensures i in idx {
        if i > 0 {
          assert i in sh;
        }
      }
    }
  }

  /** The lyrics as the view formats them: one paragraph per non-blank line. */
  function FormatLyrics(lyrics: string): string {
    Join(CleanLines(Split(lyrics, '\n')), "\n\n")
  }

  /** Lines with no line break, trimmed and non-blank, survive being joined
      into paragraphs and split again. */
  lemma {:induction false} CleanJoined(ls: seq<string>)
    requires forall l :: l in ls ==> l != "" && Trim(l) == l && '\n' !in l
    ensures CleanLines(Split(Join(ls, "\n\n"), '\n')) == ls
  {
    if ls == [] {
      assert Trim("") == "";
    } else if |ls| == 1 {
      SplitNoSeparator(ls[0], '\n');
    } else {
      assert forall l :: l in ls[1..] ==> l in ls;
      CleanJoined(ls[1..]);
      var j := Join(ls[1..], "\n\n");
      SplitParagraphs(ls[0], j);
      CleanBlankAfter(ls[0], Split(j, '\n'));
    }
  }

  lemma SplitParagraphs(x: string, j: string)
    requires '\n' !in x
    ensures Split(x + "\n\n" + j, '\n') == [x, ""] + Split(j, '\n')
  {
    assert x + "\n\n" + j == x + ['\n'] + ("\n" + j);
    SplitAfterPiece(x, '\n', "\n" + j);
    assert "\n" + j == [] + ['\n'] + j;
    SplitAfterPiece([], '\n', j);
  }

  lemma CleanBlankAfter(x: string, tail: seq<string>)
    requires x != "" && Trim(x) == x
    ensures CleanLines([x, ""] + tail) == [x] + CleanLines(tail)
  {
    var pieces := [x, ""] + tail;
    assert pieces[1..] == [""] + tail;
    assert ([""] + tail)[1..] == tail;
    assert Trim("") == "";
  }

  /** Formatting already formatted lyrics changes nothing. */
  lemma FormatLyricsIdempotent(lyrics: string)
    ensures FormatLyrics(FormatLyrics(lyrics)) == FormatLyrics(lyrics)
  {
    var ls := CleanLines(Split(lyrics, '\n'));
    forall l | l in ls
      ensures '\n' !in l
    {
      CleanNoBreak(Split(lyrics, '\n'), l);
    }
    CleanJoined(ls);
  }

  lemma {:induction false} CleanNoBreak(lines: seq<string>, l: string)
    requires forall k :: 0 <= k < |lines| ==> '\n' !in lines[k]
    requires l in CleanLines(lines)
    ensures '\n' !in l
  {
    if lines != [] {
      var t := Trim(lines[0]);
      if l == t && t != "" {
        TrimInfix(lines[0]);
      } else {
        CleanNoBreak(lines[1..], l);
      }
    }
  }

  lemma TrimInfix(s: string)
    ensures forall c :: c in Trim(s) ==> c in s
  {
  }

  /** The album line, when the album has a name. */
  function AlbumLine(song: Song): string {
    if song.album.Some? && song.album.value != "" then "**Album:** " + song.album.value + "\n\n" else ""
  }

  /** The song's header above the lyrics: title, artist, album. */
  function SongHeader(song: Song): string {
    "# " + song.title + ArtistLabel + song.artist + HeaderTail(song)
  }

  /** What follows the artist: the album line and the rule. */
  function HeaderTail(song: Song): string {
    "\n\n" + AlbumLine(song) + "---\n\n"
  }

  /** The markdown of the view for `song`: the error with tips, a loading
      notice while there are no lyrics, or the song's header above the
      formatted lyrics. */
  function Markdown(v: View, song: Song): (m: string)
    ensures v.error != "" ==> StartsAt(m, 0, ErrorHead)
    ensures v.error == "" && v.lyrics == "" ==> StartsAt(m, 0, LoadingHead + song.title)
    ensures v.error == "" && v.lyrics != "" ==> StartsAt(m, 0, "# " + song.title + ArtistLabel + song.artist)
  {
    if v.error != "" then ErrorHead + v.error + ErrorTips
    else if v.lyrics == "" then LoadingHead + song.title + LoadingTail
    else SongHeader(song) + FormatLyrics(v.lyrics)
  }

  /** The header names the song and the artist. */
  lemma HeaderNames(song: Song)
    ensures Contains(SongHeader(song), song.title) && Contains(SongHeader(song), song.artist)
  {
    var head, tail := "# " + song.title, HeaderTail(song);
    ContainsInfix("# ", song.title, "");
    assert head + "" == head;
    ContainsExtend(head, song.title, ArtistLabel);
    ContainsExtend(head + ArtistLabel, song.title, song.artist);
    ContainsExtend(head + ArtistLabel + song.artist, song.title, tail);
    ContainsInfix(head + ArtistLabel, song.artist, tail);
  }

  /** Once lyrics are shown, the markdown names the song and the artist and
      ends with the formatted lyrics. */
  lemma MarkdownShowsLyrics(v: View, song: Song)
    requires v.error == "" && v.lyrics != ""
    ensures var m, f := Markdown(v, song), FormatLyrics(v.lyrics);
      && Contains(m, song.title) && Contains(m, song.artist)
      && |f| <= |m| && m[|m| - |f|..] == f
  {
    var h, f := SongHeader(song), FormatLyrics(v.lyrics);
    assert Markdown(v, song) == h + f;
    HeaderNames(song);
    ContainsExtend(h, song.title, f);
    ContainsExtend(h, song.artist, f);
    assert (h + f)[|h|..] == f;
  }

  /** The error form shows the error message. */
  lemma MarkdownShowsError(v: View, song: Song)
    requires v.error != ""
    ensures Contains(Markdown(v, song), v.error)
  {
    ContainsInfix(ErrorHead, v.error, ErrorTips);
  }

  /** While there are no lyrics and no error, the view says it is loading the song. */
  lemma MarkdownLoading(v: View, song: Song)
    requires v.error == "" && v.lyrics == ""
    ensures Contains(Markdown(v, song), song.title)
  {
    ContainsInfix(LoadingHead, song.title, LoadingTail);
  }
}
