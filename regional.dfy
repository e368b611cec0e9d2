/** The regional (Tamil) search: try the first eight slug candidates on
    Tamil2Lyrics.com, keep one song per title, add the alternate sources, and
    fall back to a canned suggestions entry when nothing was found. */
module Regional {
  import opened Wrappers
  import opened Strings
  import opened Seqs
  import opened Types
  import opened Slugs
  import opened Extract
  import opened Canned

  const HelperSite := "https://www.tamil2lyrics.com"

  /** How many slug candidates are tried. */
  const MaxTries := 8

  /** The text of the suggestions entry: the advice naming the query, then
      a closing paragraph naming it again. */
  function SuggestionsText(query: string): string {
    Advice(query) + Closing(query)
  }

  function Closing(query: string): string {
    SpecificHead + query + SpecificTail
  }

  /** `createTamilSearchSuggestions(query)`. */
  function Suggestions(query: string, now: int): Song {
    Song(now, "Search suggestions for Tamil song \"" + query + "\"", "Tamil Lyrics Helper", Some("Search Tips"),
         HelperSite, "💡", None,
         Some([LyricsSource("Search Suggestions", SuggestionsText(query), Some(HelperSite))]))
  }

  /** The suggestions entry names the query in its title and in its text. */
  lemma SuggestionsMentionQuery(query: string, now: int)
    ensures var s := Suggestions(query, now);
      && Contains(s.title, query)
      && s.availableSources.Some? && |s.availableSources.value| == 1
      && Contains(s.availableSources.value[0].lyrics, query)
  {
    ContainsInfix("Search suggestions for Tamil song \"", query, "\"");
    AdviceNamesSong(query);
    ContainsExtend(Advice(query), query, Closing(query));
  }

  /** `scrapeTamilPaa(query)`: the source does not search that site yet. */
  function ScrapeTamilPaa(query: string): Option<Song> {
    None
  }

  /** `scrapeLyricsTamil(query)`: likewise not implemented in the source. */
  function ScrapeLyricsTamil(query: string): Option<Song> {
    None
  }

  /** A song that may be missing, as a sequence of zero or one songs. */
  function AsSeq(o: Option<Song>): seq<Song> {
    if o.Some? then [o.value] else []
  }

  /** `scrapeAlternateTamilSources(query)`: the songs the two alternate
      scrapers return, in order. */
  function AlternateSources(query: string): seq<Song> {
    AsSeq(ScrapeTamilPaa(query)) + AsSeq(ScrapeLyricsTamil(query))
  }

  /** Since both alternate scrapers are placeholders, they never contribute. */
  lemma AlternateSourcesEmpty(query: string)
    ensures AlternateSources(query) == []
  {
  }

  function TitleOf(s: Song): string {
    s.title
  }

  /** The songs scraped from the candidate slugs, in the order tried. */
  function Found(site: map<string, Page>, slugs: seq<string>, now: int): seq<Song>
    decreases |slugs|
  {
    if slugs == [] then []
    else Found(site, slugs[..|slugs| - 1], now) + AsSeq(Scrape(site, slugs[|slugs| - 1], now))
  }

  /** Trying one more slug appends what its page yields. */
  lemma FoundStep(site: map<string, Page>, slugs: seq<string>, i: nat, now: int)
    requires i < |slugs|
    ensures Found(site, slugs[..i + 1], now) == Found(site, slugs[..i], now) + AsSeq(Scrape(site, slugs[i], now))
  {
    assert slugs[..i + 1][..i] == slugs[..i];
  }

  /** Every scraped song comes from one of the slugs, and every slug whose
      page yields a song contributes it. */
  lemma {:induction false} FoundFrom(site: map<string, Page>, slugs: seq<string>, now: int)
    ensures |Found(site, slugs, now)| <= |slugs|
    ensures forall s :: s in Found(site, slugs, now) ==>
      exists v :: v in slugs && Scrape(site, v, now) == Some(s)
    ensures forall v :: v in slugs && Scrape(site, v, now).Some? ==>
      Scrape(site, v, now).value in Found(site, slugs, now)
    decreases |slugs|
  {
    if slugs != [] {
      var init, last := slugs[..|slugs| - 1], slugs[|slugs| - 1];
      FoundFrom(site, init, now);
      var f, o := Found(site, init, now), AsSeq(Scrape(site, last, now));
      assert Found(site, slugs, now) == f + o;
      assert forall v :: v in slugs ==> v in init || v == last by {
        assert slugs == init + [last];
      }
      forall s | s in f + o
        ensures exists v :: v in slugs && Scrape(site, v, now) == Some(s)
      {
        if s !in f {
          assert Scrape(site, last, now) == Some(s);
        }
      }
    }
  }

  /** The slugs tried: the first eight candidates, in the generator's order. */
  function Tries(query: string): (ts: seq<string>)
    ensures |ts| <= MaxTries
    ensures forall v :: v in ts ==> v in ComprehensiveVariations(query)
    ensures var vs := ComprehensiveVariations(query);
      |ts| == (if |vs| <= MaxTries then |vs| else MaxTries) && ts == vs[..|ts|]
  {
    var vs := ComprehensiveVariations(query);
    if |vs| <= MaxTries then vs else vs[..MaxTries]
  }

  /** `searchRegionalLyrics(query)`. */
  function RegionalResults(site: map<string, Page>, query: string, now: int): (r: seq<Song>)
    ensures r != []
  {
    WithFallback(FirstPerKey(Found(site, Tries(query), now) + AlternateSources(query), TitleOf), Suggestions(query, now))
  }

  /** The songs found, or the suggestions entry alone when there are none. */
  function WithFallback(songs: seq<Song>, suggestions: Song): seq<Song> {
    if songs == [] then [suggestions] else songs
  }

  /** The songs kept from the tried slugs: one per title, first found wins. */
  function Kept(site: map<string, Page>, tries: seq<string>, now: int): seq<Song> {
    FirstPerKey(Found(site, tries, now), TitleOf)
  }

  /** With the alternate sources contributing nothing, the results are the
      kept songs, or the suggestions entry when none was kept. */
  lemma RegionalIsKept(site: map<string, Page>, query: string, now: int)
    ensures RegionalResults(site, query, now) == WithFallback(Kept(site, Tries(query), now), Suggestions(query, now))
  {
    AlternateSourcesEmpty(query);
    var found := Found(site, Tries(query), now);
    assert found + AlternateSources(query) == found;
  }

  /** No slug yields a song exactly when nothing is scraped. */
  lemma FoundEmpty(site: map<string, Page>, slugs: seq<string>, now: int)
    ensures Found(site, slugs, now) == [] <==> forall v :: v in slugs ==> Scrape(site, v, now).None?
  {
    var found := Found(site, slugs, now);
    FoundFrom(site, slugs, now);
    if found != [] {
      assert found[0] in found;
    }
  }

  /** Each kept song is the page of a tried slug, and each title some tried
      slug yields is kept. */
  lemma KeptFromScrapes(site: map<string, Page>, tries: seq<string>, now: int)
    ensures var r := Kept(site, tries, now);
      && (forall s :: s in r ==> exists v :: v in tries && Scrape(site, v, now) == Some(s))
      && (forall v :: v in tries && Scrape(site, v, now).Some? ==>
            exists s :: s in r && s.title == Scrape(site, v, now).value.title)
  {
    var found, kept := Found(site, tries, now), Kept(site, tries, now);
    FoundFrom(site, tries, now);
    forall v | v in tries && Scrape(site, v, now).Some?
      ensures exists s :: s in kept && s.title == Scrape(site, v, now).value.title
    {
      var x := Scrape(site, v, now).value;
      assert HasKey(kept, TitleOf, TitleOf(x));
      var k :| 0 <= k < |kept| && TitleOf(kept[k]) == TitleOf(x);
      assert kept[k] in kept;
    }
  }

  /** The result list is never empty, holds at most one song per title, and
      at most one song per tried slug. */
  lemma RegionalShape(site: map<string, Page>, query: string, now: int)
    ensures var r := RegionalResults(site, query, now);
      && 1 <= |r| <= MaxTries
      && forall i, j :: 0 <= i < j < |r| ==> r[i].title != r[j].title
  {
    RegionalIsKept(site, query, now);
    FoundFrom(site, Tries(query), now);
  }

  /** When some tried slug yields a song, the results are exactly the kept
      scraped songs: each is the page of a tried slug, and each title some
      tried slug yields is among them. */
  lemma RegionalFromScrapes(site: map<string, Page>, query: string, now: int)
    requires exists v :: v in Tries(query) && Scrape(site, v, now).Some?
    ensures var r := RegionalResults(site, query, now);
      && (forall s :: s in r ==> exists v :: v in Tries(query) && Scrape(site, v, now) == Some(s))
      && (forall v :: v in Tries(query) && Scrape(site, v, now).Some? ==>
            exists s :: s in r && s.title == Scrape(site, v, now).value.title)
  {
    RegionalIsKept(site, query, now);
    FoundEmpty(site, Tries(query), now);
    KeptFromScrapes(site, Tries(query), now);
  }

  /** Every kept song carries the scraper's note thumbnail. */
  lemma KeptThumbnails(site: map<string, Page>, tries: seq<string>, now: int)
    ensures forall s :: s in Kept(site, tries, now) ==> s.thumbnail == "🎵"
  {
    KeptFromScrapes(site, tries, now);
    forall s | s in Kept(site, tries, now) ensures s.thumbnail == "🎵" {
      var w :| w in tries && Scrape(site, w, now) == Some(s);
      ScrapedSong(site, w, now);
    }
  }

  /** Nothing is kept exactly when nothing is scraped. */
  lemma KeptEmpty(site: map<string, Page>, tries: seq<string>, now: int)
    ensures Kept(site, tries, now) == [] <==> Found(site, tries, now) == []
  {
    var found := Found(site, tries, now);
    if found != [] {
      assert found[0] in found;
      assert HasKey(Kept(site, tries, now), TitleOf, TitleOf(found[0]));
    }
  }

  /** The fallback list is the entry alone exactly when nothing was found,
      provided no found song could be mistaken for the entry. */
  lemma FallbackAlone(songs: seq<Song>, suggestions: Song)
    requires forall s :: s in songs ==> s.thumbnail != suggestions.thumbnail
    ensures WithFallback(songs, suggestions) == [suggestions] <==> songs == []
  {
    if songs != [] {
      assert songs[0] in songs;
    }
  }

  /** The suggestions entry alone is the answer exactly when no tried slug
      yields a song. */
  lemma RegionalFallback(site: map<string, Page>, query: string, now: int)
    ensures RegionalResults(site, query, now) == [Suggestions(query, now)]
      <==> forall v :: v in Tries(query) ==> Scrape(site, v, now).None?
  {
    RegionalIsKept(site, query, now);
    FoundEmpty(site, Tries(query), now);
    KeptEmpty(site, Tries(query), now);
    KeptThumbnails(site, Tries(query), now);
    FallbackAlone(Kept(site, Tries(query), now), Suggestions(query, now));
  }

  /** Pushing a possibly missing song when no kept song has its title
      extends the title-deduplicated sequence by that song. */
  lemma PushStep(songs: seq<Song>, d: seq<Song>, o: Option<Song>)
    requires songs == FirstPerKey(d, TitleOf)
    ensures FirstPerKey(d + AsSeq(o), TitleOf)
      == if o.Some? && !HasKey(songs, TitleOf, o.value.title) then songs + [o.value] else songs
  {
    if o.Some? {
      assert (d + [o.value])[..|d|] == d;
    } else {
      assert d + [] == d;
    }
  }

  /** The loop over the tried slugs. */
  method TryCandidates(site: map<string, Page>, tries: seq<string>, now: int) returns (songs: seq<Song>)
    ensures songs == FirstPerKey(Found(site, tries, now), TitleOf)
  {
    songs := [];
    var i := 0;
    while i < |tries|
      invariant 0 <= i <= |tries|
      invariant songs == FirstPerKey(Found(site, tries[..i], now), TitleOf)
    {
      var result := ScrapeTamil2Lyrics(site, tries[i], now);
      FoundStep(site, tries, i, now);
      PushStep(songs, Found(site, tries[..i], now), result);
      if result.Some? && !HasKey(songs, TitleOf, result.value.title) {
        songs := songs + [result.value];
      }
      i := i + 1;
    }
    assert tries[..i] == tries;
  }

  /** The loop over the alternate results. */
  method AddAlternates(songs0: seq<Song>, found: seq<Song>, alternates: seq<Song>) returns (songs: seq<Song>)
    requires songs0 == FirstPerKey(found, TitleOf)
    ensures songs == FirstPerKey(found + alternates, TitleOf)
  {
    songs := songs0;
    var j := 0;
    AppendStep(found, alternates, 0);
    while j < |alternates|
      invariant 0 <= j <= |alternates|
      invariant songs == FirstPerKey(found + alternates[..j], TitleOf)
    {
      var result := alternates[j];
      AppendStep(found, alternates, j + 1);
      PushStep(songs, found + alternates[..j], Some(result));
      if !HasKey(songs, TitleOf, result.title) {
        songs := songs + [result];
      }
      j := j + 1;
    }
    AppendStep(found, alternates, |alternates|);
  }

  lemma AppendStep(found: seq<Song>, alternates: seq<Song>, j: nat)
    requires j <= |alternates|
    ensures j == 0 ==> found + alternates[..j] == found
    ensures j > 0 ==> found + alternates[..j] == found + alternates[..j - 1] + AsSeq(Some(alternates[j - 1]))
    ensures j == |alternates| ==> alternates[..j] == alternates
  {
    if j > 0 {
      assert alternates[..j] == alternates[..j - 1] + [alternates[j - 1]];
    }
  }

  /** The search as the source runs it, with the fallback entry given. */
  method SearchWith(site: map<string, Page>, query: string, suggestions: Song, now: int) returns (songs: seq<Song>)
    ensures songs == WithFallback(FirstPerKey(Found(site, Tries(query), now) + AlternateSources(query), TitleOf), suggestions)
  {
    var variations := GenerateComprehensiveVariations(query);
    var tries := if |variations| <= MaxTries then variations else variations[..MaxTries];
    songs := TryCandidates(site, tries, now);
    songs := AddAlternates(songs, Found(site, tries, now), AlternateSources(query));
    if songs == [] {
      songs := [suggestions];
    }
  }

  /** `searchRegionalLyrics(query)`. */
  method SearchRegionalLyrics(site: map<string, Page>, query: string, now: int) returns (songs: seq<Song>)
    ensures songs == RegionalResults(site, query, now)
  {
    songs := SearchWith(site, query, Suggestions(query, now), now);
  }
}
