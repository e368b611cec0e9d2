/** The search screen: the query guard, the lyrics provider's song search,
    the artist list built from a song search (one artist per name, the first
    ten, sorted by name), an artist's songs with the name-filter fallback,
    and the regional search. */
module Catalog {
  import opened Wrappers
  import opened Strings
  import opened Regex
  import opened Seqs
  import opened Types
  import opened Extract
  import opened Regional

  datatype Mode = SongMode | ArtistMode | RegionalMode

  const SongLimit := 10
  const ArtistLimit := 10
  const ArtistSongLimit := 20

  // ---------------------------------------------------------------- songs

  /** A provider song object as a result row; the object itself (its id)
      is kept as the handle for fetching its lyrics. */
  function ToSong(h: Hit): Song {
    Song(h.id, h.title, h.artistName, h.album, h.url, h.thumbnail, Some(h.id), None)
  }

  /** One row per song object, in order: the id, title, artist name,
      album, address and thumbnail are carried over, the object is kept as
      the lyrics handle, and no lyrics are prefetched. */
  function ToSongs(hits: seq<Hit>): (songs: seq<Song>)
    ensures |songs| == |hits|
    ensures forall i :: 0 <= i < |hits| ==>
      && songs[i].id == hits[i].id && songs[i].title == hits[i].title
      && songs[i].artist == hits[i].artistName && songs[i].album == hits[i].album
      && songs[i].url == hits[i].url && songs[i].thumbnail == hits[i].thumbnail
      && songs[i].fullSong == Some(hits[i].id) && songs[i].availableSources == None
  {
    seq(|hits|, i requires 0 <= i < |hits| => ToSong(hits[i]))
  }

  // -------------------------------------------------------------- artists

  /** `artistName.replace(/\s+/g, '-')`. */
  function ArtistSlug(name: string): string {
    ReplaceAll(Run(WhiteSpace, 1), name, "-")
  }

  /** The fallback artist address has no white space left in it. */
  lemma ArtistSlugNoSpace(name: string)
    ensures forall c :: c in ArtistSlug(name) ==> !IsSpace(c)
  {
    forall j | 0 <= j < |name| && MatchLen(Run(WhiteSpace, 1), name, j) == 0
      ensures !IsSpace(name[j])
    {
      assert RunLen(name, j, WhiteSpace) == 0;
    }
    ReplaceKeeps(Run(WhiteSpace, 1), name, "-", 0, c => !IsSpace(c));
  }

  function ArtistUrl(h: Hit): string {
    if h.artistUrl != "" then h.artistUrl else "https://genius.com/artists/" + ArtistSlug(h.artistName)
  }

  function ArtistThumbnail(h: Hit): string {
    if h.artistImage != "" then h.artistImage
    else if h.thumbnail != "" then h.thumbnail
    else "👨‍🎤"
  }

  /** The artist entry made from a song object's artist. */
  function ToArtist(h: Hit): Artist {
    Artist(h.artistId, h.artistName, ArtistUrl(h), ArtistThumbnail(h))
  }

  /** An artist entry always has an address and a thumbnail: the provider's
      own when it has one, otherwise the fallbacks in order. */
  lemma ToArtistFallbacks(h: Hit)
    ensures var a := ToArtist(h);
      && a.id == h.artistId && a.name == h.artistName
      && a.url != "" && a.thumbnail != ""
      && (h.artistUrl != "" ==> a.url == h.artistUrl)
      && (h.artistUrl == "" ==> forall c :: c in a.url[|"https://genius.com/artists/"|..] ==> !IsSpace(c))
      && (h.artistImage != "" ==> a.thumbnail == h.artistImage)
      && (h.artistImage == "" && h.thumbnail != "" ==> a.thumbnail == h.thumbnail)
  {
    ArtistSlugNoSpace(h.artistName);
    var p := "https://genius.com/artists/";
    if h.artistUrl == "" {
      assert ArtistUrl(h)[|p|..] == ArtistSlug(h.artistName);
    }
  }

  function NameOf(a: Artist): string {
    a.name
  }

  function HitArtists(hits: seq<Hit>): (arts: seq<Artist>)
    ensures |arts| == |hits|
    ensures forall i :: 0 <= i < |hits| ==> arts[i] == ToArtist(hits[i])
  {
    seq(|hits|, i requires 0 <= i < |hits| => ToArtist(hits[i]))
  }

  /** The values of the artist map after the `forEach`: one artist per name,
      the first song object with that name deciding, in insertion order. */
  function UniqueArtists(hits: seq<Hit>): seq<Artist> {
    FirstPerKey(HitArtists(hits), NameOf)
  }

  /** The `forEach` that fills the artist map: an artist is set only when
      its name is not yet a key. */
  method CollectArtists(hits: seq<Hit>) returns (artists: seq<Artist>)
    ensures artists == UniqueArtists(hits)
  {
    ghost var arts := HitArtists(hits);
    artists := [];
    var i := 0;
    while i < |hits|
      invariant 0 <= i <= |hits|
      invariant artists == FirstPerKey(arts[..i], NameOf)
    {
      var a := ToArtist(hits[i]);
      assert arts[i] == a;
      PrefixStep(arts, i);
      FirstPerKeyPush(arts[..i], a, NameOf);
      if !HasKey(artists, NameOf, NameOf(a)) {
        artists := artists + [a];
      }
      i := i + 1;
    }
    assert arts[..i] == arts;
  }

  /** The collected artists have different names, and every artist name of
      the search is among them. */
  lemma UniqueArtistsCover(hits: seq<Hit>)
    ensures var u := UniqueArtists(hits);
      && (forall i, j :: 0 <= i < j < |u| ==> u[i].name != u[j].name)
      && (forall h :: h in hits ==> exists a :: a in u && a.name == h.artistName)
  {
    var arts, u := HitArtists(hits), UniqueArtists(hits);
    forall h | h in hits ensures exists a :: a in u && a.name == h.artistName {
      var i :| 0 <= i < |hits| && hits[i] == h;
      assert arts[i] in arts;
      assert HasKey(u, NameOf, NameOf(arts[i]));
      var k :| 0 <= k < |u| && NameOf(u[k]) == NameOf(arts[i]);
      assert u[k] in u;
    }
  }

  /** The collected artists keep the order of the song objects they come
      from. */
  lemma UniqueArtistsInOrder(hits: seq<Hit>)
    ensures var u := UniqueArtists(hits);
      exists idx: seq<nat> :: |idx| == |u| && Increasing(idx)
        && forall k :: 0 <= k < |u| ==> idx[k] < |hits| && u[k] == ToArtist(hits[idx[k]])
  {
    var arts, u := HitArtists(hits), UniqueArtists(hits);
    FirstPerKeyOrigins(arts, NameOf);
    var idx: seq<nat> :| PickedAt(arts, NameOf, u, idx);
    assert forall k :: 0 <= k < |u| ==> idx[k] < |hits| && u[k] == ToArtist(hits[idx[k]]);
  }

  // -------------------------------------------------------------- sorting

  /** Code-point lexicographic order on names, standing in for
      `localeCompare`. */
  predicate NameLe(a: string, b: string)
    decreases |a|
  {
    a == [] || (b != [] && (a[0] < b[0] || (a[0] == b[0] && NameLe(a[1..], b[1..]))))
  }

  lemma {:induction false} NameLeTotal(a: string, b: string)
    ensures NameLe(a, b) || NameLe(b, a)
    decreases |a|
  {
    if a != [] && b != [] && a[0] == b[0] {
      NameLeTotal(a[1..], b[1..]);
    }
  }

  predicate SortedByName(s: seq<Artist>) {
    forall i :: 0 < i < |s| ==> NameLe(s[i - 1].name, s[i].name)
  }

  /** Insertion of one artist into a name-sorted list, before the first
      artist it does not follow. */
  function InsertByName(a: Artist, s: seq<Artist>): (r: seq<Artist>)
    requires SortedByName(s)
    ensures multiset(r) == multiset(s) + multiset{a}
    ensures SortedByName(r)
    ensures |r| == |s| + 1 && (r[0] == a || (s != [] && r[0] == s[0]))
  {
    if s == [] then [a]
    else if NameLe(a.name, s[0].name) then [a] + s
    else
      NameLeTotal(a.name, s[0].name);
      var t := InsertByName(a, s[1..]);
      assert s == [s[0]] + s[1..];
      [s[0]] + t
  }

  /** `.sort((a, b) => a.name.localeCompare(b.name))`. */
  function SortByName(s: seq<Artist>): (r: seq<Artist>)
    ensures multiset(r) == multiset(s)
    ensures SortedByName(r)
  {
    if s == [] then []
    else
      assert s == [s[0]] + s[1..];
      InsertByName(s[0], SortByName(s[1..]))
  }

  /** The artist list shown: the first ten collected artists, sorted. */
  function ArtistList(hits: seq<Hit>): seq<Artist> {
    SortByName(Take(UniqueArtists(hits), ArtistLimit))
  }

  /** Rearranging artists with different names keeps the names different. */
  lemma DistinctNamesPermutation(t: seq<Artist>, r: seq<Artist>)
    requires multiset(t) == multiset(r)
    requires forall i, j :: 0 <= i < j < |t| ==> t[i].name != t[j].name
    ensures forall i, j :: 0 <= i < j < |r| ==> r[i].name != r[j].name
  {
    assert NoDups(t) by {
      forall i, j | 0 <= i < j < |t| ensures t[i] != t[j] {
        assert t[i].name != t[j].name;
      }
    }
    NoDupsPermutation(t, r);
    forall i, j | 0 <= i < j < |r| ensures r[i].name != r[j].name {
      assert r[i] in multiset(t) && r[j] in multiset(t);
      var p :| 0 <= p < |t| && t[p] == r[i];
      var q :| 0 <= q < |t| && t[q] == r[j];
      assert r[i] != r[j];
    }
  }

  /** The artist list holds at most ten artists with different names,
      sorted by name, and is a rearrangement of the first ten collected
      artists. */
  lemma ArtistListWellFormed(hits: seq<Hit>)
    ensures var r := ArtistList(hits);
      && |r| <= ArtistLimit
      && SortedByName(r)
      && (forall i, j :: 0 <= i < j < |r| ==> r[i].name != r[j].name)
      && multiset(r) == multiset(Take(UniqueArtists(hits), ArtistLimit))
  {
    var u := UniqueArtists(hits);
    var t := Take(u, ArtistLimit);
    var r := ArtistList(hits);
    assert |multiset(r)| == |multiset(t)|;
    forall i, j | 0 <= i < j < |t| ensures t[i].name != t[j].name {
      assert t[i] == u[i] && t[j] == u[j];
      assert NameOf(u[i]) != NameOf(u[j]);
    }
    DistinctNamesPermutation(t, r);
  }

  /** No song object before the `k`th has the `k`th one's artist name. */
  predicate FirstWithName(hits: seq<Hit>, k: nat)
    requires k < |hits|
  {
    forall b :: 0 <= b < k ==> hits[b].artistName != hits[k].artistName
  }

  /** Each collected artist is the artist of the first song object with its
      name. */
  lemma UniqueArtistsFromFirst(hits: seq<Hit>)
    ensures forall a :: a in UniqueArtists(hits) ==>
      exists k :: 0 <= k < |hits| && FirstWithName(hits, k) && a == ToArtist(hits[k])
  {
    var arts, u := HitArtists(hits), UniqueArtists(hits);
    FirstPerKeyOrigins(arts, NameOf);
    var idx: seq<nat> :| PickedAt(arts, NameOf, u, idx);
    forall a | a in u ensures exists k :: 0 <= k < |hits| && FirstWithName(hits, k) && a == ToArtist(hits[k]) {
      var p :| 0 <= p < |u| && u[p] == a;
      var k := idx[p];
      forall b | 0 <= b < k ensures hits[b].artistName != hits[k].artistName {
        assert NameOf(arts[b]) != NameOf(u[p]);
      }
      assert FirstWithName(hits, k);
    }
  }

  /** Each listed artist is the artist of the first song object with its
      name. */
  lemma ArtistListFirstWins(hits: seq<Hit>)
    ensures forall a :: a in ArtistList(hits) ==>
      exists k :: 0 <= k < |hits| && FirstWithName(hits, k) && a == ToArtist(hits[k])
  {
    var u := UniqueArtists(hits);
    var t := Take(u, ArtistLimit);
    UniqueArtistsFromFirst(hits);
    forall a | a in ArtistList(hits) ensures a in u {
      assert a in multiset(t);
      var p :| 0 <= p < |t| && t[p] == a;
      assert u[p] == a;
    }
  }

  // ------------------------------------------------------- artist's songs

  /** `searches.filter(song => song.artist.name.toLowerCase() ===
      selectedArtist.name.toLowerCase())`. */
  function ByArtistName(hits: seq<Hit>, name: string): (r: seq<Hit>)
    ensures |r| <= |hits|
    ensures forall h :: h in r ==> Lower(h.artistName) == Lower(name)
  {
    if hits == [] then []
    else
      var rest := ByArtistName(hits[1..], name);
      if Lower(hits[0].artistName) == Lower(name) then [hits[0]] + rest else rest
  }

  /** The filter keeps exactly the song objects whose artist name matches,
      in search order. */
  lemma {:induction false} ByArtistNameKeeps(hits: seq<Hit>, name: string)
    ensures forall h :: h in ByArtistName(hits, name) <==> h in hits && Lower(h.artistName) == Lower(name)
    ensures exists idx :: SubseqAt(hits, ByArtistName(hits, name), idx)
  {
    if hits == [] {
      var none: seq<nat> := [];
      assert SubseqAt(hits, ByArtistName(hits, name), none);
    } else {
      ByArtistNameKeeps(hits[1..], name);
      assert hits == [hits[0]] + hits[1..];
      var k := ByArtistName(hits[1..], name);
      var idx: seq<nat> :| SubseqAt(hits[1..], k, idx);
      SubseqOfTail(hits, k, idx);
      if Lower(hits[0].artistName) == Lower(name) {
        SubseqCons(hits, k, Shift(idx));
      }
    }
  }

  /** The fallback list for a selected artist: the first twenty matches. */
  function ArtistFallback(hits: seq<Hit>, name: string): seq<Song> {
    ToSongs(Take(ByArtistName(hits, name), ArtistSongLimit))
  }

  /** Converting keeps a subsequence a subsequence at the same positions. */
  lemma ToSongsSubseq(hits: seq<Hit>, t: seq<Hit>, idx: seq<nat>)
    requires SubseqAt(hits, t, idx)
    ensures SubseqAt(ToSongs(hits), ToSongs(t), idx)
  {
    forall k | 0 <= k < |idx| ensures idx[k] < |ToSongs(hits)| && ToSongs(hits)[idx[k]] == ToSongs(t)[k] {
      assert hits[idx[k]] == t[k];
    }
  }

  /** At most twenty songs, each by an artist whose name equals the selected
      one ignoring case, taken from the search in its order. */
  lemma ArtistFallbackSound(hits: seq<Hit>, name: string)
    ensures var r := ArtistFallback(hits, name);
      && |r| <= ArtistSongLimit
      && (forall s :: s in r ==> Lower(s.artist) == Lower(name))
      && (exists idx :: SubseqAt(ToSongs(hits), r, idx))
  {
    var f := ByArtistName(hits, name);
    var t := Take(f, ArtistSongLimit);
    ByArtistNameKeeps(hits, name);
    var idx: seq<nat> :| SubseqAt(hits, f, idx);
    TakeSubseq(hits, f, idx, ArtistSongLimit);
    ToSongsSubseq(hits, t, idx[..|t|]);
    forall s | s in ToSongs(t) ensures Lower(s.artist) == Lower(name) {
      var k :| 0 <= k < |t| && ToSongs(t)[k] == s;
      assert t[k] in f;
    }
  }

  /** Each matching song object is kept as often as the search returns it. */
  lemma {:induction false} ByArtistNameCounts(hits: seq<Hit>, name: string, h: Hit)
    ensures multiset(ByArtistName(hits, name))[h]
      == if Lower(h.artistName) == Lower(name) then multiset(hits)[h] else 0
  {
    if hits != [] {
      ByArtistNameCounts(hits[1..], name, h);
      assert hits == [hits[0]] + hits[1..];
    }
  }

  /** With more than twenty matches, the list is the first twenty of them,
      in search order. */
  lemma ArtistFallbackFirst(hits: seq<Hit>, name: string)
    requires |ByArtistName(hits, name)| > ArtistSongLimit
    ensures var r, f := ArtistFallback(hits, name), ByArtistName(hits, name);
      |r| == ArtistSongLimit && forall k :: 0 <= k < ArtistSongLimit ==> r[k] == ToSong(f[k])
  {
  }

  /** When at most twenty song objects match, none of them is lost. */
  lemma ArtistFallbackComplete(hits: seq<Hit>, name: string)
    requires |ByArtistName(hits, name)| <= ArtistSongLimit
    ensures forall h :: h in hits && Lower(h.artistName) == Lower(name) ==> ToSong(h) in ArtistFallback(hits, name)
  {
    var f := ByArtistName(hits, name);
    ByArtistNameKeeps(hits, name);
    forall h | h in hits && Lower(h.artistName) == Lower(name) ensures ToSong(h) in ArtistFallback(hits, name) {
      var k :| 0 <= k < |f| && f[k] == h;
      assert ArtistFallback(hits, name)[k] == ToSong(h);
    }
  }

  // --------------------------------------------------------------- search

  /** What a search leaves on the screen. */
  datatype Lists = Lists(songs: seq<Song>, artists: seq<Artist>)

  /** Song mode: the first ten song objects of the search. */
  function SongModeLists(provider: Provider, text: string): Lists {
    if text in provider.search then Lists(ToSongs(Take(provider.search[text], SongLimit)), [])
    else Lists([], [])
  }

  /** Artist mode: the artist list when no artist is selected, otherwise the
      selected artist's songs, from its listing or from the name filter. */
  function ArtistModeLists(provider: Provider, text: string, selected: Option<Artist>): Lists {
    match selected
    case None =>
      if text in provider.search then Lists([], ArtistList(provider.search[text])) else Lists([], [])
    case Some(a) =>
      if a.id in provider.artistSongs then Lists(ToSongs(provider.artistSongs[a.id]), [])
      else if a.name in provider.search then Lists(ArtistFallback(provider.search[a.name], a.name), [])
      else Lists([], [])
  }

  /** The search effect. `artists0` is the artist list before it runs; the
      query guard leaves it as it was. Every call into the provider that
      raises, and a provider that could not be loaded, clear both lists. */
  function SearchOutcome(provider: Provider, site: map<string, Page>, mode: Mode, text: string,
                         selected: Option<Artist>, artists0: seq<Artist>, now: int): (r: Lists)
    ensures |Trim(text)| >= 2 && mode != ArtistMode ==> r.artists == []
  {
    if |Trim(text)| < 2 then Lists([], artists0)
    else if !provider.available then Lists([], [])
    else
      match mode
      case SongMode => SongModeLists(provider, text)
      case ArtistMode => ArtistModeLists(provider, text, selected)
      case RegionalMode => Lists(RegionalResults(site, text, now), [])
  }

  /** A query shorter than two characters once trimmed never reaches the
      provider or the network: the outcome is the same whatever they hold,
      and no songs are shown. */
  lemma ShortQueryNeverSearches(p1: Provider, p2: Provider, site1: map<string, Page>, site2: map<string, Page>,
                                mode: Mode, text: string, selected: Option<Artist>, artists0: seq<Artist>, now: int)
    requires |Trim(text)| < 2
    ensures SearchOutcome(p1, site1, mode, text, selected, artists0, now)
         == SearchOutcome(p2, site2, mode, text, selected, artists0, now)
         == Lists([], artists0)
  {
  }

  /** In song mode the songs are the first ten song objects of the search,
      in order, each keeping its object as the lyrics handle. */
  lemma SongModeResults(provider: Provider, site: map<string, Page>, text: string,
                        selected: Option<Artist>, artists0: seq<Artist>, now: int)
    requires |Trim(text)| >= 2 && provider.available && text in provider.search
    ensures var o := SearchOutcome(provider, site, SongMode, text, selected, artists0, now);
      var hits := provider.search[text];
      && o.artists == []
      && |o.songs| == (if |hits| <= SongLimit then |hits| else SongLimit)
      && forall i :: 0 <= i < |o.songs| ==>
           o.songs[i].id == hits[i].id && o.songs[i].title == hits[i].title
           && o.songs[i].fullSong == Some(hits[i].id) && o.songs[i].availableSources.None?
  {
  }

  /** In artist mode with no artist selected, the artist list replaces the
      songs, and the songs are cleared. */
  lemma ArtistModeResults(provider: Provider, site: map<string, Page>, text: string,
                          artists0: seq<Artist>, now: int)
    requires |Trim(text)| >= 2 && provider.available && text in provider.search
    ensures var o := SearchOutcome(provider, site, ArtistMode, text, None, artists0, now);
      && o.songs == []
      && |o.artists| <= ArtistLimit && SortedByName(o.artists)
      && (forall i, j :: 0 <= i < j < |o.artists| ==> o.artists[i].name != o.artists[j].name)
      && forall a :: a in o.artists ==> exists k :: (0 <= k < |provider.search[text]|
           && FirstWithName(provider.search[text], k) && a == ToArtist(provider.search[text][k]))
  {
    ArtistListWellFormed(provider.search[text]);
    ArtistListFirstWins(provider.search[text]);
  }

  /** With an artist selected, its songs come from the provider's artist
      listing when that call succeeds, and otherwise from the name-filtered
      song search; a failing search clears both lists. */
  lemma SelectedArtistResults(provider: Provider, site: map<string, Page>, text: string,
                              a: Artist, artists0: seq<Artist>, now: int)
    requires |Trim(text)| >= 2 && provider.available
    ensures var o := SearchOutcome(provider, site, ArtistMode, text, Some(a), artists0, now);
      && o.artists == []
      && (a.id in provider.artistSongs ==>
            o.songs == ToSongs(provider.artistSongs[a.id]) && |o.songs| == |provider.artistSongs[a.id]|)
      && (a.id !in provider.artistSongs && a.name in provider.search ==>
            |o.songs| <= ArtistSongLimit && forall s :: s in o.songs ==> Lower(s.artist) == Lower(a.name))
      && (a.id !in provider.artistSongs && a.name !in provider.search ==> o.songs == [])
  {
    if a.id !in provider.artistSongs && a.name in provider.search {
      ArtistFallbackSound(provider.search[a.name], a.name);
    }
  }

  /** When the provider's library could not be loaded, every search that
      passes the guard, in every mode, ends with both lists empty. */
  lemma MissingProviderClears(provider: Provider, site: map<string, Page>, mode: Mode, text: string,
                              selected: Option<Artist>, artists0: seq<Artist>, now: int)
    requires |Trim(text)| >= 2 && !provider.available
    ensures SearchOutcome(provider, site, mode, text, selected, artists0, now) == Lists([], [])
  {
  }

  // --------------------------------------------------------------- screen

  /** The search screen's state. */
  class SearchScreen {
    var searchText: string
    var mode: Mode
    var selected: Option<Artist>
    var songs: seq<Song>
    var artists: seq<Artist>

    constructor()
      ensures searchText == "" && mode == SongMode && selected == None && songs == [] && artists == []
    {
      searchText := "";
      mode := SongMode;
      selected := None;
      songs := [];
      artists := [];
    }

    /** The mode drop-down: any choice clears the songs; a different mode
        also clears the selection and the artists, since the reset effect
        runs only when the mode changes. */
    method ChangeMode(m: Mode)
      modifies this
      ensures mode == m && searchText == old(searchText) && songs == []
      ensures m != old(mode) ==> selected == None && artists == []
      ensures m == old(mode) ==> selected == old(selected) && artists == old(artists)
    {
      if m != mode {
        mode := m;
        selected := None;
        artists := [];
      }
      songs := [];
    }

    /** "View Artist's Songs": select the artist and search for its name. */
    method ViewArtistSongs(a: Artist)
      modifies this
      ensures selected == Some(a) && searchText == a.name
      ensures mode == old(mode) && songs == old(songs) && artists == old(artists)
    {
      selected := Some(a);
      searchText := a.name;
    }

    /** "Back to Artists": drop the selection and clear the query. */
    method BackToArtists()
      modifies this
      ensures selected == None && searchText == ""
      ensures mode == old(mode) && songs == old(songs) && artists == old(artists)
    {
      selected := None;
      searchText := "";
    }

    /** The search effect, run on the current query, mode and selection. */
    method PerformSearch(provider: Provider, site: map<string, Page>, now: int)
      modifies this
      ensures Lists(songs, artists) == SearchOutcome(provider, site, mode, searchText, selected, old(artists), now)
      ensures searchText == old(searchText) && mode == old(mode) && selected == old(selected)
    {
      if |Trim(searchText)| < 2 {
        songs := [];
        return;
      }
      if !provider.available {
        songs, artists := [], [];
        return;
      }
      var lists: Lists;
      match mode {
        case SongMode =>
          lists := SearchSongs(provider, searchText);
        case ArtistMode =>
          lists := SearchArtists(provider, searchText, selected);
        case RegionalMode =>
          var results := SearchRegionalLyrics(site, searchText, now);
          lists := Lists(results, []);
      }
      songs, artists := lists.songs, lists.artists;
    }
  }

  /** The song-mode branch of the search effect. */
  method SearchSongs(provider: Provider, text: string) returns (lists: Lists)
    ensures lists == SongModeLists(provider, text)
  {
    if text !in provider.search {
      return Lists([], []);
    }
    var searches := provider.search[text];
    lists := Lists(ToSongs(Take(searches, SongLimit)), []);
  }

  /** The artist-mode branch of the search effect. */
  method SearchArtists(provider: Provider, text: string, selected: Option<Artist>) returns (lists: Lists)
    ensures lists == ArtistModeLists(provider, text, selected)
  {
    match selected {
      case None =>
        if text !in provider.search {
          return Lists([], []);
        }
        var unique := CollectArtists(provider.search[text]);
        lists := Lists([], SortByName(Take(unique, ArtistLimit)));
      case Some(a) =>
        if a.id in provider.artistSongs {
          lists := Lists(ToSongs(provider.artistSongs[a.id]), []);
        } else if a.name in provider.search {
          lists := Lists(ArtistFallback(provider.search[a.name], a.name), []);
        } else {
          lists := Lists([], []);
        }
    }
  }
}
