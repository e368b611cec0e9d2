/** The records the engine passes around: lyrics sources, songs, artists, and
    the song objects the lyrics provider's search returns. Optional and
    possibly-missing JavaScript fields are `Option`s; a field the source only
    tests for truthiness is a string, with "" standing for absent. */
module Types {
  import opened Wrappers

  /** One place lyrics were found: a site name, the text, and the page. */
  datatype LyricsSource = LyricsSource(name: string, lyrics: string, url: Option<string>)

  /** A song in a result list. `fullSong` is the handle of the provider's own
      song object (its id), through which the provider fetches the lyrics;
      `availableSources` holds lyrics already fetched while searching. */
  datatype Song = Song(
    id: int,
    title: string,
    artist: string,
    album: Option<string>,
    url: string,
    thumbnail: string,
    fullSong: Option<int>,
    availableSources: Option<seq<LyricsSource>>)

  /** An artist in the artist list; its id is the handle through which the
      provider lists the artist's songs. */
  datatype Artist = Artist(id: int, name: string, url: string, thumbnail: string)

  /** A song object as the provider's search returns it. */
  datatype Hit = Hit(
    id: int,
    title: string,
    artistName: string,
    artistId: int,
    artistUrl: string,
    artistImage: string,
    album: Option<string>,
    url: string,
    thumbnail: string)

  /** The lyrics provider's client, as an oracle: whether its library could be
      loaded, and what each call returns. A key missing from a map stands for a
      call that raises. */
  datatype Provider = Provider(
    available: bool,
    search: map<string, seq<Hit>>,
    artistSongs: map<int, seq<Hit>>,
    lyrics: map<int, string>)
}
