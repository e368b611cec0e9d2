# Lyrics resolution engine of the Raycast "search lyrics" command

This project models the logic of `src/search-lyrics.tsx` that decides what the
command shows. The React screens are taken out, and the network is replaced by
values given as parameters.

- **Search:** the query guard, song mode, artist mode (the artist list and the
  songs of a selected artist) and regional mode. Regional mode scrapes Tamil
  lyrics pages.
- **Slug generation:** the candidate slugs (URL path pieces) regional mode tries.
- **Page extraction:** reading a song from one Tamil2Lyrics page.
- **Lyrics resolution:** picking the source of a chosen song's lyrics, the
  guidance sources used when there are none, and the markdown the lyrics view
  renders.

The outside world enters as values:
- A fetched site is a `map<string, Page>` from address to page. An address
  missing from the map is a request that failed.
- A page is already reduced to the texts the scraper queries: the `h1`, the
  credit fields, the texts after the "தமிழ்" markers, the `p, div` blocks and
  the content containers.
- The Genius client is a `Provider` record. It has a search map, an
  artist-songs map and a lyrics map; a missing key is a call that raised.
- The clock reading is a parameter `now`.

Modules:
- `Strings`: the JavaScript string built-ins used (`trim`, `toLowerCase`,
  `includes`, `replace` with a string, `split`, `join`).
- `Regex`: a small interpreter for the regular-expression replacements the
  source performs (global, leftmost, non-overlapping).
- `Seqs`: `new Set` deduplication, first-per-key collection and subsequence
  facts.
- `Types`: the records (`Song`, `Artist`, `LyricsSource`, the provider's
  `Hit`).
- `Slugs`: the candidate slug generators.
- `Extract`: the page reading and the lyrics clean-up.
- `Canned`: the fixed help texts.
- `Regional`: the regional search.
- `Catalog`: the search screen.
- `Lyrics`: the lyrics view.

Loops in the source are `method`s proved equal to a specification function:
- the pattern loop;
- the three lyrics passes;
- the regional loops;
- the artist map;
- `fetchLyrics`.

The meaning of each specification function is stated in lemmas. The two screens
are classes whose fields the methods update. The model follows the code
wherever the code and its documentation differ.

## Model

| member | source | states |
|---|---|---|
| Strings.Trim | src/search-lyrics.tsx:424 | the result is a slice of the input with no leading or trailing white space and only white space cut off on either side |
| Strings.TrimIdempotent | src/search-lyrics.tsx:823 | trimming twice is trimming once |
| Strings.Split | src/search-lyrics.tsx:823 | `split('\n')` gives at least one piece and no piece holds the separator |
| Slugs.StripNonSlug | src/search-lyrics.tsx:428 | the result is the input with every character outside `[a-z0-9]` and white space removed, the rest kept in order |
| Slugs.CollapseHyphens | src/search-lyrics.tsx:430 | no two hyphens in a row remain, every other character is kept in order, and a text without `--` is unchanged |
| Slugs.BaseSlug | src/search-lyrics.tsx:424-430 | the base slug holds only `[a-z0-9-]`, never `--`, and its letters and digits are exactly those of the lower-cased query, in order |
| Slugs.BaseSlugTwoWords | src/search-lyrics.tsx:424-430 | two lower-case alphanumeric words separated by a space give the slug `first-second` |
| Slugs.HappySlug | src/search-lyrics.tsx:424-430 | "happy birthday" gives the base slug `happy-birthday` |
| Slugs.HappyBirthday | src/search-lyrics.tsx:426-475 | the candidates for "happy birthday" start with `happy-birthday`, `happy-birthday-song-lyrics` and `happy-birthday-lyrics` |
| Slugs.CommonPatterns | src/search-lyrics.tsx:437-454 | there are exactly nine rewrites |
| Slugs.AddPatterns | src/search-lyrics.tsx:457-464 | the pattern loop only appends, at most one entry per pattern |
| Slugs.PushPatterns | src/search-lyrics.tsx:457-464 | the loop with its `includes` check computes `AddPatterns` |
| Slugs.SongForms | src/search-lyrics.tsx:467-473 | at most two "without song" forms are pushed |
| Slugs.Pushed | src/search-lyrics.tsx:432-473 | between 3 and 14 candidates are pushed, the base slug and its two suffixes first |
| Slugs.KeepLongMembers | src/search-lyrics.tsx:475 | the filter keeps exactly the entries longer than one character |
| Slugs.KeepLongSubseq | src/search-lyrics.tsx:475 | the filter keeps the order of the entries |
| Slugs.DedupKeepLong | src/search-lyrics.tsx:475 | deduplicating then filtering gives distinct long entries, exactly the long inputs, in first-seen order |
| Slugs.GenerateComprehensiveVariations | src/search-lyrics.tsx:422-476 | the generator computes `ComprehensiveVariations` |
| Slugs.VariationsWellFormed | src/search-lyrics.tsx:426-475 | the candidates are distinct, each longer than one character, at most 14, and exactly the long pushed candidates in first-pushed order |
| Slugs.VariationsStartWithBase | src/search-lyrics.tsx:427-475 | a base slug longer than one character starts the list, followed by `-song-lyrics` and `-lyrics` forms |
| Slugs.QueryVariationsSubsumed | src/search-lyrics.tsx:517-541 | every long candidate of the unused simpler generator is also a candidate of the comprehensive one |
| Seqs.Dedup | src/search-lyrics.tsx:475 | `[...new Set(v)]` is duplicate-free and holds exactly the elements of `v` |
| Seqs.DedupFirstSeen | src/search-lyrics.tsx:475 | `new Set` keeps the order of first occurrence |
| Seqs.FirstPerKey | src/search-lyrics.tsx:392-406 | the keep-if-not-found loop keeps one element per key, covering every key of the input |
| Seqs.FirstPerKeyOrigins | src/search-lyrics.tsx:99-107 | each kept element is the first of its key, in input order |
| Extract.PageTitle | src/search-lyrics.tsx:558 | the title is the cleaned `h1` whenever that is non-empty, otherwise the slug with every `-` turned into a space; it is empty only when both are |
| Extract.Unmark | src/search-lyrics.tsx:561-562 | a credit reading is trimmed |
| Extract.Credit | src/search-lyrics.tsx:561-574 | a credit is never empty and is trimmed |
| Extract.CreditFallback | src/search-lyrics.tsx:563-565 | the second label's reading is used exactly when the first reading is empty or "Unknown", and "Unknown" results only when both readings are empty or "Unknown" |
| Extract.FirstOver | src/search-lyrics.tsx:581-587 | the first candidate longer than the bound, with every earlier candidate at most the bound |
| Extract.FindFirstOver | src/search-lyrics.tsx:581-587 | the scan-and-break loop returns the first trimmed candidate over the bound |
| Extract.LongestBlock | src/search-lyrics.tsx:590-599 | the block chosen qualifies, is one of the blocks, and no qualifying block is longer |
| Extract.LongestBlockIsFirst | src/search-lyrics.tsx:594 | among equally long blocks the earliest wins |
| Extract.FindLongestBlock | src/search-lyrics.tsx:591-598 | the `each` loop computes `LongestBlock` |
| Extract.ContainerTexts | src/search-lyrics.tsx:603-612 | one candidate text per selector, in priority order: the text of that selector, empty when it is absent (it is trimmed when compared) |
| Extract.PageLyrics | src/search-lyrics.tsx:579-618 | any lyrics found are longer than 50 characters |
| Extract.PageLyricsPasses | src/search-lyrics.tsx:579-618 | the marker pass wins when it finds text, then the longest Tamil block, then the first container over 100 characters; nothing is found exactly when all three passes fail |
| Extract.DigitRun | src/search-lyrics.tsx:626 | `\d+` is the longest run of digits |
| Extract.FirstTrailer | src/search-lyrics.tsx:625-626 | the leftmost match of a trailer |
| Extract.StripTrailer | src/search-lyrics.tsx:625-626 | the result is the text before the leftmost match, unchanged exactly when nothing matches, and what is cut holds no line break |
| Extract.StripTrailerIdempotent | src/search-lyrics.tsx:625-626 | cutting a trailer twice cuts nothing more |
| Extract.CollapseBlankLines | src/search-lyrics.tsx:623 | no three newlines in a row remain, every other character is kept in order, and a text without three newlines in a row is unchanged |
| Extract.Truncate | src/search-lyrics.tsx:627 | `substring(0, n)` is a prefix of at most `n` characters, the whole text when it is short enough |
| Extract.Cleanup | src/search-lyrics.tsx:621-628 | cleaned lyrics have at most 3000 characters, no three newlines in a row, and no leading white space |
| Extract.ScrapedSong | src/search-lyrics.tsx:630-645 | a scraped song comes from the slug's page, has exactly one source with 51 to 3000 characters of cleaned lyrics, and non-empty singers and composer |
| Extract.ScrapeAccepts | src/search-lyrics.tsx:621-651 | a page gives a song exactly when some pass finds text still longer than 50 characters after clean-up |
| Extract.Scrape | src/search-lyrics.tsx:543-652 | a slug whose page cannot be fetched gives no song, and a song found comes from the slug's address |
| Extract.ScrapeTamil2Lyrics | src/search-lyrics.tsx:543-652 | the scraper with its loops computes `Scrape` |
| Canned.AdviceNamesSong | src/search-lyrics.tsx:489-491 | the advice text names the song |
| Regional.SuggestionsMentionQuery | src/search-lyrics.tsx:478-515 | the suggestions song names the query in its title and in its single source |
| Regional.AlternateSourcesEmpty | src/search-lyrics.tsx:655-696 | the alternate scrapers contribute nothing |
| Regional.Tries | src/search-lyrics.tsx:388-392 | the slugs tried are exactly the first 8 generated candidates, in generator order, or all of them when there are fewer |
| Regional.FoundFrom | src/search-lyrics.tsx:392-398 | each found song is a tried slug's page, and each successful slug contributes a song |
| Regional.FoundEmpty | src/search-lyrics.tsx:392-398 | nothing is found exactly when every tried slug fails |
| Regional.KeptFromScrapes | src/search-lyrics.tsx:392-398 | each kept song is a tried slug's page, and every title a tried slug yields is kept |
| Regional.KeptThumbnails | src/search-lyrics.tsx:637 | every kept song carries the note thumbnail |
| Regional.FallbackAlone | src/search-lyrics.tsx:409-411 | the fallback list is the suggestions song alone exactly when nothing was kept |
| Regional.RegionalShape | src/search-lyrics.tsx:392-411 | the results are never empty, at most 8, with distinct titles |
| Regional.RegionalFromScrapes | src/search-lyrics.tsx:392-407 | when some slug succeeds, the results are exactly the scraped songs, one per title |
| Regional.RegionalFallback | src/search-lyrics.tsx:409-411 | the results are the suggestions song alone exactly when every tried slug fails |
| Regional.TryCandidates | src/search-lyrics.tsx:392-398 | the slug loop keeps the first song per title |
| Regional.AddAlternates | src/search-lyrics.tsx:401-406 | the alternates loop extends the first-per-title list |
| Regional.SearchRegionalLyrics | src/search-lyrics.tsx:375-420 | the regional search computes `RegionalResults` |
| Regional.RegionalResults | src/search-lyrics.tsx:375-420 | the regional search never returns an empty list |
| Catalog.ToSongs | src/search-lyrics.tsx:76-86 | each hit becomes a song with the hit's id, title, artist name, album and address, the hit's id as its provider handle, and no prefetched sources |
| Catalog.ArtistSlugNoSpace | src/search-lyrics.tsx:103 | the fallback artist address holds no white space |
| Catalog.ToArtistFallbacks | src/search-lyrics.tsx:100-106 | an artist's address and thumbnail fall back in the source's order and are never empty |
| Catalog.CollectArtists | src/search-lyrics.tsx:93-108 | the `forEach` over the `Map` computes `UniqueArtists` |
| Catalog.UniqueArtistsCover | src/search-lyrics.tsx:95-108 | one artist per name, and every hit's artist name is present |
| Catalog.UniqueArtistsInOrder | src/search-lyrics.tsx:110 | the artists appear in search order |
| Catalog.NameLeTotal | src/search-lyrics.tsx:112 | the name order is total |
| Catalog.InsertByName | src/search-lyrics.tsx:112 | inserting keeps the list sorted and adds exactly one artist |
| Catalog.SortByName | src/search-lyrics.tsx:112 | sorting is a permutation and sorted |
| Catalog.ArtistListWellFormed | src/search-lyrics.tsx:110-112 | at most 10 artists, sorted, distinct names, a permutation of the first 10 unique artists |
| Catalog.ArtistListFirstWins | src/search-lyrics.tsx:95-112 | each listed artist is made from the first hit carrying its name |
| Catalog.ByArtistNameKeeps | src/search-lyrics.tsx:140-142 | the filter keeps exactly the hits whose artist name equals the selected one ignoring case, in order |
| Catalog.ByArtistNameCounts | src/search-lyrics.tsx:140-142 | each matching hit is kept as many times as it occurs, and a non-matching one never |
| Catalog.ArtistFallbackSound | src/search-lyrics.tsx:139-154 | at most 20 songs, all by the selected artist ignoring case, in search order |
| Catalog.ArtistFallbackComplete | src/search-lyrics.tsx:139-154 | when at most 20 hits match, every matching hit appears |
| Catalog.ArtistFallbackFirst | src/search-lyrics.tsx:139-154 | when more than 20 hits match, the songs are the first 20 matching hits, in order |
| Catalog.ShortQueryNeverSearches | src/search-lyrics.tsx:59-62 | a query shorter than 2 after trimming clears the songs and consults nothing |
| Catalog.SongModeResults | src/search-lyrics.tsx:73-86 | song mode shows the first 10 hits as songs and no artists |
| Catalog.ArtistModeResults | src/search-lyrics.tsx:89-116 | artist mode without a selection shows the artist list and no songs |
| Catalog.SelectedArtistResults | src/search-lyrics.tsx:117-155 | with a selected artist, its songs are the provider's list of its songs converted one for one, else the name-filter fallback, else none; no artists are shown |
| Catalog.MissingProviderClears | src/search-lyrics.tsx:66-68 | without a client both lists are cleared |
| Catalog.SearchSongs | src/search-lyrics.tsx:73-86 | the song-mode branch computes `SongModeLists` |
| Catalog.SearchArtists | src/search-lyrics.tsx:87-156 | the artist-mode branch computes `ArtistModeLists` |
| Catalog.SearchOutcome | src/search-lyrics.tsx:57-177 | a query of at least 2 characters outside artist mode shows no artists |
| Catalog.SearchScreen.constructor | src/search-lyrics.tsx:48-54 | the screen starts empty in song mode |
| Catalog.SearchScreen.ChangeMode | src/search-lyrics.tsx:215-218 | any choice clears the songs; a different mode also clears the selection and the artists, through the reset effect at lines 184-188; the query is kept |
| Catalog.SearchScreen.ViewArtistSongs | src/search-lyrics.tsx:281-284 | choosing an artist selects it and searches for its name |
| Catalog.SearchScreen.BackToArtists | src/search-lyrics.tsx:320-323 | going back clears the selection and the query |
| Catalog.SearchScreen.PerformSearch | src/search-lyrics.tsx:57-177 | the search updates the lists to `SearchOutcome` and nothing else |
| Lyrics.IsTamilContent | src/search-lyrics.tsx:698-706 | a song is Tamil exactly when its title or its artist holds a Tamil code point, or the lower-cased "title artist" holds a keyword |
| Lyrics.HasTamilChar | src/search-lyrics.tsx:699 | the test holds exactly when some character is in U+0B80..U+0BFF |
| Lyrics.MentionsKeyword | src/search-lyrics.tsx:705 | the test holds exactly when some keyword occurs in the text |
| Lyrics.TamilContentIgnoresCase | src/search-lyrics.tsx:698-706 | lower-casing the title and the artist does not change the verdict |
| Lyrics.KeywordInTitle | src/search-lyrics.tsx:698-706 | a keyword in the title, in any letter case, marks the song as Tamil |
| Lyrics.EncodeURIComponent | src/search-lyrics.tsx:737 | each character becomes itself or one to four `%HH` escapes, so the encoding is between one and twelve times as long |
| Lyrics.EncodeSafe | src/search-lyrics.tsx:737 | an encoded component holds only unreserved characters and `%` |
| Lyrics.EncodeUnreserved | src/search-lyrics.tsx:737 | unreserved text encodes to itself |
| Lyrics.EncodeConcat | src/search-lyrics.tsx:737 | encoding distributes over concatenation |
| Lyrics.DecodeEncode | src/search-lyrics.tsx:737 | decoding the encoding gives the text back |
| Lyrics.TamilHelperSearch | src/search-lyrics.tsx:714-737 | the helper's address is a web search whose query decodes to "title artist tamil lyrics" |
| Lyrics.AltLyricsShape | src/search-lyrics.tsx:343-372 | exactly one alternative, addressed exactly for Tamil content, naming the song |
| Lyrics.SearchAltLyrics | src/search-lyrics.tsx:343-372 | the pushing code computes `AltLyrics` |
| Lyrics.ResolvePrefetched | src/search-lyrics.tsx:762-770 | prefetched sources win: the first one is shown, all are kept, others offered when more than one, the provider is not consulted |
| Lyrics.ResolveFromProvider | src/search-lyrics.tsx:772-784 | otherwise non-blank provider lyrics are shown and the alternatives stay as they were |
| Lyrics.ResolveGuidance | src/search-lyrics.tsx:786-797 | otherwise the single alternative is offered and shown; it names the song and has an address exactly for Tamil content |
| Lyrics.Resolve | src/search-lyrics.tsx:754-807 | the "not available from any source" error is never raised, and lyrics are always shown unless a prefetched source is blank |
| Lyrics.ResolveRegional | src/search-lyrics.tsx:762-770 | every regional result resolves to its own first source |
| Lyrics.SearchOnlineForTamil | src/search-lyrics.tsx:855-863 | without other lyrics the search link is offered exactly for Tamil content |
| Lyrics.LyricsScreen.constructor | src/search-lyrics.tsx:747-751 | the view starts empty and loading |
| Lyrics.LyricsScreen.FetchLyrics | src/search-lyrics.tsx:754-807 | the flag-driven fetch updates the view to `Resolve` and stops loading |
| Lyrics.CleanLines | src/search-lyrics.tsx:823 | the kept lines are non-empty and trimmed |
| Lyrics.CleanLinesKeep | src/search-lyrics.tsx:823 | every non-blank line is kept, trimmed |
| Lyrics.CleanLinesAt | src/search-lyrics.tsx:823 | the kept lines are the trimmed non-blank input lines, each taken from an input line, in input order, none left out |
| Lyrics.FormatLyricsIdempotent | src/search-lyrics.tsx:823 | formatting already formatted lyrics changes nothing |
| Lyrics.Markdown | src/search-lyrics.tsx:814-824 | the error form opens with the error heading, the loading form with the loading notice and the title, the lyrics form with the title and the artist |
| Lyrics.MarkdownShowsLyrics | src/search-lyrics.tsx:823 | the lyrics form names the song and the artist and ends with the formatted lyrics |
| Lyrics.MarkdownShowsError | src/search-lyrics.tsx:815-817 | the error form shows the message |
| Lyrics.MarkdownLoading | src/search-lyrics.tsx:819-821 | the loading form names the song |

## Left out

- The React wiring is left out: `useState`, `useEffect`, the 300 ms debounce, loading spinners, toasts, list and detail markup, and clipboard actions.
- Network calls are left out: `axios.get` with its timeout and headers, and the Genius client calls. They become the `site` map and the `Provider` record.
- Cheerio selector semantics (`:contains`, `.parent()`, `.next()`, `.first()`) are left out; a page is the list of texts those selectors return.
- `Date.now()` ids are a single parameter `now`, so songs scraped in one search share an id.
- `console.log` and `console.error` output is left out.
- `localeCompare` is locale-dependent and is replaced by code-point lexicographic order.
- `toLowerCase` and the `i` flag fold ASCII letters only; non-ASCII case mapping is left out.
- String lengths count code points, while JavaScript counts UTF-16 units. The two differ only for characters outside the Basic Multilingual Plane.
- `scrapeTamilPaa` and `scrapeLyricsTamil` always return null in the source and are modelled as returning nothing.
- The `cleanQuery` computed at src/search-lyrics.tsx:382-385 is never used and is not modelled.
- The `catch` branches of `searchRegionalLyrics`, `searchAltLyrics` and `searchTamilLyrics` are not modelled. Nothing inside those `try` blocks can raise once the scrapers catch their own failures. Dafny strings hold no lone surrogates, so `encodeURIComponent` cannot raise either.
- The Spotify preferences declared in raycast-env.d.ts have no implementation and are not modelled; the rest of that file is generated type declarations.
- Lyrics.ResolveRegional: states only the lyrics shown for a regional result, not the alternatives kept; `Lyrics.ResolvePrefetched` states those.
