# go-plex media catalog, modelled in Dafny

This project models the in-memory media catalog of the go-plex client. The catalog is a tree: libraries hold shows or movies, shows hold a map of seasons, and seasons hold a map of episodes. Every node carries a `RefreshedAt` timestamp. The model covers the six kinds of logic the client runs on that tree:

- **Merge.** Shows, seasons, episodes, movies and libraries merge level by level, and the newer timestamp wins. `Episodes.Merge` runs in the reverse direction: the receiver's entry is left alone and only the incoming episode is updated.
- **Eviction.** After a refresh pass, libraries older than `start - 1 minute` are spliced out, and so are movies, shows, seasons and episodes older than `start`.
- **Cache merge.** A decoded on-disk cache is merged into the live library list, matched by title.
- **Lookups.** There are searches by rating key, title, TMDB id and TVDB id over the tree.
- **Builders.** Decoded server metadata becomes catalog nodes, and existing nodes are updated by GUID.
- **Small decoders and the webhook registry:**
  - provider ids read from alternate GUIDs (`tvdb://N`, `tmdb://N`);
  - the `BoolOrInt` and `LibraryType` JSON shape decisions;
  - the webhook event table and its six legal names;
  - the edits to the server's hook list.

Modules follow the repository's packages:

| module | source |
|---|---|
| `Episodes`, `Seasons`, `Shows`, `Movies`, `Library`, `Libraries` | `pkg/library`, `library` |
| `Eviction`, `Plex` (the cleanup, populate and cache code) | `pkg/plex` |
| `Convert` (builders) | `internal/plex/convert`, older copies under `plex` |
| `Api` (provider ids) | `internal/plex/api` |
| `Helpers` (`BoolOrInt`) | |
| `Webhooks` | `pkg/plex/webhook.go`, `plex/webhook.go`, `plex/webhooks_setup.go` |
| `Json`, `Times`, `Lists`, `Wrappers` | shared value types |

Modelling choices:

- **Nodes are values.** A Go nil map or slice is `None`; merges branch on nil, so the distinction is kept.
- **Map loops take any order.** Go visits a map in an unspecified order. Loops over maps pick an arbitrary remaining key, so every contract about them holds for every iteration order. Map searches (`FindRatingKey` on seasons and episodes) return some matching key, not a particular one.
- **Time is an integer.** Times are integer nanoseconds. `Minute` is 60·10⁹, `time.Unix(s, 0)` is `s` seconds, and `time.Time{}` is `ZeroTime`. A caller-supplied `now` replaces each `time.Now()`.
- **Splices are loops.** The in-place splices of `cleanupStaleLibraries`, `cleanupStaleMovies` and `cleanupStaleShows` are loops with the source's decrementing index and length. Each is proved equal to a filter function, and the filter functions carry the eviction properties.
- **Cache merge is relational.** The cache merge loop is proved against a relation, `CacheMerged`: the live titles come first, then each unseen cached title once, in order. Unmatched or shadowed live libraries are untouched. The first live library of a title receives `Library.Merge` with every cached library of that title, in cache order. An appended library is the first cached library of its title, merged with the later ones.
- **`Plex` and `Webhook` are classes.** They hold the fields their Go methods update in place: `Libraries` and the cache path, and the `events` table.
- **The duplicates are modelled once.** The repository keeps two historical copies of the code: `pkg/` and `internal/`, and `plex/` and `library/`. The copies behave identically wherever the model looks. The table below cites both copies against the same member.

Two places where the code does not do what a reader might expect:

- **Merging does not union keys in general.** Seasons and episodes are matched by rating key but inserted under the incoming map key. The key set after a merge is therefore a union only when the two maps are *coherent*, meaning the same rating key sits under the same number on both sides. The merge contracts state the general bounds for all inputs and the union under coherence.
- **The second pass is a self-merge.** When the incoming side is newer, the second child merge in `Season.Merge` and `Show.Merge` runs over one Go map on both sides. It is modelled as a loop of its own (`EpisodesSelfMerge`, `SeasonsSelfMerge`). Each entry is merged with the entry that the search finds for its rating key in the map as it now stands. So when a rating key repeats, an entry can become a newer episode stored under another number. When no rating key repeats, the pass changes nothing.

## Model

| member | source | states |
|---|---|---|
| Episodes.EpisodeMerge | pkg/library/episode.go:57-61 | the receiver is replaced wholesale iff it is strictly older, ties keep the receiver, and the resulting timestamp is the maximum of the two |
| Episodes.EpisodeMergeNewerWins | pkg/library/episode.go:57-61 | merging an episode with itself is the identity; with distinct timestamps the newer episode wins whichever side it is on |
| Episodes.EpisodesFindRatingKey | pkg/library/episode.go:28-35 | the result is a key whose episode has the rating key, and it is None iff no episode has it |
| Episodes.EpisodesMerge | pkg/library/episode.go:13-26 | a nil receiver adopts the incoming map; receiver episodes are never modified; an unmatched rating key is stored under its incoming key; a matched incoming episode only becomes a newer episode with its rating key; keys only grow, within the union; unique rating keys stay unique; self-merge is the identity; coherent maps give the union with receiver entries winning |
| Episodes.EpisodesSelfMerge | pkg/library/episode.go:13-26 | `Episodes.Merge` over one aliased map, as the second pass of `Season.Merge` runs it: numbers and nil-ness are kept; each entry is an episode of the map, either the old one or a strictly newer one with the same rating key; with no repeated rating key nothing changes |
| Episodes.EpisodesSetRefreshedAt | pkg/library/episode.go:7-11 | every episode, as `Episode.SetRefreshedAt` (lines 53-55) does, is stamped with `now`; keys and nil-ness are unchanged |
| Seasons.SeasonMerge | library/season.go:52-58 | the timestamp becomes the maximum; the scalars come from the incoming season iff the receiver is strictly older; episodes are nil only if both are; the result keeps all of the winner's episode numbers, within the union; each episode is one of the inputs' episodes, and under its number an input held the same episode or an older one with its rating key; without repeated rating keys each episode is an input's episode under the same number; unique rating keys are kept; coherent episode maps give their union; merging two equal seasons is the identity; the incoming season comes back as the result in the newer case, and otherwise keeps its fields and numbers with each episode the same or newer |
| Seasons.SeasonSelfMerge | library/season.go:52-58 | `Season.Merge` with one season on both sides merges only its episode map, with itself |
| Seasons.SeasonMergeThenSelf | library/season.go:54-57 | a self-merge of the merged episode map keeps the result a `Season.Merge` of the same two seasons |
| Seasons.SeasonMergeSelf | library/season.go:52-58 | a season merged with itself keeps its scalars, its timestamp and its episode numbers |
| Seasons.SeasonsFindRatingKey | library/season.go:28-35 | the result is a key whose season has the rating key, and it is None iff no season has it |
| Seasons.FindEpisodeWhere | pkg/library/show.go:26-32 | the result is a (season, episode) pair whose episode satisfies the test, and it is None iff no episode does |
| Seasons.SeasonsMerge | library/season.go:13-26 | a nil receiver adopts the incoming map; every season descends from a receiver or incoming season under the same number (same rating key, timestamp not earlier); keys only grow, within the union; with unique receiver keys an incoming season is absorbed; self-merge is the identity; coherent maps are merged pairwise over the union |
| Seasons.SeasonsSelfMerge | library/season.go:13-26 | `Seasons.Merge` over one aliased map, as the second pass of `Show.Merge` runs it: numbers and nil-ness are kept; every season keeps its rating key and its timestamp never moves back; with no repeated rating key each season only has its episode map merged with itself |
| Seasons.SeasonSetRefreshedAt | library/season.go:47-50 | the season and every one of its episodes are stamped with `now` |
| Seasons.SeasonsSetRefreshedAt | library/season.go:7-11 | every season is stamped, and keys and nil-ness are unchanged |
| Seasons.SeasonsStampedFresh | library/season.go:7-11 | after stamping, every season and every episode in it carries `now` |
| Shows.IndexOfTitle | pkg/library/show.go:12-19 | the first show with the title, or None iff no show has it |
| Shows.FindTitle | pkg/library/show.go:12-19 | the search loop returns exactly the first show with the title; `Shows.Title` is the same first-match search; it returns None iff no show has the title, and it changes nothing; the older copy at library/show.go:7-14 is the same search |
| Shows.ShowMerge | pkg/library/show.go:76-82 | the timestamp becomes the maximum; the scalars come from the incoming show iff the receiver is strictly older; the result keeps all of the winner's season numbers, within the union, each season a descendant of an input season; unique rating keys are kept; coherent season maps give every number of either side, matched seasons `Season.Merge`d pairwise and the others at most self-merged; merging two equal shows with unique season rating keys is the identity |
| Shows.ShowsMerge | pkg/library/show.go:37-50 | a nil receiver adopts the list; otherwise the titles are the old titles then each unseen incoming title once, in order; existing shows keep their positions and titles, and their timestamps never move back; unreached shows are untouched; every incoming show is absorbed by a show of its title that is not older; with distinct titles, matched shows are `Show.Merge`d pairwise |
| Shows.FindTvdbID | pkg/library/show.go:21-35 | the result is the first show in list order whose own id, or one of whose episodes' ids, matches; a match on the show's own id gives no season or episode, and an episode hit names a contained season and episode; the result is None iff nothing matches |
| Shows.ShowSetRefreshedAt | pkg/library/show.go:71-74 | the show and its seasons are stamped with `now` |
| Shows.ShowsSetRefreshedAt | pkg/library/show.go:7-11 | every show is stamped, and titles, order and nil-ness are unchanged |
| Shows.ShowsStampedFresh | pkg/library/show.go:7-11 | after stamping, every show and every season carries `now` |
| Movies.MovieMerge | library/movie.go:69-73 | the receiver is replaced wholesale iff it is strictly older, ties keep the receiver, and the timestamp becomes the maximum |
| Movies.IndexOfRatingKey | library/movie.go:28-35 | the first movie with the rating key, or None iff no movie has it |
| Movies.FindRatingKey | library/movie.go:28-35 | the search loop returns exactly the first match |
| Movies.IndexOfTmdb | library/movie.go:37-44 | the first movie with the TMDB id, or None iff no movie has it |
| Movies.FindTmdb | library/movie.go:37-44 | the search loop returns exactly the first match |
| Movies.MoviesMerge | library/movie.go:13-26 | a nil receiver adopts the list; otherwise each incoming movie is merged into the first movie with its rating key or appended |
| Movies.MergeAllRatingKeys | library/movie.go:18-25 | the rating keys are the old ones then each unseen incoming key once, in order |
| Movies.MergeAllKeepsPrefix | library/movie.go:18-25 | existing movies are never removed or reordered: each position keeps its rating key and its timestamp never moves back |
| Movies.MergeAllAbsorbs | library/movie.go:19-24 | every incoming movie ends up in the list, itself or merged into a movie with its rating key that is not older |
| Movies.MergeAllSelf | library/movie.go:13-26 | merging a list with unique rating keys into itself changes nothing |
| Movies.MoviesSetRefreshedAt | library/movie.go:7-11 | every movie, as `Movie.SetRefreshedAt` (lines 65-67) does, is stamped with `now`; rating keys, order and nil-ness are unchanged |
| Library.UnmarshalLibraryType | library/library.go:37-62 | "show" decodes to 0 and "movie" to 1, and any other string is an error; a non-string decodes exactly when it is an int in the 64-bit range, to that int |
| Library.LibraryMerge | library/library.go:80-95 | movies and shows each follow the three-way rule: both nil stay nil, a nil receiver adopts the other side, otherwise `Merge`; the receiver's own fields, `RefreshedAt` included, never change |
| Library.LibraryMergeKeys | library/library.go:80-95 | after the merge, the movie rating keys and show titles are exactly those of either side, and a list is nil iff it was nil on both sides |
| Library.LibrarySetRefreshedAt | library/library.go:70-78 | the library is stamped with `now`, the cascade reaches its non-nil shows and movies, and nil-ness is unchanged |
| Libraries.OfType | pkg/library/libraries.go:11-19 | every result has the type and comes from the list, and every library of the type is in the result |
| Libraries.OfTypeAppend | pkg/library/libraries.go:11-19 | filtering distributes over concatenation, so the original order is kept |
| Libraries.OfTypeIdempotent | pkg/library/libraries.go:11-19 | filtering twice is filtering once |
| Libraries.FilterType | pkg/library/libraries.go:11-19 | the accumulation loop returns exactly `OfType` |
| Libraries.FindEpisode | pkg/library/libraries.go:22-35 | the result is the first show in library order holding an episode with the rating key, with a season and episode of that show that carry it; it is None iff no episode has it |
| Libraries.FindSeasonWhere | pkg/library/libraries.go:41-49 | the result is a season whose own key or one of whose episodes' keys matches; it is None iff there is none |
| Libraries.FindSeason | pkg/library/libraries.go:38-54 | the result is the first show in order with a season matching by its own key or by an episode's key, together with that season; it is None iff there is none |
| Libraries.FindShow | pkg/library/libraries.go:58-77 | the result is the first show whose own key, or a season's or episode's key, matches; it is None iff there is none |
| Libraries.EpisodeKeyReachesShow | pkg/library/libraries.go:58-77 | a show holding an episode with the key passes the `FindShow` test, and one of its seasons passes the `FindSeason` test |
| Libraries.LibrariesSetRefreshedAt | pkg/library/libraries.go:5-9 | every library is stamped, and length and titles are unchanged; `GetLibraries` (pkg/plex/client.go:98-105) stamps the fetched list before returning it |
| Eviction.FreshEpisodes | pkg/plex/populate.go:129-133 | an episode is kept iff `start <= RefreshedAt`, unchanged; nil-ness is kept |
| Eviction.FreshSeasons | pkg/plex/populate.go:124-134 | a season is kept iff `start <= RefreshedAt`, and survivors lose their stale episodes |
| Eviction.EvictEpisodes | pkg/plex/populate.go:129-133 | the delete loop yields exactly `FreshEpisodes`; the older inline copy of the episode delete loop at plex/populate.go:112-116 |
| Eviction.EvictSeasons | pkg/plex/populate.go:124-134 | the delete loop yields exactly `FreshSeasons`, in any map order; the older inline copy of the season delete loop at plex/populate.go:107-117 |
| Eviction.CleanupStaleMovies | pkg/plex/populate.go:104-113 | the splice loop with its decrementing index and length leaves exactly the movies not before `start`, in order; the rest of the library is unchanged; the older inline copy of the movie splice at plex/populate.go:90-98 |
| Eviction.CleanupStaleShows | pkg/plex/populate.go:115-136 | the splice leaves exactly the shows not before `start`, in order, each with its stale seasons and episodes deleted; the older inline copy of the show splice at plex/populate.go:99-118 |
| Eviction.CleanupLibrary | pkg/plex/populate.go:99-100 | a surviving library is cleaned of movies, then of shows |
| Eviction.FreshMoviesMembers | pkg/plex/populate.go:107 | a movie survives iff it was in the list and is not before `start` |
| Eviction.FreshShowsMembers | pkg/plex/populate.go:118-123 | a show survives, cleaned, iff it is not before `start`; every survivor comes from such a show |
| Eviction.LibrarySurvivesIff | pkg/plex/populate.go:93-97 | a library survives iff its `RefreshedAt` is not before `start - 1 minute` |
| Eviction.FreshShowsAreFresh | pkg/plex/populate.go:115-136 | every remaining show, season and episode is at or after `start` |
| Eviction.FreshMoviesAreFresh | pkg/plex/populate.go:104-113 | every remaining movie is at or after `start` |
| Eviction.EvictedTreeIsFresh | pkg/plex/populate.go:90-136 | every remaining library is at or after the cutoff, and every node reached through it is at or after `start` |
| Eviction.FreshLibrariesAppend | pkg/plex/populate.go:92-98 | eviction distributes over concatenation, so survivors keep their relative order |
| Eviction.FreshLibrariesSingle | pkg/plex/populate.go:93-100 | a single library is dropped whole, without its children being inspected, or kept and cleaned |
| Eviction.FreshShowsAppend | pkg/plex/populate.go:117-123 | show eviction distributes over concatenation, so order is kept |
| Eviction.FreshMoviesAppend | pkg/plex/populate.go:106-111 | movie eviction distributes over concatenation, so order is kept |
| Eviction.FreshEpisodesFixpoint | pkg/plex/populate.go:129-133 | a map of fresh episodes is left as it is |
| Eviction.ShowEvictedFixpoint | pkg/plex/populate.go:124-134 | a fully fresh show is left as it is |
| Eviction.FreshShowsFixpoint | pkg/plex/populate.go:115-136 | a list of fully fresh shows is left as it is |
| Eviction.FreshMoviesFixpoint | pkg/plex/populate.go:104-113 | a list of fresh movies is left as it is |
| Eviction.LibraryEvictedFixpoint | pkg/plex/populate.go:99-100 | a fully fresh library is left as it is |
| Eviction.EvictFixpoint | pkg/plex/populate.go:90-102 | a fully fresh tree is left as it is |
| Eviction.EvictIdempotent | pkg/plex/populate.go:90-102 | evicting twice with the same `start` is evicting once |
| Eviction.StampedSurvives | pkg/plex/populate.go:30-78 | a tree stamped at or after `start` loses nothing to the cleanup |
| Plex.IndexOfLibTitle | pkg/plex/cache.go:21-25 | the first live library with the title, or None iff there is none |
| Plex.FindLibTitle | pkg/plex/cache.go:21-25 | the inner loop returns exactly that first match |
| Plex.MergeCachedLibraries | pkg/plex/cache.go:19-28 | the titles are the live titles then each unseen cached title once, in order; live libraries keep their position and fields; a live library no cached title reaches is untouched; the first live library of a title is `Merge`d with every cached library of that title in cache order; an appended library is the first cached library of its title `Merge`d with the later ones |
| Plex.TitledAsDistinct | pkg/plex/cache.go:19-28 | with distinct titles, the libraries holding the title of one of them are that library alone |
| Plex.CacheMergedDistinct | pkg/plex/cache.go:19-28 | with distinct cached titles, the first live library of a title receives `Merge(cached)` once, and an unmatched cached library is appended unchanged |
| Plex.CacheMergedTitles | pkg/plex/cache.go:19-28 | the title set is the union of both sides, and the length lies between the live length and the sum of both |
| Plex.CacheOfKnownTitles | pkg/plex/cache.go:20-25 | when every cached title is live, nothing is appended |
| Plex.FetchedShowsSurvive | pkg/plex/populate.go:35-78 | shows fetched during the pass (stamped at or after `start`) and merged into a library survive the cleanup that follows |
| Plex.FetchedMoviesSurvive | plex/populate.go:79-98 | movies fetched during the pass survive the cleanup after the wait |
| Plex.Plex.constructor | pkg/plex/options.go:5-9 | a client starts with no libraries and the given cache path |
| Plex.Plex.MergeCache | pkg/plex/cache.go:10-32 | the list is unchanged when no cache path is set or the file cannot be read or decoded; otherwise it is the cache merge of the old list |
| Plex.Plex.InitLibraries | pkg/plex/populate.go:11-21 | a failed fetch returns its error and leaves no libraries; otherwise the fetched libraries are stamped, then the cache is merged in; the older copy at plex/populate.go:10-22 follows the same order |
| Plex.Plex.CleanupStaleLibraries | pkg/plex/populate.go:90-102 | the library splice loop leaves exactly `FreshLibraries` of the old list; the older inline copy of the library splice at plex/populate.go:82-119 |
| Plex.Plex.PopulateLibraries | pkg/plex/populate.go:23-86 | `start` is fixed before the fetch, and the cleanup runs on the fetched tree after it; in the older copy at plex/populate.go:24-127 eviction runs after the wait, with the `start` taken before |
| Convert.TimeOrNil | internal/plex/convert/convert.go:97-103 | 0 gives nil, and any other value gives that whole Unix second; the older copy at plex/searchresults.go:59-65, identical |
| Convert.TimeOrNilInjective | internal/plex/convert/convert.go:97-103 | distinct seconds give distinct results |
| Convert.SearchResultsToShows | internal/plex/convert/convert.go:11-32 | one show per metadata entry, in order, with `Watched = ViewCount > 0` and stamped with `now`; `toShows`, the older copy at plex/searchresults.go:13-34 |
| Convert.SearchResultsToMovies | internal/plex/convert/convert.go:35-56 | one movie per entry, in order, with the same field mapping; `toMovies`, the older copy at plex/searchresults.go:36-57 |
| Convert.EpisodeResultsToSeasons | internal/plex/convert/convert.go:59-72 | the map equals the fold that stores each entry's season under its `Index`; `toSeasons`, the older copy at plex/searchresultseepisode.go:13-26 |
| Convert.SeasonsOfResultsKeys | internal/plex/convert/convert.go:61-69 | the keys are exactly the `Index` values, and each season has `Number` equal to its key |
| Convert.SeasonsOfResultsLastWins | plex/searchresultseepisode.go:16-22 | the last entry with an `Index` is the one stored there |
| Convert.EpisodeResultsToEpisodes | internal/plex/convert/convert.go:75-95 | the map equals the fold that stores each entry's episode under its `Index`; `toEpisodes`, the older copy at plex/searchresultseepisode.go:28-48 |
| Convert.EpisodesOfResultsKeys | internal/plex/convert/convert.go:77-92 | the keys are exactly the `Index` values, with `SeasonNumber` equal to the key |
| Convert.EpisodesOfResultsLastWins | internal/plex/convert/convert.go:77-92 | the last duplicate `Index` wins |
| Convert.FirstOfType | internal/plex/convert/metadata.go:12-13 | the first entry of the type, or None iff there is none |
| Convert.MetadataToShow | internal/plex/convert/metadata.go:11-35 | the show is built from the first "show" entry, with an empty key and a zero `RefreshedAt`, or nil iff there is none; `Show()`, the older copy at plex/mediametadata.go:12-27 |
| Convert.MetadataToEpisode | internal/plex/convert/metadata.go:38-59 | the episode is built from the first "episode" entry, with `Watched = ViewCount > 0`, or nil iff there is none; `Episode()`, the older copy at plex/mediametadata.go:29-46 |
| Convert.LastWithGuid | internal/plex/convert/metadata.go:63-64 | the last entry with the GUID, or None iff there is none |
| Convert.UpdateShowFromMetadata | internal/plex/convert/metadata.go:62-74 | without a GUID match the show is unchanged, `RefreshedAt` included; otherwise the last match overwrites only Title, Year, Summary, ContentRating, RatingKey, TVDB and `RefreshedAt`, and Seasons stay; `updateShow`, the older copy at plex/mediametadata.go:48-60 |
| Convert.UpdateEpisodeFromMetadata | internal/plex/convert/metadata.go:77-93 | without a match the episode is unchanged; otherwise the last match sets the listed fields, and `UpdatedAt` is never touched; `updateEpisode`, the older copy at plex/mediametadata.go:62-78: `Watched = ViewCount > 0`, and `RefreshedAt` is stamped |
| Convert.UpdateMovieFromMetadata | internal/plex/convert/metadata.go:96-110 | without a match the movie is unchanged; otherwise the last match sets the listed fields, and `Watched`, `Key` and `UpdatedAt` stay; `updateMovie`, the older copy at plex/mediametadata.go:80-96 |
| Api.Atoi | internal/plex/api/models.go:255 | `strconv.Atoi`: an optional sign and at least one digit, within the 64-bit range, or an error |
| Api.AtoiRoundTrip | internal/plex/api/models.go:255 | `Atoi` reads back the decimal text of every non-negative 64-bit int |
| Api.FirstPrefixed | internal/plex/api/models.go:253-254 | the first GUID at least four characters long with the prefix, or None iff there is none |
| Api.ProviderIdOf | internal/plex/api/models.go:252-264 | 0 without a prefixed GUID; otherwise the integer after index 7 of the first one, or 0 when that text is not an integer |
| Api.ProviderId | internal/plex/api/models.go:252-278 | the shared early-return loop computes exactly `ProviderIdOf` |
| Api.Tvdb | internal/plex/api/models.go:252-264 | `AltGUIDs.TVDB` is `ProviderIdOf` with "tvdb" |
| Api.Tmdb | internal/plex/api/models.go:266-278 | `AltGUIDs.TMDB` is `ProviderIdOf` with "tmdb" |
| Api.ProviderIdRoundTrip | internal/plex/api/models.go:255-259 | "tvdb://N" or "tmdb://N" first in the list yields N |
| Api.FirstPrefixedDecides | internal/plex/api/models.go:254-259 | a malformed first prefixed id yields 0 even when a later one is well formed |
| Api.FirstPrefixedSkips | internal/plex/api/models.go:254 | ids that are too short or carry another prefix are passed over |
| Api.OtherGuidsSkipped | internal/plex/api/models.go:254 | putting such ids in front does not change the result |
| Json.DecodeInt | internal/plex/api/helpers.go:16 | `json.Unmarshal` into an int succeeds exactly on null (leaving 0) and on a 64-bit int |
| Json.DecodeBool | internal/plex/api/helpers.go:30 | decoding into a bool succeeds exactly on null (leaving false) and on a boolean |
| Json.DecodeString | library/library.go:39 | decoding into a string succeeds exactly on null (leaving "") and on a string |
| Helpers.UnmarshalBoolOrInt | internal/plex/api/helpers.go:13-37 | 0 decodes to false and 1 to true; a boolean decodes to itself; any other integer, and anything else, is an error; null leaves false; the older copy at plex/helpers.go:13-38, identical |
| Webhooks.EventNamesAreLegal | pkg/plex/webhook.go:102-112 | a name is legal iff it is one of the six `media.*` names |
| Webhooks.InitialEvents | pkg/plex/webhook.go:28-35 | a new table has exactly the six keys; the older copy at plex/webhook.go:22-29, identical |
| Webhooks.Dispatch | pkg/plex/webhook.go:89-94 | a handler is found iff the name is in the table, and it is that entry |
| Webhooks.DispatchFindsLegal | plex/webhook.go:86-91 | over a six-key table, dispatch succeeds iff the name is legal |
| Webhooks.Webhook.constructor | pkg/plex/webhook.go:24-37 | a new webhook holds the initial table, its port and its addresses; the older copy at plex/webhook.go:18-31, identical |
| Webhooks.Webhook.NewWebhookEvent | pkg/plex/webhook.go:101-117 | a legal name replaces only its own entry; any other name returns "invalid event name" and leaves the table unchanged; the older copy at plex/webhook.go:98-114, identical |
| Webhooks.Webhook.OnPlay | pkg/plex/webhook.go:120-122 | registers under "media.play", succeeds and keeps the six legal keys; the older copy of the `On*` methods at plex/webhook.go:119-121 does the same |
| Webhooks.Webhook.OnPause | pkg/plex/webhook.go:125-127 | registers under "media.pause", succeeds and keeps the six legal keys |
| Webhooks.Webhook.OnResume | pkg/plex/webhook.go:130-132 | registers under "media.resume", succeeds and keeps the six legal keys |
| Webhooks.Webhook.OnStop | pkg/plex/webhook.go:135-137 | registers under "media.stop", succeeds and keeps the six legal keys |
| Webhooks.Webhook.OnScrobble | pkg/plex/webhook.go:140-142 | registers under "media.scrobble", succeeds and keeps the six legal keys |
| Webhooks.Webhook.OnRate | pkg/plex/webhook.go:145-147 | registers under "media.rate", succeeds and keeps the six legal keys |
| Webhooks.RegisterThenDispatch | pkg/plex/webhook.go:114 | after a registration, the key set still has six names, the name dispatches to the new handler, and every other name dispatches as before |
| Webhooks.GetWebhooks | pkg/plex/webhook.go:155-170 | a failed request passes its error on; otherwise the result is the URLs of the entries, one each, in order; the older copy at plex/webhooks_setup.go:8-27, identical |
| Webhooks.HookExists | pkg/plex/webhook.go:48-53 | true iff some entry equals the hook URL; the older copy at plex/webhook.go:43-54, identical |
| Webhooks.ServeHook | pkg/plex/webhook.go:43-59 | a failed first fetch is the error; a hook already present posts nothing; otherwise the outcome is `addWebhook` over its own second fetch: that fetch's error, or its list with the hook appended; when both fetches agree, the posted list holds the hook exactly once |
| Webhooks.AddWebhook | pkg/plex/webhook.go:172-183 | a failed fetch passes its error on; otherwise the URL is appended at the end of the current list; the older copy at plex/webhooks_setup.go:29-40, identical |
| Webhooks.RemoveHook | pkg/plex/webhook.go:206-211 | the loop with its early exit computes exactly `RemoveFirst`; the older copy of the loop at plex/webhooks_setup.go:63-68 is identical |
| Webhooks.RemoveWebhook | pkg/plex/webhook.go:199-214 | a failed fetch passes its error on; otherwise the first occurrence of the URL is removed; the older copy at plex/webhooks_setup.go:56-71, identical |
| Webhooks.RemoveFirstAbsent | pkg/plex/webhook.go:206-211 | an absent URL leaves the list unchanged |
| Webhooks.RemoveFirstAt | pkg/plex/webhook.go:207-209 | with the first occurrence at i, the result is the list without position i, the rest in order |
| Webhooks.RemoveFirstMultiset | plex/webhooks_setup.go:63-68 | exactly one copy of a present URL is removed, and no other entry changes |
| Webhooks.AddThenRemove | pkg/plex/webhook.go:180 | removing a freshly appended absent URL restores the list |
| Webhooks.SetWebhooksBody | pkg/plex/webhook.go:223-229 | an empty list gives the single placeholder "", and otherwise one value per hook, in order; the older copy at plex/webhooks_setup.go:80-86, identical |
| Webhooks.NonEmpty | pkg/plex/webhook.go:223-229 | the non-empty values of a body, which are exactly its members other than "" |
| Webhooks.SetWebhooksRoundTrip | pkg/plex/webhook.go:223-229 | for hooks without the empty URL, dropping the placeholder from the body gives back the hook list |

## Left out

- HTTP transport, JSON decoding of responses and the websocket notification streams are network I/O. Fetch results are inputs: `Result` values, `CacheFile` and the `fetch` function of `PopulateLibraries`.
- Goroutines, the `bufLen` semaphore, `sync.WaitGroup` and `ctx` are left out, and so are the unsynchronised writes to the shared `md` and `err` variables. Only the sequential order is kept: `start` is taken, the fetch runs, then the cleanup.
- Plex.Plex.PopulateLibraries: the fetch pass (`GetLibraryShows`, `GetLibraryMovies`, the per-show season and episode requests) is taken as a function on the library list. The per-node stamping it performs is stated separately by the `*SetRefreshedAt` members and `Eviction.StampedSurvives`.
- File reading and JSON decoding in `mergeCache`, and all of `WriteCache`, are file I/O. The cache arrives as `ReadFailed`, `DecodeFailed` or `Decoded(libraries)`.
- Pointer aliasing is modelled only where one merge call sees it. The model works on values. It does not capture that `Library.Merge` and the nil branches adopt the other side's map or slice by reference, or that merges update nodes of the incoming tree that are visible elsewhere. Instead, `Episodes.EpisodesMerge` and `Seasons.SeasonMerge` return the updated incoming side as a second result. The second pass over one map is its own loop.
- Seasons.SeasonsSelfMerge: with repeated season rating keys, only the numbers, rating keys and timestamps are stated. In Go, a merge between two numbers leaves both seasons sharing one episode map. A later merge of those two seasons in the same loop is modelled as a merge of two equal copies, not of one map with itself.
- `time.Now()` is a caller-supplied `now`, one value per call, while Go reads the clock per node. `time.Unix` is whole seconds.
- Floating-point ratings (`UserRating`, `AudienceRating`) are copied as opaque `real`s. `Ratings.UnmarshalJSON` parses floats and is not modelled.
- Webhook handlers are closures in Go and `Handler` values here. The HTTP handler that parses the form payload and calls them, `ListenAndServe` and the `panic` paths are left out. `removeWebhooks`, which loops over the listening addresses, and the URL formatting with `fmt.Sprintf` are left out too; the hook URL is a parameter.
- The client constructor's header setup and URL parsing are out of scope; the constructor models only the non-network fields.
- Episodes.EpisodesMerge, Seasons.SeasonsMerge, Seasons.SeasonMerge and Shows.ShowMerge: the key union is stated only for coherent maps (the same rating key under the same number on both sides). Without coherence the code can overwrite a receiver entry keyed differently, so only the bounds and the descent relation are claimed.
- Seasons.SeasonsMerge: absorption of incoming seasons, and the self-merge identity, are stated for receivers whose rating keys are unique, because a map search may stop at either of two equal keys.
- Shows.ShowsMerge: the pairwise `Show.Merge` relation is stated when titles are unique on both sides. With repeated titles, a show merged several times is only guaranteed a timestamp not earlier than each incoming show's.
- Api.FirstPrefixed and Api.ProviderIdOf: lengths and slice offsets (and the helper `Sliceable`) count characters, where Go's `len` and `ID[7:]` count bytes. The two agree on ASCII ids such as `tvdb://N`.
- Libraries.OfType: `Type` returns a nil slice when nothing matches. The model does not distinguish it from an empty one.
- Api.ProviderIdOf: the first prefixed id must be at least seven characters long. On a shorter one Go's slice `ID[7:]` panics, so the model states it as a precondition, as the builders that call it do.
- The zero and one check inside `BoolOrInt.UnmarshalJSON` (internal/plex/api/helpers.go:18-20, plex/helpers.go:19-21) is unreachable, so the model has no branch for it.
- The type declarations in library/show.go, which conflict with library/season.go, are not modelled; the Show and Episode types follow pkg/library.
