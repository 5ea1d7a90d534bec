/** Builders that turn server metadata into catalog nodes, and the updates of existing nodes
    from metadata matched by GUID (internal/plex/convert/; older copies in plex/searchresults.go,
    plex/searchresultseepisode.go and plex/mediametadata.go). */
module Convert {
  import opened Wrappers
  import opened Times
  import opened Api
  import opened Episodes
  import opened Seasons
  import opened Shows
  import opened Movies

  /** `timeOrNil`: an unset (zero) Unix time is nil. */
  function TimeOrNil(i: int): (r: Option<Time>)
    ensures r.None? <==> i == 0
    ensures r.Some? ==> r.value / Second == i && r.value % Second == 0
  {
    if i == 0 then None else Some(Unix(i))
  }

  /** Distinct Unix times stay distinct. */
  lemma TimeOrNilInjective(a: int, b: int)
    requires TimeOrNil(a) == TimeOrNil(b)
    ensures a == b
  {
    if a != 0 {
      assert TimeOrNil(a).value / Second == a;
    }
  }

  /** The show `SearchResultsToShows` builds from one search result. */
  function ShowOfResult(m: Metadata, now: Time): Show
  {
    Show(m.title, m.summary, m.year, m.contentRating, m.guid, 0, m.key, m.ratingKey, m.userRating,
         m.audienceRating, m.viewCount > 0, TimeOrNil(m.lastViewedAt), Unix(m.addedAt), Unix(m.updatedAt),
         None, now)
  }

  /** The movie `SearchResultsToMovies` builds from one search result. */
  function MovieOfResult(m: Metadata, now: Time): Movie
  {
    Movie(m.title, m.summary, m.year, m.contentRating, m.guid, 0, m.key, m.ratingKey, m.userRating,
          m.audienceRating, m.viewCount > 0, TimeOrNil(m.lastViewedAt), Unix(m.addedAt), Unix(m.updatedAt), now)
  }

  /** The value a freshly made Go slice holds before the builder fills its slot. */
  const BlankShow: Show := Show("", "", 0, "", "", 0, "", "", 0.0, 0.0, false, None, ZeroTime, ZeroTime, None, ZeroTime)
  const BlankMovie: Movie := Movie("", "", 0, "", "", 0, "", "", 0.0, 0.0, false, None, ZeroTime, ZeroTime, ZeroTime)

  /** `SearchResultsToShows`: one show per result, in the same order, watched iff viewed at
      least once, stamped with `now`. */
  method SearchResultsToShows(md: seq<Metadata>, now: Time) returns (r: seq<Show>)
    ensures |r| == |md|
    ensures forall i :: 0 <= i < |md| ==> r[i] == ShowOfResult(md[i], now)
    ensures forall i :: 0 <= i < |md| ==>
              && r[i].title == md[i].title && r[i].ratingKey == md[i].ratingKey && r[i].guid == md[i].guid
              && r[i].watched == (md[i].viewCount > 0) && r[i].refreshedAt == now && r[i].seasons.None?
  {
    r := seq(|md|, _ => BlankShow);
    var i := 0;
    while i < |md|
      invariant 0 <= i <= |md| && |r| == |md|
      invariant forall j :: 0 <= j < i ==> r[j] == ShowOfResult(md[j], now)
    {
      r := r[i := ShowOfResult(md[i], now)];
      i := i + 1;
    }
  }

  /** `SearchResultsToMovies`: one movie per result, in the same order, with the same mapping. */
  method SearchResultsToMovies(md: seq<Metadata>, now: Time) returns (r: seq<Movie>)
    ensures |r| == |md|
    ensures forall i :: 0 <= i < |md| ==> r[i] == MovieOfResult(md[i], now)
    ensures forall i :: 0 <= i < |md| ==>
              && r[i].title == md[i].title && r[i].ratingKey == md[i].ratingKey && r[i].guid == md[i].guid
              && r[i].watched == (md[i].viewCount > 0) && r[i].refreshedAt == now
  {
    r := seq(|md|, _ => BlankMovie);
    var i := 0;
    while i < |md|
      invariant 0 <= i <= |md| && |r| == |md|
      invariant forall j :: 0 <= j < i ==> r[j] == MovieOfResult(md[j], now)
    {
      r := r[i := MovieOfResult(md[i], now)];
      i := i + 1;
    }
  }

  /** The season `EpisodeResultsToSeasons` builds from one result: numbered by its index. */
  function SeasonOfResult(m: Metadata, now: Time): Season
  {
    Season(m.title, m.index, m.guid, m.ratingKey, None, now)
  }

  /** The episode `EpisodeResultsToEpisodes` builds from one result. */
  function EpisodeOfResult(m: Metadata, now: Time): Episode
  {
    Episode(m.title, m.index, m.guid, 0, m.contentRating, m.year, m.ratingKey, m.viewCount > 0,
            TimeOrNil(m.lastViewedAt), Unix(m.addedAt), Unix(m.updatedAt), now, m.duration)
  }

  /** The results processed in order, each written under its index. */
  function SeasonsOfResults(md: seq<Metadata>, now: Time): map<int, Season>
    decreases |md|
  {
    if md == [] then map[] else SeasonsOfResults(md[..|md| - 1], now)[md[|md| - 1].index := SeasonOfResult(md[|md| - 1], now)]
  }

  function EpisodesOfResults(md: seq<Metadata>, now: Time): map<int, Episode>
    decreases |md|
  {
    if md == [] then map[] else EpisodesOfResults(md[..|md| - 1], now)[md[|md| - 1].index := EpisodeOfResult(md[|md| - 1], now)]
  }

  /** Result `j` is the last one with its index. */
  ghost predicate LastWithIndex(md: seq<Metadata>, j: int)
    requires 0 <= j < |md|
  {
    forall j' :: j < j' < |md| ==> md[j'].index != md[j].index
  }

  /** The indexes the results carry. */
  function Indexes(md: seq<Metadata>): (r: set<int>)
    ensures forall j :: 0 <= j < |md| ==> md[j].index in r
    ensures forall k :: k in r ==> exists j :: 0 <= j < |md| && md[j].index == k
    decreases |md|
  {
    if md == [] then {}
    else
      var init := md[..|md| - 1];
      assert forall j :: 0 <= j < |init| ==> init[j] == md[j];
      Indexes(init) + {md[|md| - 1].index}
  }

  /** The season map's keys are exactly the indexes, each numbered by its key. */
  lemma {:induction false} SeasonsOfResultsKeys(md: seq<Metadata>, now: Time)
    ensures SeasonsOfResults(md, now).Keys == Indexes(md)
    ensures forall k :: k in SeasonsOfResults(md, now) ==> SeasonsOfResults(md, now)[k].number == k
    decreases |md|
  {
    if md != [] {
      SeasonsOfResultsKeys(md[..|md| - 1], now);
    }
  }

  /** A later result with the same index overwrites an earlier one: the last one stays. */
  lemma {:induction false} SeasonsOfResultsLastWins(md: seq<Metadata>, now: Time, j: nat)
    requires j < |md| && LastWithIndex(md, j)
    ensures md[j].index in SeasonsOfResults(md, now)
    ensures SeasonsOfResults(md, now)[md[j].index] == SeasonOfResult(md[j], now)
    decreases |md|
  {
    var init := md[..|md| - 1];
    if j < |md| - 1 {
      assert init[j] == md[j];
      assert LastWithIndex(init, j);
      SeasonsOfResultsLastWins(init, now, j);
    }
  }

  /** The episode map's keys are exactly the indexes, each episode's season number its key. */
  lemma {:induction false} EpisodesOfResultsKeys(md: seq<Metadata>, now: Time)
    ensures EpisodesOfResults(md, now).Keys == Indexes(md)
    ensures forall k :: k in EpisodesOfResults(md, now) ==> EpisodesOfResults(md, now)[k].seasonNumber == k
    decreases |md|
  {
    if md != [] {
      EpisodesOfResultsKeys(md[..|md| - 1], now);
    }
  }

  /** A later result with the same index overwrites an earlier one: the last one stays. */
  lemma {:induction false} EpisodesOfResultsLastWins(md: seq<Metadata>, now: Time, j: nat)
    requires j < |md| && LastWithIndex(md, j)
    ensures md[j].index in EpisodesOfResults(md, now)
    ensures EpisodesOfResults(md, now)[md[j].index] == EpisodeOfResult(md[j], now)
    decreases |md|
  {
    var init := md[..|md| - 1];
    if j < |md| - 1 {
      assert init[j] == md[j];
      assert LastWithIndex(init, j);
      EpisodesOfResultsLastWins(init, now, j);
    }
  }

  /** `EpisodeResultsToSeasons`: every result written, in order, under its index. */
  method EpisodeResultsToSeasons(md: seq<Metadata>, now: Time) returns (r: SeasonMap)
    ensures r == Some(SeasonsOfResults(md, now))
  {
    var m: map<int, Season> := map[];
    var i := 0;
    while i < |md|
      invariant 0 <= i <= |md|
      invariant m == SeasonsOfResults(md[..i], now)
    {
      assert md[..i + 1][..i] == md[..i];
      m := m[md[i].index := SeasonOfResult(md[i], now)];
      i := i + 1;
    }
    assert md[..i] == md;
    r := Some(m);
  }

  /** `EpisodeResultsToEpisodes`: every result written, in order, under its index. */
  method EpisodeResultsToEpisodes(md: seq<Metadata>, now: Time) returns (r: EpisodeMap)
    ensures r == Some(EpisodesOfResults(md, now))
  {
    var m: map<int, Episode> := map[];
    var i := 0;
    while i < |md|
      invariant 0 <= i <= |md|
      invariant m == EpisodesOfResults(md[..i], now)
    {
      assert md[..i + 1][..i] == md[..i];
      m := m[md[i].index := EpisodeOfResult(md[i], now)];
      i := i + 1;
    }
    assert md[..i] == md;
    r := Some(m);
  }

  /** The first result of the given type. */
  function FirstOfType(md: seq<Metadata>, t: string): (r: Option<nat>)
    ensures r.Some? ==> r.value < |md| && md[r.value].mtype == t && forall i :: 0 <= i < r.value ==> md[i].mtype != t
    ensures r.None? <==> forall i :: 0 <= i < |md| ==> md[i].mtype != t
  {
    if md == [] then None
    else if md[0].mtype == t then Some(0)
    else match FirstOfType(md[1..], t)
      case None => None
      case Some(i) => Some(i + 1)
  }

  /** The show `MetadataToShow` builds: the descriptive fields and the TVDB id, everything else
      zero (no seasons, zero `RefreshedAt`). */
  function ShowOfMetadata(m: Metadata, tvdb: int): Show
  {
    Show(m.title, m.summary, m.year, m.contentRating, m.guid, tvdb, "", m.ratingKey, 0.0, 0.0, false, None,
         ZeroTime, ZeroTime, None, ZeroTime)
  }

  /** The episode `MetadataToEpisode` builds. */
  function EpisodeOfMetadata(m: Metadata): Episode
  {
    Episode(m.title, m.index, m.guid, 0, m.contentRating, m.year, m.ratingKey, m.viewCount > 0,
            TimeOrNil(m.lastViewedAt), Unix(m.addedAt), ZeroTime, ZeroTime, 0)
  }

  /** `MetadataToShow`: built from the first entry of type "show", or None iff there is none. */
  method MetadataToShow(md: seq<Metadata>) returns (r: Option<Show>)
    requires FirstOfType(md, "show").Some? ==> Sliceable(md[FirstOfType(md, "show").value].altGuids, "tvdb")
    ensures r.None? <==> FirstOfType(md, "show").None?
    ensures r.Some? ==>
              var m := md[FirstOfType(md, "show").value];
              && r.value == ShowOfMetadata(m, ProviderIdOf(m.altGuids, "tvdb"))
              && r.value.title == m.title && r.value.guid == m.guid
              && r.value.refreshedAt == ZeroTime && r.value.key == "" && r.value.seasons.None?
  {
    var i := 0;
    while i < |md|
      invariant 0 <= i <= |md|
      invariant forall j :: 0 <= j < i ==> md[j].mtype != "show"
    {
      if md[i].mtype == "show" {
        var tvdb := Tvdb(md[i].altGuids);
        return Some(ShowOfMetadata(md[i], tvdb));
      }
      i := i + 1;
    }
    return None;
  }

  /** `MetadataToEpisode`: built from the first entry of type "episode", or None iff there is none. */
  method MetadataToEpisode(md: seq<Metadata>) returns (r: Option<Episode>)
    ensures r.None? <==> FirstOfType(md, "episode").None?
    ensures r.Some? ==>
              var m := md[FirstOfType(md, "episode").value];
              && r.value == EpisodeOfMetadata(m)
              && r.value.watched == (m.viewCount > 0) && r.value.seasonNumber == m.index
              && r.value.refreshedAt == ZeroTime && r.value.updatedAt == ZeroTime
  {
    var i := 0;
    while i < |md|
      invariant 0 <= i <= |md|
      invariant forall j :: 0 <= j < i ==> md[j].mtype != "episode"
    {
      if md[i].mtype == "episode" {
        return Some(EpisodeOfMetadata(md[i]));
      }
      i := i + 1;
    }
    return None;
  }

  /** The last entry whose GUID equals `guid`. */
  function LastWithGuid(md: seq<Metadata>, guid: string): (r: Option<nat>)
    ensures r.Some? ==> r.value < |md| && md[r.value].guid == guid && forall i :: r.value < i < |md| ==> md[i].guid != guid
    ensures r.None? <==> forall i :: 0 <= i < |md| ==> md[i].guid != guid
    decreases |md|
  {
    if md == [] then None
    else if md[|md| - 1].guid == guid then Some(|md| - 1)
    else LastWithGuid(md[..|md| - 1], guid)
  }

  /** Every entry the update loop matches has a TVDB (or TMDB) GUID it can slice. */
  predicate MatchesSliceable(md: seq<Metadata>, guid: string, prefix: string)
    requires |prefix| == 4
  {
    forall i :: 0 <= i < |md| && md[i].guid == guid ==> Sliceable(md[i].altGuids, prefix)
  }

  /** A show updated from entry `m`. */
  function ShowUpdated(show: Show, m: Metadata, now: Time): Show
    requires Sliceable(m.altGuids, "tvdb")
  {
    show.(title := m.title, year := m.year, summary := m.summary, contentRating := m.contentRating,
          ratingKey := m.ratingKey, tvdb := ProviderIdOf(m.altGuids, "tvdb"), refreshedAt := now)
  }

  /** `UpdateShowFromMetadata`: every entry whose GUID equals the show's overwrites the listed
      fields, so the last one wins; with no match nothing changes, not even `RefreshedAt`. */
  method UpdateShowFromMetadata(md: seq<Metadata>, show: Show, now: Time) returns (r: Show)
    requires MatchesSliceable(md, show.guid, "tvdb")
    ensures LastWithGuid(md, show.guid).None? ==> r == show
    ensures LastWithGuid(md, show.guid).Some? ==> r == ShowUpdated(show, md[LastWithGuid(md, show.guid).value], now)
    ensures r.seasons == show.seasons && r.guid == show.guid && r.key == show.key && r.watched == show.watched
  {
    r := show;
    var i := 0;
    while i < |md|
      invariant 0 <= i <= |md| && r.guid == show.guid
      invariant LastWithGuid(md[..i], show.guid).None? ==> r == show
      invariant LastWithGuid(md[..i], show.guid).Some? ==> r == ShowUpdated(show, md[LastWithGuid(md[..i], show.guid).value], now)
    {
      assert md[..i + 1][..i] == md[..i];
      assert md[..i + 1][i] == md[i];
      if md[i].guid == r.guid {
        var tvdb := Tvdb(md[i].altGuids);
        r := r.(title := md[i].title, year := md[i].year, summary := md[i].summary,
                contentRating := md[i].contentRating, ratingKey := md[i].ratingKey, tvdb := tvdb,
                refreshedAt := now);
      }
      i := i + 1;
    }
    assert md[..i] == md;
  }

  /** An episode updated from entry `m`. */
  function EpisodeUpdated(ep: Episode, m: Metadata, now: Time): Episode
    requires Sliceable(m.altGuids, "tvdb")
  {
    ep.(title := m.title, seasonNumber := m.index, ratingKey := m.ratingKey, contentRating := m.contentRating,
        year := m.year, tvdb := ProviderIdOf(m.altGuids, "tvdb"), watched := m.viewCount > 0,
        duration := m.duration, lastViewedAt := TimeOrNil(m.lastViewedAt), addedAt := Unix(m.addedAt),
        refreshedAt := now)
  }

  /** `UpdateEpisodeFromMetadata`: the last GUID match wins; `UpdatedAt` is never touched. */
  method UpdateEpisodeFromMetadata(md: seq<Metadata>, ep: Episode, now: Time) returns (r: Episode)
    requires MatchesSliceable(md, ep.guid, "tvdb")
    ensures LastWithGuid(md, ep.guid).None? ==> r == ep
    ensures LastWithGuid(md, ep.guid).Some? ==> r == EpisodeUpdated(ep, md[LastWithGuid(md, ep.guid).value], now)
    ensures r.updatedAt == ep.updatedAt && r.guid == ep.guid
  {
    r := ep;
    var i := 0;
    while i < |md|
      invariant 0 <= i <= |md| && r.guid == ep.guid
      invariant LastWithGuid(md[..i], ep.guid).None? ==> r == ep
      invariant LastWithGuid(md[..i], ep.guid).Some? ==> r == EpisodeUpdated(ep, md[LastWithGuid(md[..i], ep.guid).value], now)
    {
      assert md[..i + 1][..i] == md[..i];
      assert md[..i + 1][i] == md[i];
      if md[i].guid == r.guid {
        var tvdb := Tvdb(md[i].altGuids);
        r := r.(title := md[i].title, seasonNumber := md[i].index, ratingKey := md[i].ratingKey,
                contentRating := md[i].contentRating, year := md[i].year, tvdb := tvdb,
                watched := md[i].viewCount > 0, duration := md[i].duration,
                lastViewedAt := TimeOrNil(md[i].lastViewedAt), addedAt := Unix(md[i].addedAt),
                refreshedAt := now);
      }
      i := i + 1;
    }
    assert md[..i] == md;
  }

  /** A movie updated from entry `m`. */
  function MovieUpdated(movie: Movie, m: Metadata, now: Time): Movie
    requires Sliceable(m.altGuids, "tmdb")
  {
    movie.(title := m.title, year := m.year, ratingKey := m.ratingKey, contentRating := m.contentRating,
           summary := m.summary, tmdb := ProviderIdOf(m.altGuids, "tmdb"), lastViewedAt := TimeOrNil(m.lastViewedAt),
           addedAt := Unix(m.addedAt), refreshedAt := now)
  }

  /** `UpdateMovieFromMetadata`: the last GUID match wins; Watched, Key and UpdatedAt are never
      touched. */
  method UpdateMovieFromMetadata(md: seq<Metadata>, movie: Movie, now: Time) returns (r: Movie)
    requires MatchesSliceable(md, movie.guid, "tmdb")
    ensures LastWithGuid(md, movie.guid).None? ==> r == movie
    ensures LastWithGuid(md, movie.guid).Some? ==> r == MovieUpdated(movie, md[LastWithGuid(md, movie.guid).value], now)
    ensures r.watched == movie.watched && r.key == movie.key && r.updatedAt == movie.updatedAt && r.guid == movie.guid
  {
    r := movie;
    var i := 0;
    while i < |md|
      invariant 0 <= i <= |md| && r.guid == movie.guid
      invariant LastWithGuid(md[..i], movie.guid).None? ==> r == movie
      invariant LastWithGuid(md[..i], movie.guid).Some? ==> r == MovieUpdated(movie, md[LastWithGuid(md[..i], movie.guid).value], now)
    {
      assert md[..i + 1][..i] == md[..i];
      assert md[..i + 1][i] == md[i];
      if md[i].guid == r.guid {
        var tmdb := Tmdb(md[i].altGuids);
        r := r.(title := md[i].title, year := md[i].year, ratingKey := md[i].ratingKey,
                contentRating := md[i].contentRating, summary := md[i].summary, tmdb := tmdb,
                lastViewedAt := TimeOrNil(md[i].lastViewedAt), addedAt := Unix(md[i].addedAt),
                refreshedAt := now);
      }
      i := i + 1;
    }
    assert md[..i] == md;
  }
}
