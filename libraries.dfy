/** The list of library sections (pkg/library/libraries.go): refresh stamping, the filter by
    type and the catalog lookups by rating key. */
module Libraries {
  import opened Wrappers
  import opened Times
  import opened Lists
  import opened Episodes
  import opened Seasons
  import opened Shows
  import opened Library

  /** Go's `Libraries` slice of library pointers, as values. */
  type Libraries = seq<Library>

  /** The libraries of type `t`, in their original order. */
  function OfType(libs: Libraries, t: int): (r: Libraries)
    ensures |r| <= |libs|
    ensures forall i :: 0 <= i < |r| ==> r[i].libType == t && r[i] in libs
    ensures forall i :: 0 <= i < |libs| && libs[i].libType == t ==> libs[i] in r
    decreases |libs|
  {
    if libs == [] then []
    else
      var init := libs[..|libs| - 1];
      var last := libs[|libs| - 1];
      assert forall x :: x in init ==> x in libs;
      assert forall i :: 0 <= i < |libs| - 1 ==> libs[i] == init[i];
      OfType(init, t) + (if last.libType == t then [last] else [])
  }

  /** Filtering distributes over concatenation: the relative order of the kept libraries is
      their order in the input. */
  lemma {:induction false} OfTypeAppend(a: Libraries, b: Libraries, t: int)
    ensures OfType(a + b, t) == OfType(a, t) + OfType(b, t)
    decreases |b|
  {
    if b == [] {
      assert a + b == a;
    } else {
      var b' := b[..|b| - 1];
      assert (a + b)[..|a + b| - 1] == a + b';
      assert (a + b)[|a + b| - 1] == b[|b| - 1];
      OfTypeAppend(a, b', t);
    }
  }

  /** Filtering twice by the same type changes nothing. */
  lemma {:induction false} OfTypeIdempotent(libs: Libraries, t: int)
    ensures OfType(OfType(libs, t), t) == OfType(libs, t)
    decreases |libs|
  {
    if libs != [] {
      var init := libs[..|libs| - 1];
      var last := libs[|libs| - 1];
      OfTypeIdempotent(init, t);
      var tail := if last.libType == t then [last] else [];
      OfTypeAppend(OfType(init, t), tail, t);
      if last.libType == t {
        assert [last][..0] == [];
      }
    }
  }

  /** `Libraries.Type`: a fresh list of the libraries of type `t`, in order. */
  method FilterType(libs: Libraries, t: int) returns (nl: Libraries)
    ensures nl == OfType(libs, t)
  {
    nl := [];
    var i := 0;
    while i < |libs|
      invariant 0 <= i <= |libs|
      invariant nl == OfType(libs[..i], t)
    {
      assert libs[..i + 1][..i] == libs[..i];
      if libs[i].libType == t {
        nl := nl + [libs[i]];
      }
      i := i + 1;
    }
    assert libs[..i] == libs;
  }

  /** Some episode of the show's seasons has that rating key. */
  ghost predicate ShowHasEpisodeKey(show: Show, ratingKey: string)
  {
    exists k, n :: k in SeasonEntries(show.seasons) && n in Entries(SeasonEntries(show.seasons)[k].episodes) &&
      Entries(SeasonEntries(show.seasons)[k].episodes)[n].ratingKey == ratingKey
  }

  /** The season has that rating key itself, or one of its episodes has. */
  ghost predicate SeasonHasKey(season: Season, ratingKey: string)
  {
    season.ratingKey == ratingKey ||
    exists n :: n in Entries(season.episodes) && Entries(season.episodes)[n].ratingKey == ratingKey
  }

  /** The show has that rating key itself, or one of its seasons or episodes has. */
  ghost predicate ShowHasKey(show: Show, ratingKey: string)
  {
    show.ratingKey == ratingKey ||
    exists k :: k in SeasonEntries(show.seasons) && SeasonHasKey(SeasonEntries(show.seasons)[k], ratingKey)
  }

  /** Where a lookup found its answer: library `lib`, show `show` of it, and (for seasons and
      episodes) the map keys below. */
  datatype EpisodeAt = EpisodeAt(lib: nat, show: nat, season: int, episode: int)
  datatype SeasonAt = SeasonAt(lib: nat, show: nat, season: int)
  datatype ShowAt = ShowAt(lib: nat, show: nat)

  /** The show at (i, j), if there is one. */
  ghost predicate ShowIn(libs: Libraries, i: int, j: int)
  {
    0 <= i < |libs| && 0 <= j < |ShowElems(libs[i].shows)|
  }

  function ShowOf(libs: Libraries, i: int, j: int): Show
    requires ShowIn(libs, i, j)
  {
    ShowElems(libs[i].shows)[j]
  }

  /** Show (i, j) comes before show (lib, show) in the search order. */
  ghost predicate Before(i: int, j: int, lib: int, show: int)
  {
    i < lib || (i == lib && j < show)
  }

  /** `Libraries.FindEpisode`: the show, season and episode of an episode with that rating key,
      from the first library and show (in list order) that has one; seasons and episodes are
      searched in Go's unspecified map order. */
  method FindEpisode(libs: Libraries, ratingKey: string) returns (r: Option<EpisodeAt>)
    ensures r.None? <==> forall i, j :: ShowIn(libs, i, j) ==> !ShowHasEpisodeKey(ShowOf(libs, i, j), ratingKey)
    ensures r.Some? ==>
              && ShowIn(libs, r.value.lib, r.value.show)
              && var show := ShowOf(libs, r.value.lib, r.value.show);
                 && r.value.season in SeasonEntries(show.seasons)
                 && r.value.episode in Entries(SeasonEntries(show.seasons)[r.value.season].episodes)
                 && Entries(SeasonEntries(show.seasons)[r.value.season].episodes)[r.value.episode].ratingKey == ratingKey
    ensures r.Some? ==> forall i, j :: ShowIn(libs, i, j) && Before(i, j, r.value.lib, r.value.show) ==>
              !ShowHasEpisodeKey(ShowOf(libs, i, j), ratingKey)
  {
    var i := 0;
    while i < |libs|
      invariant 0 <= i <= |libs|
      invariant forall i', j :: ShowIn(libs, i', j) && i' < i ==> !ShowHasEpisodeKey(ShowOf(libs, i', j), ratingKey)
    {
      var shows := ShowElems(libs[i].shows);
      var j := 0;
      while j < |shows|
        invariant 0 <= j <= |shows|
        invariant forall j' :: 0 <= j' < j ==> !ShowHasEpisodeKey(shows[j'], ratingKey)
      {
        var hit := FindEpisodeWhere(shows[j].seasons, (e: Episode) => e.ratingKey == ratingKey);
        if hit.Some? {
          assert ShowIn(libs, i, j) && ShowOf(libs, i, j) == shows[j];
          assert ShowHasEpisodeKey(shows[j], ratingKey);
          return Some(EpisodeAt(i, j, hit.value.0, hit.value.1));
        }
        j := j + 1;
      }
      i := i + 1;
    }
    return None;
  }

  /** The search `FindSeason` and `FindShow` run over one show's seasons: a season that has the
      rating key itself or through one of its episodes, the season's own key checked first. */
  method FindSeasonWhere(s: SeasonMap, ratingKey: string) returns (found: Option<int>)
    ensures found.Some? ==> found.value in SeasonEntries(s) && SeasonHasKey(SeasonEntries(s)[found.value], ratingKey)
    ensures found.None? <==> forall k :: k in SeasonEntries(s) ==> !SeasonHasKey(SeasonEntries(s)[k], ratingKey)
  {
    var m := SeasonEntries(s);
    var remaining := m.Keys;
    while remaining != {}
      invariant remaining <= m.Keys
      invariant forall k :: k in m && k !in remaining ==> !SeasonHasKey(m[k], ratingKey)
      decreases remaining
    {
      var k := Pick(remaining);
      if m[k].ratingKey == ratingKey {
        return Some(k);
      }
      var e := EpisodesFindWhere(m[k].episodes, (e: Episode) => e.ratingKey == ratingKey);
      if e.Some? {
        return Some(k);
      }
      remaining := remaining - {k};
    }
    return None;
  }

  /** `Libraries.FindSeason`: the show and season for a season's own rating key or that of an
      episode in it, from the first library and show (in list order) that has one. */
  method FindSeason(libs: Libraries, ratingKey: string) returns (r: Option<SeasonAt>)
    ensures r.None? <==> forall i, j, k :: ShowIn(libs, i, j) && k in SeasonEntries(ShowOf(libs, i, j).seasons) ==>
              !SeasonHasKey(SeasonEntries(ShowOf(libs, i, j).seasons)[k], ratingKey)
    ensures r.Some? ==>
              && ShowIn(libs, r.value.lib, r.value.show)
              && var show := ShowOf(libs, r.value.lib, r.value.show);
                 && r.value.season in SeasonEntries(show.seasons)
                 && SeasonHasKey(SeasonEntries(show.seasons)[r.value.season], ratingKey)
    ensures r.Some? ==> forall i, j, k ::
              (ShowIn(libs, i, j) && Before(i, j, r.value.lib, r.value.show) && k in SeasonEntries(ShowOf(libs, i, j).seasons)) ==>
              !SeasonHasKey(SeasonEntries(ShowOf(libs, i, j).seasons)[k], ratingKey)
  {
    var i := 0;
    while i < |libs|
      invariant 0 <= i <= |libs|
      invariant forall i', j, k :: ShowIn(libs, i', j) && i' < i && k in SeasonEntries(ShowOf(libs, i', j).seasons) ==>
                  !SeasonHasKey(SeasonEntries(ShowOf(libs, i', j).seasons)[k], ratingKey)
    {
      var shows := ShowElems(libs[i].shows);
      var j := 0;
      while j < |shows|
        invariant 0 <= j <= |shows|
        invariant forall j', k :: 0 <= j' < j && k in SeasonEntries(shows[j'].seasons) ==>
                    !SeasonHasKey(SeasonEntries(shows[j'].seasons)[k], ratingKey)
      {
        var hit := FindSeasonWhere(shows[j].seasons, ratingKey);
        if hit.Some? {
          assert ShowIn(libs, i, j) && ShowOf(libs, i, j) == shows[j];
          return Some(SeasonAt(i, j, hit.value));
        }
        j := j + 1;
      }
      i := i + 1;
    }
    return None;
  }

  /** `Libraries.FindShow`: the first show (libraries and shows in list order) whose own rating
      key, or that of one of its seasons or episodes, matches. */
  method FindShow(libs: Libraries, ratingKey: string) returns (r: Option<ShowAt>)
    ensures r.None? <==> forall i, j :: ShowIn(libs, i, j) ==> !ShowHasKey(ShowOf(libs, i, j), ratingKey)
    ensures r.Some? ==> ShowIn(libs, r.value.lib, r.value.show) && ShowHasKey(ShowOf(libs, r.value.lib, r.value.show), ratingKey)
    ensures r.Some? ==> forall i, j :: ShowIn(libs, i, j) && Before(i, j, r.value.lib, r.value.show) ==>
              !ShowHasKey(ShowOf(libs, i, j), ratingKey)
  {
    var i := 0;
    while i < |libs|
      invariant 0 <= i <= |libs|
      invariant forall i', j :: ShowIn(libs, i', j) && i' < i ==> !ShowHasKey(ShowOf(libs, i', j), ratingKey)
    {
      var shows := ShowElems(libs[i].shows);
      var j := 0;
      while j < |shows|
        invariant 0 <= j <= |shows|
        invariant forall j' :: 0 <= j' < j ==> !ShowHasKey(shows[j'], ratingKey)
      {
        assert ShowIn(libs, i, j) && ShowOf(libs, i, j) == shows[j];
        if shows[j].ratingKey == ratingKey {
          return Some(ShowAt(i, j));
        }
        var hit := FindSeasonWhere(shows[j].seasons, ratingKey);
        if hit.Some? {
          assert ShowHasKey(shows[j], ratingKey);
          return Some(ShowAt(i, j));
        }
        j := j + 1;
      }
      i := i + 1;
    }
    return None;
  }

  /** Every episode `FindEpisode` can find also leads `FindSeason` and `FindShow` to an answer. */
  lemma EpisodeKeyReachesShow(show: Show, ratingKey: string)
    requires ShowHasEpisodeKey(show, ratingKey)
    ensures ShowHasKey(show, ratingKey)
    ensures exists k :: k in SeasonEntries(show.seasons) && SeasonHasKey(SeasonEntries(show.seasons)[k], ratingKey)
  {
    var k, n :| k in SeasonEntries(show.seasons) && n in Entries(SeasonEntries(show.seasons)[k].episodes) &&
      Entries(SeasonEntries(show.seasons)[k].episodes)[n].ratingKey == ratingKey;
    assert SeasonHasKey(SeasonEntries(show.seasons)[k], ratingKey);
  }

  function LibrariesStamped(libs: Libraries, now: Time): (r: Libraries)
  {
    seq(|libs|, i requires 0 <= i < |libs| => LibraryStamped(libs[i], now))
  }

  /** `Libraries.SetRefreshedAt`: stamps every library in place. */
  method LibrariesSetRefreshedAt(libs: Libraries, now: Time) returns (r: Libraries)
    ensures r == LibrariesStamped(libs, now)
    ensures |r| == |libs| && forall i :: 0 <= i < |r| ==> r[i].refreshedAt == now && r[i].title == libs[i].title
  {
    r := libs;
    var i := 0;
    while i < |r|
      invariant 0 <= i <= |r| && |r| == |libs|
      invariant forall j :: 0 <= j < |r| ==> r[j] == (if j < i then LibraryStamped(libs[j], now) else libs[j])
    {
      var lib := LibrarySetRefreshedAt(r[i], now);
      r := r[i := lib];
      i := i + 1;
    }
  }
}
