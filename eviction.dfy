/** Stale eviction after a refresh pass (pkg/plex/populate.go; the same code inline in
    plex/populate.go): libraries not refreshed within a minute before the pass started, and
    movies, shows, seasons and episodes not refreshed since it started, are removed. */
module Eviction {
  import opened Wrappers
  import opened Times
  import opened Lists
  import opened Episodes
  import opened Seasons
  import opened Shows
  import opened Movies
  import opened Library
  import opened Libraries

  /** The cut-off for whole libraries: one minute before the pass started. */
  function LibraryCutoff(start: Time): Time
  {
    start - Minute
  }

  /** The episodes that survive: those refreshed at or after `start`. */
  function FreshEpisodes(e: EpisodeMap, start: Time): (r: EpisodeMap)
    ensures r.None? <==> e.None?
    ensures forall k :: k in Entries(r) <==> k in Entries(e) && start <= Entries(e)[k].refreshedAt
    ensures forall k :: k in Entries(r) ==> Entries(r)[k] == Entries(e)[k]
  {
    if e.None? then None
    else Some(map k | k in e.value && start <= e.value[k].refreshedAt :: e.value[k])
  }

  function SeasonEvicted(s: Season, start: Time): Season
  {
    s.(episodes := FreshEpisodes(s.episodes, start))
  }

  /** The seasons that survive, each with its stale episodes removed. */
  function FreshSeasons(s: SeasonMap, start: Time): (r: SeasonMap)
    ensures r.None? <==> s.None?
    ensures forall k :: k in SeasonEntries(r) <==> k in SeasonEntries(s) && start <= SeasonEntries(s)[k].refreshedAt
    ensures forall k :: k in SeasonEntries(r) ==> SeasonEntries(r)[k] == SeasonEvicted(SeasonEntries(s)[k], start)
  {
    if s.None? then None
    else Some(map k | k in s.value && start <= s.value[k].refreshedAt :: SeasonEvicted(s.value[k], start))
  }

  function ShowEvicted(show: Show, start: Time): Show
  {
    show.(seasons := FreshSeasons(show.seasons, start))
  }

  /** The shows that survive, in order, each with its stale seasons and episodes removed. */
  function FreshShows(s: seq<Show>, start: Time): (r: seq<Show>)
    ensures |r| <= |s|
    decreases |s|
  {
    if s == [] then []
    else
      var last := s[|s| - 1];
      FreshShows(s[..|s| - 1], start) + (if start <= last.refreshedAt then [ShowEvicted(last, start)] else [])
  }

  /** The movies that survive, in order. */
  function FreshMovies(m: seq<Movie>, start: Time): (r: seq<Movie>)
    ensures |r| <= |m|
    decreases |m|
  {
    if m == [] then []
    else
      var last := m[|m| - 1];
      FreshMovies(m[..|m| - 1], start) + (if start <= last.refreshedAt then [last] else [])
  }

  /** A nil list stays nil; a non-nil one stays non-nil even when every element goes. */
  function FreshShowList(s: ShowList, start: Time): ShowList
  {
    if s.None? then None else Some(FreshShows(s.value, start))
  }

  function FreshMovieList(m: MovieList, start: Time): MovieList
  {
    if m.None? then None else Some(FreshMovies(m.value, start))
  }

  function LibraryEvicted(l: Library, start: Time): Library
  {
    l.(movies := FreshMovieList(l.movies, start), shows := FreshShowList(l.shows, start))
  }

  /** The libraries that survive, in order, each with its stale movies and shows removed. */
  function FreshLibraries(libs: Libraries, start: Time): (r: Libraries)
    ensures |r| <= |libs|
    decreases |libs|
  {
    if libs == [] then []
    else
      var last := libs[|libs| - 1];
      FreshLibraries(libs[..|libs| - 1], start)
        + (if LibraryCutoff(start) <= last.refreshedAt then [LibraryEvicted(last, start)] else [])
  }

  // ---- The eviction loops -------------------------------------------------------------

  /** The inner `range` over a season's episodes deleting the stale ones, in Go's unspecified
      map order. */
  method EvictEpisodes(e: EpisodeMap, start: Time) returns (r: EpisodeMap)
    ensures r == FreshEpisodes(e, start)
  {
    if e.None? {
      return None;
    }
    var m := e.value;
    var remaining := m.Keys;
    while remaining != {}
      invariant remaining <= m.Keys <= e.value.Keys
      invariant forall k :: k in m ==> m[k] == e.value[k]
      invariant forall k :: k in e.value && k !in remaining ==> (k in m <==> start <= e.value[k].refreshedAt)
      invariant forall k :: k in remaining ==> k in m
      decreases remaining
    {
      var k := Pick(remaining);
      if m[k].refreshedAt < start {
        m := map k' | k' in m && k' != k :: m[k'];
      }
      remaining := remaining - {k};
    }
    var f := FreshEpisodes(e, start).value;
    assert Entries(e) == e.value;
    assert forall k :: k in m <==> k in f;
    assert m.Keys == f.Keys;
    assert forall k :: k in m ==> m[k] == f[k];
    assert m == f;
    r := Some(m);
  }

  /** The `range` over a show's seasons: a stale season is deleted whole; in a surviving one the
      stale episodes are deleted. */
  method EvictSeasons(s: SeasonMap, start: Time) returns (r: SeasonMap)
    ensures r == FreshSeasons(s, start)
  {
    if s.None? {
      return None;
    }
    var m := s.value;
    var remaining := m.Keys;
    while remaining != {}
      invariant remaining <= m.Keys <= s.value.Keys
      invariant forall k :: k in remaining ==> k in m && m[k] == s.value[k]
      invariant forall k :: k in s.value && k !in remaining ==>
                  (k in m <==> start <= s.value[k].refreshedAt) && (k in m ==> m[k] == SeasonEvicted(s.value[k], start))
      decreases remaining
    {
      var k := Pick(remaining);
      if m[k].refreshedAt < start {
        m := map k' | k' in m && k' != k :: m[k'];
      } else {
        var eps := EvictEpisodes(m[k].episodes, start);
        m := m[k := m[k].(episodes := eps)];
      }
      remaining := remaining - {k};
    }
    var f := FreshSeasons(s, start).value;
    assert SeasonEntries(s) == s.value;
    assert forall k :: k in m <==> k in f;
    assert m.Keys == f.Keys;
    assert forall k :: k in m ==> m[k] == f[k];
    assert m == f;
    r := Some(m);
  }

  /** `cleanupStaleMovies`: an index loop that splices out each movie refreshed before `start`,
      stepping the index and the length back. */
  method CleanupStaleMovies(lib: Library, start: Time) returns (r: Library)
    ensures r == lib.(movies := FreshMovieList(lib.movies, start))
  {
    r := lib;
    if lib.movies.None? {
      return;
    }
    var src := lib.movies.value;
    var list := src;
    var moviesLength := |list|;
    var j := 0;
    ghost var c := 0;
    while j < moviesLength
      invariant 0 <= j <= moviesLength == |list| && 0 <= c <= |src|
      invariant moviesLength - j == |src| - c
      invariant list[..j] == FreshMovies(src[..c], start) && list[j..] == src[c..]
      decreases moviesLength - j
    {
      assert list[j] == src[c] by { assert list[j..][0] == src[c..][0]; }
      TakeSnoc(src, c);
      if list[j].refreshedAt < start {
        assert list[j + 1..] == src[c + 1..] by { assert list[j..][1..] == src[c..][1..]; }
        list := list[..j] + list[j + 1..];
        assert list[..j] == FreshMovies(src[..c + 1], start);
        assert list[j..] == src[c + 1..];
        j := j - 1;
        moviesLength := moviesLength - 1;
      } else {
        assert list[j + 1..] == src[c + 1..] by { assert list[j..][1..] == src[c..][1..]; }
        assert list[..j + 1] == list[..j] + [list[j]];
      }
      j := j + 1;
      c := c + 1;
    }
    assert list == list[..j];
    assert src[..c] == src;
    r := lib.(movies := Some(list));
  }

  /** `cleanupStaleShows`: the same splice loop over the shows; in each surviving show the stale
      seasons, and in each surviving season the stale episodes, are deleted. */
  method CleanupStaleShows(lib: Library, start: Time) returns (r: Library)
    ensures r == lib.(shows := FreshShowList(lib.shows, start))
  {
    r := lib;
    if lib.shows.None? {
      return;
    }
    var src := lib.shows.value;
    var list := src;
    var showsLength := |list|;
    var j := 0;
    ghost var c := 0;
    while j < showsLength
      invariant 0 <= j <= showsLength == |list| && 0 <= c <= |src|
      invariant showsLength - j == |src| - c
      invariant list[..j] == FreshShows(src[..c], start) && list[j..] == src[c..]
      decreases showsLength - j
    {
      assert list[j] == src[c] by { assert list[j..][0] == src[c..][0]; }
      assert list[j + 1..] == src[c + 1..] by { assert list[j..][1..] == src[c..][1..]; }
      TakeSnoc(src, c);
      if list[j].refreshedAt < start {
        list := list[..j] + list[j + 1..];
        assert list[..j] == FreshShows(src[..c + 1], start);
        assert list[j..] == src[c + 1..];
        j := j - 1;
        showsLength := showsLength - 1;
      } else {
        var seasons := EvictSeasons(list[j].seasons, start);
        var prefix := list[..j];
        var rest := list[j + 1..];
        list := list[j := list[j].(seasons := seasons)];
        assert list[..j + 1] == prefix + [ShowEvicted(src[c], start)];
        assert list[j + 1..] == rest;
      }
      j := j + 1;
      c := c + 1;
    }
    assert list == list[..j];
    assert src[..c] == src;
    r := lib.(shows := Some(list));
  }

  /** What surviving one library's cleanup means: movies, then shows. */
  method CleanupLibrary(lib: Library, start: Time) returns (r: Library)
    ensures r == LibraryEvicted(lib, start)
  {
    r := CleanupStaleMovies(lib, start);
    r := CleanupStaleShows(r, start);
  }

  // ---- What eviction promises ---------------------------------------------------------

  ghost predicate ShowFresh(show: Show, start: Time)
  {
    && start <= show.refreshedAt
    && forall k :: k in SeasonEntries(show.seasons) ==>
         && start <= SeasonEntries(show.seasons)[k].refreshedAt
         && forall n :: n in Entries(SeasonEntries(show.seasons)[k].episodes) ==>
              start <= Entries(SeasonEntries(show.seasons)[k].episodes)[n].refreshedAt
  }

  ghost predicate LibraryFresh(l: Library, start: Time)
  {
    && LibraryCutoff(start) <= l.refreshedAt
    && (forall i :: 0 <= i < |MovieElems(l.movies)| ==> start <= MovieElems(l.movies)[i].refreshedAt)
    && (forall i :: 0 <= i < |ShowElems(l.shows)| ==> ShowFresh(ShowElems(l.shows)[i], start))
  }

  /** Every library is recent enough, and every node reached through it was refreshed at or
      after `start`. */
  ghost predicate TreeFresh(libs: Libraries, start: Time)
  {
    forall i :: 0 <= i < |libs| ==> LibraryFresh(libs[i], start)
  }

  lemma {:induction false} FreshShowsAreFresh(s: seq<Show>, start: Time)
    ensures forall i :: 0 <= i < |FreshShows(s, start)| ==> ShowFresh(FreshShows(s, start)[i], start)
    decreases |s|
  {
    if s != [] {
      FreshShowsAreFresh(s[..|s| - 1], start);
    }
  }

  lemma {:induction false} FreshMoviesAreFresh(m: seq<Movie>, start: Time)
    ensures forall i :: 0 <= i < |FreshMovies(m, start)| ==> start <= FreshMovies(m, start)[i].refreshedAt
    decreases |m|
  {
    if m != [] {
      FreshMoviesAreFresh(m[..|m| - 1], start);
    }
  }

  /** After eviction every remaining library is within a minute of `start` and every movie,
      show, season and episode under it was refreshed at or after `start`. */
  lemma {:induction false} EvictedTreeIsFresh(libs: Libraries, start: Time)
    ensures TreeFresh(FreshLibraries(libs, start), start)
    decreases |libs|
  {
    if libs != [] {
      var last := libs[|libs| - 1];
      EvictedTreeIsFresh(libs[..|libs| - 1], start);
      FreshMoviesAreFresh(MovieElems(last.movies), start);
      FreshShowsAreFresh(ShowElems(last.shows), start);
      assert LibraryFresh(LibraryEvicted(last, start), start) ==> TreeFresh(FreshLibraries(libs, start), start);
    }
  }

  /** Eviction distributes over concatenation: whether a library survives depends on it alone,
      and survivors keep their relative order. */
  lemma {:induction false} FreshLibrariesAppend(a: Libraries, b: Libraries, start: Time)
    ensures FreshLibraries(a + b, start) == FreshLibraries(a, start) + FreshLibraries(b, start)
    decreases |b|
  {
    if b == [] {
      assert a + b == a;
    } else {
      assert (a + b)[..|a + b| - 1] == a + b[..|b| - 1];
      assert (a + b)[|a + b| - 1] == b[|b| - 1];
      FreshLibrariesAppend(a, b[..|b| - 1], start);
    }
  }

  /** A library survives exactly when it was refreshed at or after a minute before `start`. */
  lemma FreshLibrariesSingle(l: Library, start: Time)
    ensures FreshLibraries([l], start) == (if LibraryCutoff(start) <= l.refreshedAt then [LibraryEvicted(l, start)] else [])
  {
    assert [l][..0] == [];
  }

  /** The same for shows and movies within a library. */
  lemma {:induction false} FreshShowsAppend(a: seq<Show>, b: seq<Show>, start: Time)
    ensures FreshShows(a + b, start) == FreshShows(a, start) + FreshShows(b, start)
    decreases |b|
  {
    if b == [] {
      assert a + b == a;
    } else {
      assert (a + b)[..|a + b| - 1] == a + b[..|b| - 1];
      assert (a + b)[|a + b| - 1] == b[|b| - 1];
      FreshShowsAppend(a, b[..|b| - 1], start);
    }
  }

  lemma {:induction false} FreshMoviesAppend(a: seq<Movie>, b: seq<Movie>, start: Time)
    ensures FreshMovies(a + b, start) == FreshMovies(a, start) + FreshMovies(b, start)
    decreases |b|
  {
    if b == [] {
      assert a + b == a;
    } else {
      assert (a + b)[..|a + b| - 1] == a + b[..|b| - 1];
      assert (a + b)[|a + b| - 1] == b[|b| - 1];
      FreshMoviesAppend(a, b[..|b| - 1], start);
    }
  }

  /** A fresh tree is left exactly as it is. */
  lemma FreshEpisodesFixpoint(e: EpisodeMap, start: Time)
    requires forall n :: n in Entries(e) ==> start <= Entries(e)[n].refreshedAt
    ensures FreshEpisodes(e, start) == e
  {
    if e.Some? {
      var f := FreshEpisodes(e, start).value;
      assert Entries(e) == e.value;
      assert forall k :: k in f <==> k in e.value;
      assert f.Keys == e.value.Keys;
      assert f == e.value;
    }
  }

  lemma ShowEvictedFixpoint(show: Show, start: Time)
    requires ShowFresh(show, start)
    ensures ShowEvicted(show, start) == show
  {
    if show.seasons.Some? {
      var m := show.seasons.value;
      var m' := FreshSeasons(show.seasons, start).value;
      assert SeasonEntries(show.seasons) == m;
      forall k | k in m
        ensures k in m' && m'[k] == m[k]
      {
        FreshEpisodesFixpoint(m[k].episodes, start);
      }
      assert m'.Keys == m.Keys;
      assert m' == m;
    }
  }

  lemma {:induction false} FreshShowsFixpoint(s: seq<Show>, start: Time)
    requires forall i :: 0 <= i < |s| ==> ShowFresh(s[i], start)
    ensures FreshShows(s, start) == s
    decreases |s|
  {
    if s != [] {
      FreshShowsFixpoint(s[..|s| - 1], start);
      ShowEvictedFixpoint(s[|s| - 1], start);
    }
  }

  lemma {:induction false} FreshMoviesFixpoint(m: seq<Movie>, start: Time)
    requires forall i :: 0 <= i < |m| ==> start <= m[i].refreshedAt
    ensures FreshMovies(m, start) == m
    decreases |m|
  {
    if m != [] {
      FreshMoviesFixpoint(m[..|m| - 1], start);
    }
  }

  lemma LibraryEvictedFixpoint(l: Library, start: Time)
    requires LibraryFresh(l, start)
    ensures LibraryEvicted(l, start) == l
  {
    FreshMoviesFixpoint(MovieElems(l.movies), start);
    FreshShowsFixpoint(ShowElems(l.shows), start);
  }

  lemma {:induction false} EvictFixpoint(libs: Libraries, start: Time)
    requires TreeFresh(libs, start)
    ensures FreshLibraries(libs, start) == libs
    decreases |libs|
  {
    if libs != [] {
      var init := libs[..|libs| - 1];
      assert TreeFresh(init, start) by {
        forall i | 0 <= i < |init| ensures LibraryFresh(init[i], start) {
          assert init[i] == libs[i];
        }
      }
      EvictFixpoint(init, start);
      LibraryEvictedFixpoint(libs[|libs| - 1], start);
      assert libs == init + [libs[|libs| - 1]];
    }
  }

  /** A second eviction with the same `start` removes nothing more. */
  lemma EvictIdempotent(libs: Libraries, start: Time)
    ensures FreshLibraries(FreshLibraries(libs, start), start) == FreshLibraries(libs, start)
  {
    EvictedTreeIsFresh(libs, start);
    EvictFixpoint(FreshLibraries(libs, start), start);
  }

  /** A library stamped by `SetRefreshedAt` at or after `start` survives eviction untouched. */
  lemma StampedSurvives(libs: Libraries, now: Time, start: Time)
    requires start <= now
    ensures FreshLibraries(LibrariesStamped(libs, now), start) == LibrariesStamped(libs, now)
  {
    var st := LibrariesStamped(libs, now);
    forall i | 0 <= i < |st|
      ensures LibraryFresh(st[i], start)
    {
      ShowsStampedFresh(libs[i].shows, now);
      forall j | 0 <= j < |ShowElems(st[i].shows)|
        ensures ShowFresh(ShowElems(st[i].shows)[j], start)
      {
        var show := ShowElems(st[i].shows)[j];
        assert show == ShowStamped(ShowElems(libs[i].shows)[j], now);
        SeasonsStampedFresh(ShowElems(libs[i].shows)[j].seasons, now);
      }
    }
    EvictFixpoint(st, start);
  }

  /** A library whose timestamp is older than a minute before `start` goes with its whole
      subtree, however fresh its children are; a recent enough one stays. */
  lemma {:induction false} LibrarySurvivesIff(libs: Libraries, start: Time, l: Library)
    ensures LibraryEvicted(l, start) in FreshLibraries(libs, start) ==>
              exists i :: 0 <= i < |libs| && LibraryCutoff(start) <= libs[i].refreshedAt &&
                LibraryEvicted(libs[i], start) == LibraryEvicted(l, start)
    ensures l in libs && LibraryCutoff(start) <= l.refreshedAt ==> LibraryEvicted(l, start) in FreshLibraries(libs, start)
    decreases |libs|
  {
    if libs != [] {
      var init := libs[..|libs| - 1];
      LibrarySurvivesIff(init, start, l);
      if l in libs && l != libs[|libs| - 1] {
        var i :| 0 <= i < |libs| && libs[i] == l;
        assert init[i] == l;
      }
      if LibraryEvicted(l, start) in FreshLibraries(init, start) {
        var i :| 0 <= i < |init| && LibraryCutoff(start) <= init[i].refreshedAt &&
          LibraryEvicted(init[i], start) == LibraryEvicted(l, start);
        assert libs[i] == init[i];
      }
    }
  }

  /** Movies: exactly the movies stamped at or after `start` remain. */
  lemma {:induction false} FreshMoviesMembers(m: seq<Movie>, start: Time)
    ensures forall x :: x in FreshMovies(m, start) <==> x in m && start <= x.refreshedAt
    decreases |m|
  {
    if m != [] {
      var init := m[..|m| - 1];
      FreshMoviesMembers(init, start);
      assert m == init + [m[|m| - 1]];
    }
  }

  /** Shows: every show stamped at or after `start` remains, with its stale seasons removed,
      and nothing else does. */
  lemma {:induction false} FreshShowsMembers(s: seq<Show>, start: Time)
    ensures forall i :: 0 <= i < |s| && start <= s[i].refreshedAt ==> ShowEvicted(s[i], start) in FreshShows(s, start)
    ensures forall x :: x in FreshShows(s, start) ==>
              exists i :: 0 <= i < |s| && start <= s[i].refreshedAt && x == ShowEvicted(s[i], start)
    decreases |s|
  {
    if s != [] {
      var init := s[..|s| - 1];
      FreshShowsMembers(init, start);
      forall i | 0 <= i < |s| && start <= s[i].refreshedAt
        ensures ShowEvicted(s[i], start) in FreshShows(s, start)
      {
        if i < |init| {
          assert s[i] == init[i];
        }
      }
      forall x | x in FreshShows(s, start)
        ensures exists i :: 0 <= i < |s| && start <= s[i].refreshedAt && x == ShowEvicted(s[i], start)
      {
        if x in FreshShows(init, start) {
          var i :| 0 <= i < |init| && start <= init[i].refreshedAt && x == ShowEvicted(init[i], start);
          assert s[i] == init[i];
        } else {
          assert x == ShowEvicted(s[|s| - 1], start);
        }
      }
    }
  }
}
