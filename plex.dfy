/** The client's catalog state (pkg/plex/cache.go, pkg/plex/populate.go, plex/populate.go):
    merging the on-disk cache into the live libraries by title, and the refresh pass that
    ends by evicting whatever it did not refresh. */
module Plex {
  import opened Wrappers
  import opened Times
  import opened Lists
  import opened Shows
  import opened Movies
  import opened Library
  import opened Libraries
  import opened Eviction

  function LibTitles(libs: Libraries): (r: seq<string>)
    ensures |r| == |libs| && forall i :: 0 <= i < |libs| ==> r[i] == libs[i].title
  {
    seq(|libs|, i requires 0 <= i < |libs| => libs[i].title)
  }

  /** The index of the first library with that title, if any. */
  function IndexOfLibTitle(libs: Libraries, t: string): (r: Option<nat>)
    ensures r.Some? ==> r.value < |libs| && libs[r.value].title == t
    ensures r.Some? ==> forall k :: 0 <= k < r.value ==> libs[k].title != t
    ensures r.None? <==> forall k :: 0 <= k < |libs| ==> libs[k].title != t
    decreases |libs|
  {
    if libs == [] then None
    else if libs[0].title == t then Some(0)
    else match IndexOfLibTitle(libs[1..], t)
      case None => None
      case Some(i) => Some(i + 1)
  }

  /** The inner loop of the `mergeCache` merge: the first live library with that title. */
  method FindLibTitle(libs: Libraries, t: string) returns (r: Option<nat>)
    ensures r == IndexOfLibTitle(libs, t)
  {
    var i := 0;
    while i < |libs|
      invariant 0 <= i <= |libs|
      invariant forall k :: 0 <= k < i ==> libs[k].title != t
    {
      if libs[i].title == t {
        return Some(i);
      }
      i := i + 1;
    }
    return None;
  }

  /** Some earlier library has the same title: the title search never reaches library `i`. */
  ghost predicate LibShadowed(libs: Libraries, i: int)
    requires 0 <= i < |libs|
  {
    exists k :: 0 <= k < i && libs[k].title == libs[i].title
  }

  ghost predicate UniqueLibTitles(libs: Libraries)
  {
    forall i, j :: 0 <= i < j < |libs| ==> libs[i].title != libs[j].title
  }

  /** The libraries of `s` titled `t`, in order. */
  function TitledAs(s: Libraries, t: string): (r: Libraries)
    ensures |r| <= |s|
    ensures forall k :: 0 <= k < |r| ==> r[k].title == t
    ensures (forall j :: 0 <= j < |s| ==> s[j].title != t) ==> r == []
    decreases |s|
  {
    if s == [] then []
    else TitledAs(s[..|s| - 1], t) + (if s[|s| - 1].title == t then [s[|s| - 1]] else [])
  }

  lemma TitledAsSnoc(s: Libraries, x: Library, t: string)
    ensures TitledAs(s + [x], t) == TitledAs(s, t) + (if x.title == t then [x] else [])
  {
    assert (s + [x])[..|s|] == s;
  }

  /** With distinct titles, the libraries titled like `s[j]` are `s[j]` alone. */
  lemma {:induction false} TitledAsDistinct(s: Libraries, j: nat)
    requires UniqueLibTitles(s) && j < |s|
    ensures TitledAs(s, s[j].title) == [s[j]]
    decreases |s|
  {
    var n := |s| - 1;
    var init := s[..n];
    assert s == init + [s[n]];
    TitledAsSnoc(init, s[n], s[j].title);
    if j == n {
      assert forall k :: 0 <= k < |init| ==> init[k].title != s[j].title;
    } else {
      assert UniqueLibTitles(init);
      TitledAsDistinct(init, j);
    }
  }

  /** `y` is `x` after `Library.Merge` with each library of `cls` in turn. */
  ghost predicate MergedInTurn(x: Library, cls: Libraries, y: Library)
    decreases |cls|
  {
    if cls == [] then y == x
    else exists z {:trigger MergedInTurn(x, cls[..|cls| - 1], z)} ::
      MergedInTurn(x, cls[..|cls| - 1], z) && IsLibraryMerge(z, cls[|cls| - 1], y)
  }

  lemma TailSnoc(s: Libraries, x: Library)
    requires |s| > 0
    ensures (s + [x])[0] == s[0] && (s + [x])[1..] == s[1..] + [x]
  {
  }

  lemma MergedInTurnSnoc(x: Library, cls: Libraries, z: Library, c: Library, y: Library)
    requires MergedInTurn(x, cls, z) && IsLibraryMerge(z, c, y)
    ensures MergedInTurn(x, cls + [c], y)
  {
    assert (cls + [c])[..|cls|] == cls;
  }

  /** Where the cached libraries `cs` went: the first live library of each title is `Merge`d
      with every cached library of that title, in cache order; an appended library is the
      first cached library of its title, `Merge`d with the later ones. */
  ghost predicate MergedByTitle(live: Libraries, cs: Libraries, r: Libraries)
    requires |live| <= |r|
  {
    && (forall i :: 0 <= i < |live| && !LibShadowed(live, i) ==>
          MergedInTurn(live[i], TitledAs(cs, live[i].title), r[i]))
    && (forall p :: |live| <= p < |r| ==>
          |TitledAs(cs, r[p].title)| > 0 &&
          MergedInTurn(TitledAs(cs, r[p].title)[0], TitledAs(cs, r[p].title)[1..], r[p]))
  }

  /** What the merge loop of `mergeCache` promises about the live list `live`, the decoded
      cache `cached` and the resulting list `r`. */
  ghost predicate CacheMerged(live: Libraries, cached: Libraries, r: Libraries)
  {
    // A matched cached library adds no entry; unmatched titles are appended, once each, in order.
    && LibTitles(r) == LibTitles(live) + Unseen(LibTitles(live), LibTitles(cached))
    // Live libraries keep their positions and all their own fields; only children change.
    && |live| <= |r|
    && (forall i :: 0 <= i < |live| ==> r[i] == live[i].(movies := r[i].movies, shows := r[i].shows))
    // A live library that no cached title reaches is untouched.
    && (forall i :: 0 <= i < |live| && (live[i].title !in LibTitles(cached) || LibShadowed(live, i)) ==> r[i] == live[i])
    // Every cached library is merged, in order, into the library that holds its title.
    && MergedByTitle(live, cached, r)
  }

  /** The merge loop of `mergeCache`: each cached library is merged into the first live
      library with its title (ending the inner search), or appended when there is none. */
  method MergeCachedLibraries(live: Libraries, cached: Libraries) returns (r: Libraries)
    ensures CacheMerged(live, cached, r)
  {
    var list := live;
    var n := 0;
    while n < |cached|
      invariant 0 <= n <= |cached|
      invariant CacheSoFar(live, cached, n, list)
    {
      ghost var list0 := list;
      var ss;
      list, ss := MergeCachedLibrary(list, cached[n]);
      CacheSoFarStep(live, cached, n, list0, ss, list);
      n := n + 1;
    }
    assert cached[..|cached|] == cached;
    r := list;
  }

  /** One iteration of the merge loop: `cl` is merged into the first library with its title,
      or appended when there is none; `ss` is where the title was found. */
  method MergeCachedLibrary(list: Libraries, cl: Library) returns (list': Libraries, ss: Option<nat>)
    ensures CacheStep(list, cl, ss, list')
  {
    ss := FindLibTitle(list, cl.title);
    if ss.Some? {
      var merged := LibraryMerge(list[ss.value], cl);
      list' := list[ss.value := merged];
    } else {
      list' := list + [cl];
    }
  }

  /** The loop state after the first `n` cached libraries. */
  ghost predicate CacheSoFar(live: Libraries, cached: Libraries, n: nat, list: Libraries)
  {
    && n <= |cached|
    && CacheMerged(live, cached[..n], list)
  }

  /** One iteration of the merge loop for cached library `cl`. */
  ghost predicate CacheStep(list: Libraries, cl: Library, ss: Option<nat>, list': Libraries)
  {
    && ss == IndexOfLibTitle(list, cl.title)
    && (ss.Some? ==>
          && |list'| == |list|
          && IsLibraryMerge(list[ss.value], cl, list'[ss.value])
          && forall k :: 0 <= k < |list| && k != ss.value ==> list'[k] == list[k])
    && (ss.None? ==> list' == list + [cl])
  }

  lemma CacheSoFarStep(live: Libraries, cached: Libraries, n: nat, list: Libraries, ss: Option<nat>,
                       list': Libraries)
    requires n < |cached|
    requires CacheSoFar(live, cached, n, list)
    requires CacheStep(list, cached[n], ss, list')
    ensures CacheSoFar(live, cached, n + 1, list')
  {
    TakeSnoc(cached, n);
    LibTitlesSnoc(cached[..n], cached[n]);
    CacheTitlesStep(LibTitles(live), LibTitles(cached[..n]), list, cached[n], ss, list');
    CacheUntouchedStep(live, cached, n, list, ss, list');
    MergedByTitleStep(live, cached[..n], cached[n], list, ss, list');
  }

  lemma CacheTitlesStep(known: seq<string>, seen: seq<string>, list: Libraries, cl: Library, ss: Option<nat>,
                        list': Libraries)
    requires LibTitles(list) == known + Unseen(known, seen)
    requires CacheStep(list, cl, ss, list')
    ensures LibTitles(list') == known + Unseen(known, seen + [cl.title])
  {
    var t := cl.title;
    UnseenSnoc(known, seen, t);
    if ss.Some? {
      assert LibTitles(list)[ss.value] == t;
      assert LibTitles(list') == LibTitles(list);
    } else {
      assert t !in LibTitles(list);
      LibTitlesSnoc(list, cl);
    }
  }

  lemma LibTitlesSnoc(s: Libraries, x: Library)
    ensures LibTitles(s + [x]) == LibTitles(s) + [x.title]
  {
    assert |LibTitles(s + [x])| == |LibTitles(s) + [x.title]|;
    forall i | 0 <= i < |s| + 1
      ensures LibTitles(s + [x])[i] == (LibTitles(s) + [x.title])[i]
    {
    }
  }

  lemma CacheUntouchedStep(live: Libraries, cached: Libraries, n: nat, list: Libraries, ss: Option<nat>,
                           list': Libraries)
    requires n < |cached| && |live| <= |list|
    requires forall i :: 0 <= i < |live| ==> list[i].title == live[i].title
    requires forall i :: 0 <= i < |live| && (live[i].title !in LibTitles(cached[..n]) || LibShadowed(live, i)) ==> list[i] == live[i]
    requires CacheStep(list, cached[n], ss, list')
    requires LibTitles(cached[..n + 1]) == LibTitles(cached[..n]) + [cached[n].title]
    ensures forall i :: 0 <= i < |live| && (live[i].title !in LibTitles(cached[..n + 1]) || LibShadowed(live, i)) ==> list'[i] == live[i]
  {
    forall i | 0 <= i < |live| && (live[i].title !in LibTitles(cached[..n + 1]) || LibShadowed(live, i))
      ensures list'[i] == live[i]
    {
    }
  }

  /** An appended title occurs nowhere else in the list. */
  lemma AppendedTitlesUnique(live: Libraries, cs: Libraries, list: Libraries)
    requires |live| <= |list| && LibTitles(list) == LibTitles(live) + Unseen(LibTitles(live), LibTitles(cs))
    ensures forall p, k :: |live| <= p < |list| && 0 <= k < |list| && k != p ==> list[k].title != list[p].title
  {
    var u := Unseen(LibTitles(live), LibTitles(cs));
    UnseenProperties(LibTitles(live), LibTitles(cs));
    forall p, k | |live| <= p < |list| && 0 <= k < |list| && k != p
      ensures list[k].title != list[p].title
    {
      assert LibTitles(list)[p] == u[p - |live|];
      assert u[p - |live|] in u;
      if k < |live| {
        assert LibTitles(list)[k] == LibTitles(live)[k];
        assert LibTitles(live)[k] in LibTitles(live);
      } else {
        assert LibTitles(list)[k] == u[k - |live|];
      }
    }
  }

  /** The title search lands on position q: the only library of its title that is either an
      unshadowed live one or an appended one. */
  lemma FoundAt(live: Libraries, cs: Libraries, list: Libraries, t: string, ss: Option<nat>, q: nat)
    requires |live| <= |list| && LibTitles(list) == LibTitles(live) + Unseen(LibTitles(live), LibTitles(cs))
    requires forall i :: 0 <= i < |live| ==> list[i].title == live[i].title
    requires ss == IndexOfLibTitle(list, t) && q < |list| && list[q].title == t
    requires q < |live| ==> !LibShadowed(live, q)
    ensures ss == Some(q)
  {
    AppendedTitlesUnique(live, cs, list);
    var f := ss.value;
    if f < q {
      assert false;
    }
  }

  lemma MergedByTitleStep(live: Libraries, cs: Libraries, cl: Library, list: Libraries, ss: Option<nat>,
                          list': Libraries)
    requires |live| <= |list| && LibTitles(list) == LibTitles(live) + Unseen(LibTitles(live), LibTitles(cs))
    requires forall i :: 0 <= i < |live| ==> list[i].title == live[i].title
    requires MergedByTitle(live, cs, list)
    requires CacheStep(list, cl, ss, list')
    ensures |live| <= |list'|
    ensures MergedByTitle(live, cs + [cl], list')
  {
    forall i | 0 <= i < |live| && !LibShadowed(live, i)
      ensures MergedInTurn(live[i], TitledAs(cs + [cl], live[i].title), list'[i])
    {
      LiveMergedStep(live, cs, cl, list, ss, list', i);
    }
    forall p | |live| <= p < |list'|
      ensures |TitledAs(cs + [cl], list'[p].title)| > 0
      ensures MergedInTurn(TitledAs(cs + [cl], list'[p].title)[0], TitledAs(cs + [cl], list'[p].title)[1..], list'[p])
    {
      AppendedMergedStep(live, cs, cl, list, ss, list', p);
    }
  }

  lemma LiveMergedStep(live: Libraries, cs: Libraries, cl: Library, list: Libraries, ss: Option<nat>,
                       list': Libraries, i: nat)
    requires |live| <= |list| && LibTitles(list) == LibTitles(live) + Unseen(LibTitles(live), LibTitles(cs))
    requires forall i :: 0 <= i < |live| ==> list[i].title == live[i].title
    requires MergedByTitle(live, cs, list)
    requires CacheStep(list, cl, ss, list')
    requires i < |live| && !LibShadowed(live, i)
    ensures MergedInTurn(live[i], TitledAs(cs + [cl], live[i].title), list'[i])
  {
    var t := cl.title;
    if live[i].title == t {
      var cls := TitledAs(cs, t);
      TitledAsSnoc(cs, cl, t);
      assert LibTitles(list)[i] == t;
      FoundAt(live, cs, list, t, ss, i);
      assert MergedInTurn(live[i], cls, list[i]);
      MergedInTurnSnoc(live[i], cls, list[i], cl, list'[i]);
    } else {
      TitledAsSnoc(cs, cl, live[i].title);
      assert TitledAs(cs + [cl], live[i].title) == TitledAs(cs, live[i].title);
      assert list'[i] == list[i];
      assert MergedInTurn(live[i], TitledAs(cs, live[i].title), list[i]);
    }
  }

  lemma AppendedMergedStep(live: Libraries, cs: Libraries, cl: Library, list: Libraries, ss: Option<nat>,
                           list': Libraries, p: nat)
    requires |live| <= |list| && LibTitles(list) == LibTitles(live) + Unseen(LibTitles(live), LibTitles(cs))
    requires forall i :: 0 <= i < |live| ==> list[i].title == live[i].title
    requires MergedByTitle(live, cs, list)
    requires CacheStep(list, cl, ss, list')
    requires |live| <= p < |list'|
    ensures |TitledAs(cs + [cl], list'[p].title)| > 0
    ensures MergedInTurn(TitledAs(cs + [cl], list'[p].title)[0], TitledAs(cs + [cl], list'[p].title)[1..], list'[p])
  {
    var t := cl.title;
    if p < |list| {
      var u := list[p].title;
      var cls := TitledAs(cs, u);
      TitledAsSnoc(cs, cl, u);
      assert MergedInTurn(cls[0], cls[1..], list[p]);
      if u == t {
        FoundAt(live, cs, list, t, ss, p);
        assert TitledAs(cs + [cl], u) == cls + [cl];
        TailSnoc(cls, cl);
        MergedInTurnSnoc(cls[0], cls[1..], list[p], cl, list'[p]);
      } else {
        assert list'[p] == list[p];
        assert TitledAs(cs + [cl], u) == cls;
      }
    } else {
      assert ss.None? && list'[p] == cl;
      UnseenProperties(LibTitles(live), LibTitles(cs));
      assert t !in LibTitles(list);
      forall j | 0 <= j < |cs|
        ensures cs[j].title != t
      {
        assert LibTitles(cs)[j] == cs[j].title;
      }
      TitledAsSnoc(cs, cl, t);
      assert TitledAs(cs + [cl], t) == [cl];
      assert [cl][1..] == [];
      assert MergedInTurn(cl, [], cl);
    }
  }

  /** With distinct cached titles, the first live library of a title is `Merge`d with its
      cached library, and a cached library with a title no live one has is appended unchanged. */
  lemma CacheMergedDistinct(live: Libraries, cached: Libraries, r: Libraries)
    requires CacheMerged(live, cached, r) && UniqueLibTitles(cached)
    ensures forall i, j :: 0 <= i < |live| && 0 <= j < |cached| && !LibShadowed(live, i) && live[i].title == cached[j].title ==>
              IsLibraryMerge(live[i], cached[j], r[i])
    ensures forall j :: 0 <= j < |cached| && cached[j].title !in LibTitles(live) ==> cached[j] in r[|live|..]
  {
    forall i, j | 0 <= i < |live| && 0 <= j < |cached| && !LibShadowed(live, i) && live[i].title == cached[j].title
      ensures IsLibraryMerge(live[i], cached[j], r[i])
    {
      DistinctMatched(live, cached, r, i, j);
    }
    forall j | 0 <= j < |cached| && cached[j].title !in LibTitles(live)
      ensures cached[j] in r[|live|..]
    {
      DistinctAppended(live, cached, r, j);
    }
  }

  lemma DistinctMatched(live: Libraries, cached: Libraries, r: Libraries, i: nat, j: nat)
    requires CacheMerged(live, cached, r) && UniqueLibTitles(cached)
    requires i < |live| && j < |cached| && !LibShadowed(live, i) && live[i].title == cached[j].title
    ensures IsLibraryMerge(live[i], cached[j], r[i])
  {
    TitledAsDistinct(cached, j);
    assert MergedInTurn(live[i], [cached[j]], r[i]);
    assert [cached[j]][..0] == [];
    var z :| MergedInTurn(live[i], [], z) && IsLibraryMerge(z, cached[j], r[i]);
  }

  lemma DistinctAppended(live: Libraries, cached: Libraries, r: Libraries, j: nat)
    requires CacheMerged(live, cached, r) && UniqueLibTitles(cached)
    requires j < |cached| && cached[j].title !in LibTitles(live)
    ensures cached[j] in r[|live|..]
  {
    var t := cached[j].title;
    var u := Unseen(LibTitles(live), LibTitles(cached));
    assert LibTitles(cached)[j] == t;
    UnseenProperties(LibTitles(live), LibTitles(cached));
    assert t in LibTitles(cached);
    assert t in u;
    var q :| 0 <= q < |u| && u[q] == t;
    var p := |live| + q;
    assert LibTitles(r)[p] == t;
    TitledAsDistinct(cached, j);
    assert [cached[j]][1..] == [];
    assert MergedInTurn(cached[j], [], r[p]);
    assert r[|live|..][q] == cached[j];
  }

  /** The titles after the cache merge are exactly the live titles and the cached ones. */
  lemma CacheMergedTitles(live: Libraries, cached: Libraries, r: Libraries)
    requires CacheMerged(live, cached, r)
    ensures forall t :: t in LibTitles(r) <==> t in LibTitles(live) || t in LibTitles(cached)
    ensures |live| <= |r| <= |live| + |cached|
  {
    UnseenProperties(LibTitles(live), LibTitles(cached));
    UnseenLength(LibTitles(live), LibTitles(cached));
  }

  lemma {:induction false} UnseenLength(known: seq<string>, incoming: seq<string>)
    ensures |Unseen(known, incoming)| <= |incoming|
    decreases |incoming|
  {
    if incoming != [] {
      UnseenLength(known, incoming[1..]);
      UnseenLength(known + [incoming[0]], incoming[1..]);
    }
  }

  /** Merging a cache whose titles are all live appends nothing. */
  lemma CacheOfKnownTitles(live: Libraries, cached: Libraries, r: Libraries)
    requires CacheMerged(live, cached, r)
    requires forall j :: 0 <= j < |cached| ==> cached[j].title in LibTitles(live)
    ensures |r| == |live| && LibTitles(r) == LibTitles(live)
  {
    UnseenOfKnown(LibTitles(live), LibTitles(cached));
  }

  /** What `mergeCache` reads: the decoded file, or why there is none. */
  datatype CacheFile = ReadFailed | DecodeFailed | Decoded(libs: Libraries)

  // ---- Shows and movies fetched in a refresh pass survive it ----------------------------

  /** A show list merged with shows fetched at or after `start` keeps every fetched title
      through eviction. */
  lemma FetchedShowsSurvive(s: seq<Show>, fetched: seq<Show>, r: seq<Show>, start: Time)
    requires ShowsMerged(s, fetched, r)
    requires forall j :: 0 <= j < |fetched| ==> start <= fetched[j].refreshedAt
    ensures forall j :: 0 <= j < |fetched| ==> fetched[j].title in Titles(FreshShows(r, start))
  {
    FreshShowsMembers(r, start);
    forall j | 0 <= j < |fetched|
      ensures fetched[j].title in Titles(FreshShows(r, start))
    {
      assert Absorbs(r, fetched[j]);
      var i :| AbsorbsAt(r, i, fetched[j]);
      var x := ShowEvicted(r[i], start);
      assert x in FreshShows(r, start);
      var k :| 0 <= k < |FreshShows(r, start)| && FreshShows(r, start)[k] == x;
      assert Titles(FreshShows(r, start))[k] == fetched[j].title;
    }
  }

  /** A movie list merged with movies fetched at or after `start` keeps every fetched rating
      key through eviction. */
  lemma FetchedMoviesSurvive(m: seq<Movie>, fetched: seq<Movie>, start: Time)
    requires forall j :: 0 <= j < |fetched| ==> start <= fetched[j].refreshedAt
    ensures forall j :: 0 <= j < |fetched| ==> fetched[j].ratingKey in RatingKeys(FreshMovies(MergeAll(m, fetched), start))
  {
    var r := MergeAll(m, fetched);
    FreshMoviesMembers(r, start);
    forall j | 0 <= j < |fetched|
      ensures fetched[j].ratingKey in RatingKeys(FreshMovies(r, start))
    {
      MergeAllAbsorbs(m, fetched, j);
      var i :| 0 <= i < |r| && r[i].ratingKey == fetched[j].ratingKey && fetched[j].refreshedAt <= r[i].refreshedAt;
      assert r[i] in FreshMovies(r, start);
      var k :| 0 <= k < |FreshMovies(r, start)| && FreshMovies(r, start)[k] == r[i];
      assert RatingKeys(FreshMovies(r, start))[k] == fetched[j].ratingKey;
    }
  }

  // ---- The client ---------------------------------------------------------------------

  /** The client's catalog: the live libraries and the cache file path ("" for none). */
  class Plex {
    var libraries: Libraries
    var cacheLibrary: string

    constructor (cacheLibrary: string)
      ensures this.libraries == [] && this.cacheLibrary == cacheLibrary
    {
      libraries := [];
      this.cacheLibrary := cacheLibrary;
    }

    /** `mergeCache`: with a cache path set and the file read and decoded, the cached
        libraries are merged in by title; otherwise nothing changes. */
    method MergeCache(cache: CacheFile)
      modifies this
      ensures cacheLibrary == old(cacheLibrary)
      ensures (cacheLibrary == "" || !cache.Decoded?) ==> libraries == old(libraries)
      ensures (cacheLibrary != "" && cache.Decoded?) ==> CacheMerged(old(libraries), cache.libs, libraries)
    {
      if cacheLibrary != "" {
        if cache.Decoded? {
          libraries := MergeCachedLibraries(libraries, cache.libs);
        }
      }
    }

    /** `InitLibraries`: the fetched library sections (stamped by `GetLibraries` at `now`)
        replace the list, then the cache is merged in. A failed fetch leaves the list nil and
        returns the error. */
    method InitLibraries(fetched: Result<Libraries>, now: Time, cache: CacheFile) returns (err: Option<string>)
      modifies this
      ensures cacheLibrary == old(cacheLibrary)
      ensures fetched.Err? ==> err == Some(fetched.message) && libraries == []
      ensures fetched.Ok? && (cacheLibrary == "" || !cache.Decoded?) ==>
                err.None? && libraries == LibrariesStamped(fetched.value, now)
      ensures fetched.Ok? && cacheLibrary != "" && cache.Decoded? ==>
                err.None? && CacheMerged(LibrariesStamped(fetched.value, now), cache.libs, libraries)
    {
      if fetched.Err? {
        libraries := [];
        return Some(fetched.message);
      }
      libraries := LibrariesSetRefreshedAt(fetched.value, now);
      MergeCache(cache);
      return None;
    }

    /** `cleanupStaleLibraries` (and the inline block of the older copy): an index loop that
        splices out each library refreshed before a minute ahead of `start`, stepping the index
        and the length back, and cleans the movies and shows of every other one. */
    method CleanupStaleLibraries(start: Time)
      modifies this
      ensures libraries == FreshLibraries(old(libraries), start)
      ensures cacheLibrary == old(cacheLibrary)
    {
      var src := libraries;
      var libLength := |libraries|;
      var i := 0;
      ghost var c := 0;
      while i < libLength
        invariant 0 <= i <= libLength == |libraries| && 0 <= c <= |src|
        invariant libLength - i == |src| - c
        invariant libraries[..i] == FreshLibraries(src[..c], start) && libraries[i..] == src[c..]
        invariant cacheLibrary == old(cacheLibrary)
        decreases libLength - i
      {
        assert libraries[i] == src[c] by { assert libraries[i..][0] == src[c..][0]; }
        assert libraries[i + 1..] == src[c + 1..] by { assert libraries[i..][1..] == src[c..][1..]; }
        TakeSnoc(src, c);
        if libraries[i].refreshedAt < LibraryCutoff(start) {
          libraries := libraries[..i] + libraries[i + 1..];
          assert libraries[..i] == FreshLibraries(src[..c + 1], start);
          assert libraries[i..] == src[c + 1..];
          i := i - 1;
          libLength := libLength - 1;
        } else {
          var lib := CleanupLibrary(libraries[i], start);
          ghost var prefix, rest := libraries[..i], libraries[i + 1..];
          libraries := libraries[i := lib];
          assert libraries[..i + 1] == prefix + [LibraryEvicted(src[c], start)];
          assert libraries[i + 1..] == rest;
        }
        i := i + 1;
        c := c + 1;
      }
      assert libraries == libraries[..i];
      assert src[..c] == src;
    }

    /** `PopulateLibraries`, with its fan-out made sequential: `start` is taken first, the
        fetch pass (given as `fetch`, the catalog it leaves once every fetch has been waited
        for) runs, and only then are the nodes it did not refresh evicted. */
    method PopulateLibraries(start: Time, fetch: Libraries -> Libraries)
      modifies this
      ensures libraries == FreshLibraries(fetch(old(libraries)), start)
      ensures cacheLibrary == old(cacheLibrary)
    {
      libraries := fetch(libraries);
      CleanupStaleLibraries(start);
    }
  }
}
