/** Movies (library/movie.go): a list of movies matched by rating key. */
module Movies {
  import opened Wrappers
  import opened Times
  import opened Lists

  datatype Movie = Movie(
    title: string,
    summary: string,
    year: int,
    contentRating: string,
    guid: string,
    tmdb: int,
    key: string,
    ratingKey: string,
    userRating: real,
    audienceRating: real,
    watched: bool,
    lastViewedAt: Option<Time>,
    addedAt: Time,
    updatedAt: Time,
    refreshedAt: Time)

  /** Go's `Movies` slice; `None` is a nil slice. */
  type MovieList = Option<seq<Movie>>

  function MovieElems(m: MovieList): seq<Movie>
  {
    if m.None? then [] else m.value
  }

  function RatingKeys(m: seq<Movie>): (r: seq<string>)
    ensures |r| == |m| && forall i :: 0 <= i < |m| ==> r[i] == m[i].ratingKey
  {
    if m == [] then [] else [m[0].ratingKey] + RatingKeys(m[1..])
  }

  /** `Movie.Merge`: the receiver becomes the incoming movie wholesale iff it is strictly older. */
  function MovieMerge(m: Movie, mm: Movie): (r: Movie)
    ensures m.refreshedAt < mm.refreshedAt ==> r == mm
    ensures mm.refreshedAt <= m.refreshedAt ==> r == m
    ensures r.refreshedAt == Max(m.refreshedAt, mm.refreshedAt)
  {
    if m.refreshedAt < mm.refreshedAt then mm else m
  }

  /** The index of the first movie with that rating key, if any. */
  function IndexOfRatingKey(m: seq<Movie>, ratingKey: string): (r: Option<nat>)
    ensures r.Some? ==> r.value < |m| && m[r.value].ratingKey == ratingKey &&
                        forall i :: 0 <= i < r.value ==> m[i].ratingKey != ratingKey
    ensures r.None? <==> forall i :: 0 <= i < |m| ==> m[i].ratingKey != ratingKey
  {
    if m == [] then None
    else if m[0].ratingKey == ratingKey then Some(0)
    else match IndexOfRatingKey(m[1..], ratingKey)
      case None => None
      case Some(i) => Some(i + 1)
  }

  /** The index of the first movie with that TMDB id, if any. */
  function IndexOfTmdb(m: seq<Movie>, id: int): (r: Option<nat>)
    ensures r.Some? ==> r.value < |m| && m[r.value].tmdb == id && forall i :: 0 <= i < r.value ==> m[i].tmdb != id
    ensures r.None? <==> forall i :: 0 <= i < |m| ==> m[i].tmdb != id
  {
    if m == [] then None
    else if m[0].tmdb == id then Some(0)
    else match IndexOfTmdb(m[1..], id)
      case None => None
      case Some(i) => Some(i + 1)
  }

  /** `Movies.FindRatingKey`: the first movie with that rating key. */
  method FindRatingKey(m: MovieList, ratingKey: string) returns (r: Option<nat>)
    ensures r == IndexOfRatingKey(MovieElems(m), ratingKey)
  {
    var movies := MovieElems(m);
    var i := 0;
    while i < |movies|
      invariant 0 <= i <= |movies|
      invariant forall j :: 0 <= j < i ==> movies[j].ratingKey != ratingKey
    {
      if movies[i].ratingKey == ratingKey {
        return Some(i);
      }
      i := i + 1;
    }
    return None;
  }

  /** `Movies.FindTMDB`: the first movie with that TMDB id. */
  method FindTmdb(m: MovieList, id: int) returns (r: Option<nat>)
    ensures r == IndexOfTmdb(MovieElems(m), id)
  {
    var movies := MovieElems(m);
    var i := 0;
    while i < |movies|
      invariant 0 <= i <= |movies|
      invariant forall j :: 0 <= j < i ==> movies[j].tmdb != id
    {
      if movies[i].tmdb == id {
        return Some(i);
      }
      i := i + 1;
    }
    return None;
  }

  /** One iteration of `Movies.Merge`: merge into the first movie with the incoming rating key,
      or append. */
  function MergeOne(list: seq<Movie>, movie: Movie): seq<Movie>
  {
    match IndexOfRatingKey(list, movie.ratingKey)
    case Some(i) => list[i := MovieMerge(list[i], movie)]
    case None => list + [movie]
  }

  /** The list `Movies.Merge` produces on a non-nil receiver: the incoming movies merged in
      order. */
  function MergeAll(list: seq<Movie>, incoming: seq<Movie>): seq<Movie>
    decreases |incoming|
  {
    if incoming == [] then list else MergeAll(MergeOne(list, incoming[0]), incoming[1..])
  }

  /** `Movies.Merge`: a nil receiver adopts the incoming list; otherwise each incoming movie is
      merged into the first movie with its rating key, or appended. */
  method MoviesMerge(m: MovieList, incoming: MovieList) returns (r: MovieList)
    ensures m.None? ==> r == incoming
    ensures m.Some? ==> r == Some(MergeAll(m.value, MovieElems(incoming)))
  {
    if m.None? {
      return incoming;
    }
    var list := m.value;
    var src := MovieElems(incoming);
    var n := 0;
    while n < |src|
      invariant 0 <= n <= |src|
      invariant MergeAll(list, src[n..]) == MergeAll(m.value, src)
    {
      var movie := src[n];
      var mm := FindRatingKey(Some(list), movie.ratingKey);
      assert src[n..][0] == movie && src[n..][1..] == src[n + 1..];
      if mm.Some? {
        list := list[mm.value := MovieMerge(list[mm.value], movie)];
      } else {
        list := list + [movie];
      }
      n := n + 1;
    }
    assert src[n..] == [];
    return Some(list);
  }

  /** A matched rating key adds no entry; an unmatched one is appended, once, in order. */
  lemma {:induction false} MergeAllRatingKeys(list: seq<Movie>, incoming: seq<Movie>)
    ensures RatingKeys(MergeAll(list, incoming)) == RatingKeys(list) + Unseen(RatingKeys(list), RatingKeys(incoming))
    decreases |incoming|
  {
    if incoming != [] {
      var x := incoming[0];
      var next := MergeOne(list, x);
      assert RatingKeys(incoming) == [x.ratingKey] + RatingKeys(incoming[1..]);
      MergeAllRatingKeys(next, incoming[1..]);
      match IndexOfRatingKey(list, x.ratingKey)
      case Some(i) =>
        assert RatingKeys(next) == RatingKeys(list);
        assert x.ratingKey in RatingKeys(list) by {
          assert RatingKeys(list)[i] == x.ratingKey;
        }
      case None =>
        assert RatingKeys(next) == RatingKeys(list) + [x.ratingKey];
        assert x.ratingKey !in RatingKeys(list);
    }
  }

  /** Existing movies are never removed or reordered, and their timestamps never move back. */
  lemma {:induction false} MergeAllKeepsPrefix(list: seq<Movie>, incoming: seq<Movie>)
    ensures |list| <= |MergeAll(list, incoming)|
    ensures forall i :: 0 <= i < |list| ==>
              MergeAll(list, incoming)[i].ratingKey == list[i].ratingKey &&
              list[i].refreshedAt <= MergeAll(list, incoming)[i].refreshedAt
    decreases |incoming|
  {
    if incoming != [] {
      MergeAllKeepsPrefix(MergeOne(list, incoming[0]), incoming[1..]);
    }
  }

  /** Every incoming movie ends up in the result, itself or merged into a movie with its
      rating key that is not older. */
  lemma {:induction false} MergeAllAbsorbs(list: seq<Movie>, incoming: seq<Movie>, j: nat)
    requires j < |incoming|
    ensures exists i :: 0 <= i < |MergeAll(list, incoming)| &&
              MergeAll(list, incoming)[i].ratingKey == incoming[j].ratingKey &&
              incoming[j].refreshedAt <= MergeAll(list, incoming)[i].refreshedAt
    decreases |incoming|
  {
    var next := MergeOne(list, incoming[0]);
    if j == 0 {
      var i: nat := match IndexOfRatingKey(list, incoming[0].ratingKey)
        case Some(i) => i
        case None => |list|;
      assert next[i].ratingKey == incoming[0].ratingKey && incoming[0].refreshedAt <= next[i].refreshedAt;
      MergeAllKeepsPrefix(next, incoming[1..]);
      assert MergeAll(list, incoming)[i].ratingKey == incoming[0].ratingKey;
    } else {
      MergeAllAbsorbs(next, incoming[1..], j - 1);
      assert incoming[1..][j - 1] == incoming[j];
      assert MergeAll(list, incoming) == MergeAll(next, incoming[1..]);
    }
  }

  ghost predicate UniqueRatingKeys(m: seq<Movie>)
  {
    forall i, j :: 0 <= i < j < |m| ==> m[i].ratingKey != m[j].ratingKey
  }

  /** Merging a list with rating keys unique into itself changes nothing. */
  lemma MergeAllSelf(list: seq<Movie>)
    requires UniqueRatingKeys(list)
    ensures MergeAll(list, list) == list
  {
    MergeAllSelfFrom(list, 0);
  }

  lemma {:induction false} MergeAllSelfFrom(list: seq<Movie>, n: nat)
    requires UniqueRatingKeys(list) && n <= |list|
    ensures MergeAll(list, list[n..]) == list
    decreases |list| - n
  {
    if n < |list| {
      assert list[n..][0] == list[n] && list[n..][1..] == list[n + 1..];
      var found := IndexOfRatingKey(list, list[n].ratingKey);
      assert found == Some(n);
      assert MergeOne(list, list[n]) == list;
      MergeAllSelfFrom(list, n + 1);
    } else {
      assert list[n..] == [];
    }
  }

  /** Movies after `Movies.SetRefreshedAt()`. */
  function MoviesStamped(m: MovieList, now: Time): MovieList
  {
    if m.None? then None else Some(seq(|m.value|, i requires 0 <= i < |m.value| => m.value[i].(refreshedAt := now)))
  }

  /** `Movies.SetRefreshedAt` (with `Movie.SetRefreshedAt` inlined): stamps every movie. */
  method MoviesSetRefreshedAt(m: MovieList, now: Time) returns (r: MovieList)
    ensures r == MoviesStamped(m, now)
    ensures (r.None? <==> m.None?) && RatingKeys(MovieElems(r)) == RatingKeys(MovieElems(m))
    ensures forall i :: 0 <= i < |MovieElems(r)| ==> MovieElems(r)[i].refreshedAt == now
  {
    if m.None? {
      return None;
    }
    var list := m.value;
    var i := 0;
    while i < |list|
      invariant 0 <= i <= |list| && |list| == |m.value|
      invariant forall j :: 0 <= j < |list| ==> list[j] == (if j < i then m.value[j].(refreshedAt := now) else m.value[j])
    {
      list := list[i := list[i].(refreshedAt := now)];
      i := i + 1;
    }
    r := Some(list);
    assert list == MoviesStamped(m, now).value;
    assert RatingKeys(list) == RatingKeys(m.value);
  }
}
