/** A Plex library section (library/library.go): its metadata, its shows or movies, the
    `LibraryType` decoder, the three-way merge of children and the refresh stamp. */
module Library {
  import opened Wrappers
  import opened Times
  import opened Json
  import opened Lists
  import opened Shows
  import opened Movies

  /** A directory the library scans. */
  datatype Location = Location(id: int, path: string)

  const TypeShow: int := 0
  const TypeMovie: int := 1

  datatype Library = Library(
    location: seq<Location>,
    agent: string,
    allowSync: bool,
    art: string,
    composite: string,
    createdAt: int,
    filter: bool,
    key: string,
    language: string,
    refreshing: bool,
    scanner: string,
    thumb: string,
    title: string,
    libType: int,
    updatedAt: int,
    uuid: string,
    shows: ShowList,
    movies: MovieList,
    refreshedAt: Time)

  /** `LibraryType.UnmarshalJSON`: a JSON string must be "show" or "movie"; anything that does
      not decode as a string is tried as an int. A JSON `null` decodes as the empty string and is
      therefore an unknown type. */
  function UnmarshalLibraryType(j: Json): (r: Result<int>)
    ensures j.JString? ==> (r.Ok? <==> j.s == "show" || j.s == "movie")
    ensures j == JString("show") ==> r == Ok(TypeShow)
    ensures j == JString("movie") ==> r == Ok(TypeMovie)
    ensures !j.JString? ==> (r.Ok? <==> j.JInt? && MinInt <= j.i <= MaxInt)
    ensures j.JInt? && r.Ok? ==> r.value == j.i
  {
    match DecodeString(j)
    case Err(_) =>
      (match DecodeInt(j)
       case Err(e) => Err(e)
       case Ok(i) => Ok(i))
    case Ok(s) =>
      if s == "show" then Ok(TypeShow)
      else if s == "movie" then Ok(TypeMovie)
      else Err("unknown library type: " + s)
  }

  /** What `Library.Merge` promises: Movies and then Shows each follow the three-way rule
      (both nil: stay nil; receiver nil: adopt; otherwise merge), and the receiver's own fields,
      `refreshedAt` included, stay as they are. */
  ghost predicate IsLibraryMerge(l: Library, ml: Library, r: Library)
  {
    && r == l.(movies := r.movies, shows := r.shows)
    && (l.movies.None? ==> r.movies == ml.movies)
    && (l.movies.Some? ==> r.movies == Some(MergeAll(l.movies.value, MovieElems(ml.movies))))
    && (l.shows.None? ==> r.shows == ml.shows)
    && (l.shows.Some? ==> r.shows.Some? && ShowsMerged(l.shows.value, ShowElems(ml.shows), r.shows.value))
  }

  /** `Library.Merge`. */
  method LibraryMerge(l: Library, ml: Library) returns (r: Library)
    ensures IsLibraryMerge(l, ml, r)
  {
    r := l;
    if l.movies.Some? || ml.movies.Some? {
      if l.movies.Some? {
        var movies := MoviesMerge(l.movies, ml.movies);
        r := r.(movies := movies);
      } else {
        r := r.(movies := ml.movies);
      }
    }
    if l.shows.Some? || ml.shows.Some? {
      if l.shows.Some? {
        var shows := ShowsMerge(l.shows, ml.shows);
        r := r.(shows := shows);
      } else {
        r := r.(shows := ml.shows);
      }
    }
  }

  /** Under `Library.Merge` the movie rating keys and the show titles of the result are exactly
      those of the two inputs together: nothing is lost and nothing invented. */
  lemma LibraryMergeKeys(l: Library, ml: Library, r: Library)
    requires IsLibraryMerge(l, ml, r)
    ensures forall k :: k in RatingKeys(MovieElems(r.movies)) <==>
              k in RatingKeys(MovieElems(l.movies)) || k in RatingKeys(MovieElems(ml.movies))
    ensures forall t :: t in Titles(ShowElems(r.shows)) <==>
              t in Titles(ShowElems(l.shows)) || t in Titles(ShowElems(ml.shows))
    ensures (r.movies.None? <==> l.movies.None? && ml.movies.None?) && (r.shows.None? <==> l.shows.None? && ml.shows.None?)
  {
    if l.movies.Some? {
      MergeAllRatingKeys(l.movies.value, MovieElems(ml.movies));
      UnseenProperties(RatingKeys(l.movies.value), RatingKeys(MovieElems(ml.movies)));
    }
    if l.shows.Some? {
      UnseenProperties(Titles(l.shows.value), Titles(ShowElems(ml.shows)));
    }
  }

  /** A library after `Library.SetRefreshedAt()`. */
  function LibraryStamped(l: Library, now: Time): Library
  {
    l.(refreshedAt := now, shows := ShowsStamped(l.shows, now), movies := MoviesStamped(l.movies, now))
  }

  /** `Library.SetRefreshedAt`: stamps the library and cascades into non-nil Shows and Movies. */
  method LibrarySetRefreshedAt(l: Library, now: Time) returns (r: Library)
    ensures r == LibraryStamped(l, now)
    ensures r.refreshedAt == now && (r.shows.None? <==> l.shows.None?) && (r.movies.None? <==> l.movies.None?)
  {
    r := l.(refreshedAt := now);
    if l.shows.Some? {
      var shows := ShowsSetRefreshedAt(l.shows, now);
      r := r.(shows := shows);
    }
    if l.movies.Some? {
      var movies := MoviesSetRefreshedAt(l.movies, now);
      r := r.(movies := movies);
    }
  }
}
