/** TV shows (pkg/library/show.go): a list of shows matched by title, each holding seasons. */
module Shows {
  import opened Wrappers
  import opened Times
  import opened Lists
  import opened Episodes
  import opened Seasons

  datatype Show = Show(
    title: string,
    summary: string,
    year: int,
    contentRating: string,
    guid: string,
    tvdb: int,
    key: string,
    ratingKey: string,
    userRating: real,
    audienceRating: real,
    watched: bool,
    lastViewedAt: Option<Time>,
    addedAt: Time,
    updatedAt: Time,
    seasons: SeasonMap,
    refreshedAt: Time)

  /** Go's `Shows` slice; `None` is a nil slice. */
  type ShowList = Option<seq<Show>>

  /** The shows of a possibly nil slice. */
  function ShowElems(s: ShowList): seq<Show>
  {
    if s.None? then [] else s.value
  }

  function Titles(s: seq<Show>): (r: seq<string>)
    ensures |r| == |s| && forall i :: 0 <= i < |s| ==> r[i] == s[i].title
  {
    if s == [] then [] else [s[0].title] + Titles(s[1..])
  }

  /** The index of the first show titled `t`, if any. */
  function IndexOfTitle(s: seq<Show>, t: string): (r: Option<nat>)
    ensures r.Some? ==> r.value < |s| && s[r.value].title == t && forall i :: 0 <= i < r.value ==> s[i].title != t
    ensures r.None? <==> forall i :: 0 <= i < |s| ==> s[i].title != t
  {
    if s == [] then None
    else if s[0].title == t then Some(0)
    else match IndexOfTitle(s[1..], t)
      case None => None
      case Some(i) => Some(i + 1)
  }

  /** `Shows.FindTitle` (and `Shows.Title` of the older copy): the first show with title `t`. */
  method FindTitle(s: ShowList, t: string) returns (r: Option<nat>)
    ensures r == IndexOfTitle(ShowElems(s), t)
  {
    var shows := ShowElems(s);
    var i := 0;
    while i < |shows|
      invariant 0 <= i <= |shows|
      invariant forall j :: 0 <= j < i ==> shows[j].title != t
    {
      if shows[i].title == t {
        return Some(i);
      }
      i := i + 1;
    }
    return None;
  }

  /** The side whose scalars `Show.Merge` keeps: the incoming one iff the receiver is older. */
  function ShowWinner(s: Show, ms: Show): Show
  {
    if s.refreshedAt < ms.refreshedAt then ms else s
  }

  function ShowLoser(s: Show, ms: Show): Show
  {
    if s.refreshedAt < ms.refreshedAt then s else ms
  }

  /** Every season of `r` descends from a season of `a` or of `b` under the same number. */
  ghost predicate SeasonsFrom(r: map<int, Season>, a: map<int, Season>, b: map<int, Season>)
  {
    forall k :: k in r ==> (k in a && Descends(r[k], a[k])) || (k in b && Descends(r[k], b[k]))
  }

  /** What `Show.Merge` promises about receiver `s`, incoming `ms` and result `r`. */
  ghost predicate IsShowMerge(s: Show, ms: Show, r: Show)
  {
    // The timestamp never moves backward.
    && r.refreshedAt == Max(s.refreshedAt, ms.refreshedAt)
    // Every scalar comes from the winner, the incoming show only if strictly newer.
    && r == ShowWinner(s, ms).(seasons := r.seasons)
    && (r.seasons.None? <==> s.seasons.None? && ms.seasons.None?)
    // Season numbers: all of the winner's, none from elsewhere, each season a descendant.
    && SeasonEntries(ShowWinner(s, ms).seasons).Keys <= SeasonEntries(r.seasons).Keys
    && SeasonEntries(r.seasons).Keys <= SeasonEntries(s.seasons).Keys + SeasonEntries(ms.seasons).Keys
    && SeasonsFrom(SeasonEntries(r.seasons), SeasonEntries(s.seasons), SeasonEntries(ms.seasons))
    && (UniqueSeasonKeys(SeasonEntries(s.seasons)) && UniqueSeasonKeys(SeasonEntries(ms.seasons)) ==>
          UniqueSeasonKeys(SeasonEntries(r.seasons)))
    // Coherent season maps: every number of either side, matched seasons merged pairwise
    // with the winner's season as receiver, the others at most self-merged.
    && (SeasonsCoherent(SeasonEntries(s.seasons), SeasonEntries(ms.seasons)) ==>
          ShowSeasonsUnioned(SeasonEntries(ShowWinner(s, ms).seasons), SeasonEntries(ShowLoser(s, ms).seasons),
                             SeasonEntries(r.seasons)))
  }

  lemma SeasonsCoherentSymmetric(a: map<int, Season>, b: map<int, Season>)
    requires SeasonsCoherent(a, b)
    ensures SeasonsCoherent(b, a)
  {
  }

  /** The seasons of a show merge over coherent season maps `w` (the winner's) and `l`: every
      number of either side; a season on both sides is their `Season.Merge`, one on a single
      side is its own season, at most with its episode map merged with itself. */
  ghost predicate ShowSeasonsUnioned(w: map<int, Season>, l: map<int, Season>, m: map<int, Season>)
  {
    && m.Keys == w.Keys + l.Keys
    && (forall j :: j in m ==>
          if j in w && j in l then IsSeasonMerge(w[j], l[j], m[j])
          else if j in w then SeasonSelfMerged(w[j], m[j])
          else SeasonSelfMerged(l[j], m[j]))
  }

  /** A season-wise self-merge of a coherent union keeps it a union in that sense. */
  lemma UnionedThenSelf(w: map<int, Season>, l: map<int, Season>, m: map<int, Season>, m': map<int, Season>)
    requires SeasonsUnioned(w, l, {}, m)
    requires m'.Keys == m.Keys && forall j :: j in m ==> SeasonSelfMerged(m[j], m'[j])
    ensures ShowSeasonsUnioned(w, l, m')
  {
    forall j | j in m'
      ensures if j in w && j in l then IsSeasonMerge(w[j], l[j], m'[j])
              else if j in w then SeasonSelfMerged(w[j], m'[j])
              else SeasonSelfMerged(l[j], m'[j])
    {
      if j in w && j in l {
        SeasonMergeThenSelf(w[j], l[j], m[j], m'[j]);
      }
    }
  }

  /** `Show.Merge`: if the receiver is strictly older, the incoming show's seasons first absorb
      the receiver's and the receiver becomes the incoming show; then the receiver's seasons
      absorb the incoming show's (the same Go map in the newer case). */
  method ShowMerge(s: Show, ms: Show) returns (r: Show)
    ensures IsShowMerge(s, ms, r)
    ensures UniqueSeasonKeys(SeasonEntries(s.seasons)) && s == ms ==> r == s
  {
    if s.refreshedAt < ms.refreshedAt {
      r := ShowMergeNewer(s, ms);
    } else {
      r := ShowMergeKept(s, ms);
    }
  }

  /** `Show.Merge` when the incoming show is strictly newer: its seasons absorb the receiver's,
      it replaces the receiver, and the second pass merges its map with itself. */
  method ShowMergeNewer(s: Show, ms: Show) returns (r: Show)
    requires s.refreshedAt < ms.refreshedAt
    ensures IsShowMerge(s, ms, r)
  {
    var first := SeasonsMerge(ms.seasons, s.seasons);
    var merge := ms.(seasons := first);
    r := merge;
    var seasons := SeasonsSelfMerge(r.seasons);
    r := r.(seasons := seasons);
    var a, b := SeasonEntries(s.seasons), SeasonEntries(ms.seasons);
    assert SeasonsFrom(SeasonEntries(first), a, b);
    SelfMergedFrom(first, seasons, a, b);
    if SeasonsCoherent(a, b) {
      SeasonsCoherentSymmetric(a, b);
      if ms.seasons.Some? {
        UnionedThenSelf(b, a, SeasonEntries(first), SeasonEntries(seasons));
      } else {
        assert first == s.seasons;
        SelfMergedAlone(a, SeasonEntries(seasons));
      }
    }
  }

  /** Seasons that descend from two maps still do after a self-merge. */
  lemma SelfMergedFrom(first: SeasonMap, seasons: SeasonMap, a: map<int, Season>, b: map<int, Season>)
    requires SeasonsFrom(SeasonEntries(first), a, b) && SeasonsSelfMerged(first, seasons)
    ensures SeasonsFrom(SeasonEntries(seasons), a, b)
  {
    var f, e := SeasonEntries(first), SeasonEntries(seasons);
    forall k | k in e
      ensures (k in a && Descends(e[k], a[k])) || (k in b && Descends(e[k], b[k]))
    {
      assert Descends(e[k], f[k]);
    }
  }

  /** A self-merge of one side alone is a union with an empty winner. */
  lemma SelfMergedAlone(l: map<int, Season>, m: map<int, Season>)
    requires m.Keys == l.Keys && forall j :: j in l ==> SeasonSelfMerged(l[j], m[j])
    ensures ShowSeasonsUnioned(map[], l, m)
  {
  }

  /** `Show.Merge` when the receiver is not older: it keeps its scalars and its seasons absorb
      the incoming show's. */
  method ShowMergeKept(s: Show, ms: Show) returns (r: Show)
    requires ms.refreshedAt <= s.refreshedAt
    ensures IsShowMerge(s, ms, r)
    ensures UniqueSeasonKeys(SeasonEntries(s.seasons)) && s == ms ==> r == s
  {
    var seasons := SeasonsMerge(s.seasons, ms.seasons);
    r := s.(seasons := seasons);
    var a, b, e := SeasonEntries(s.seasons), SeasonEntries(ms.seasons), SeasonEntries(seasons);
    if SeasonsCoherent(a, b) {
      forall j | j in e
        ensures SeasonSelfMerged(e[j], e[j])
      {
        SeasonSelfMergedRefl(e[j]);
      }
      if s.seasons.Some? {
        UnionedThenSelf(a, b, e, e);
      } else {
        SelfMergedAlone(b, e);
      }
    }
  }

  /** Some show earlier than `i` has the same title: `FindTitle` never reaches show `i`. */
  ghost predicate Shadowed(s: seq<Show>, i: int)
    requires 0 <= i < |s|
  {
    exists i' :: 0 <= i' < i && s[i'].title == s[i].title
  }

  /** Show `r[i]` has the incoming show's title and a timestamp not earlier. */
  ghost predicate AbsorbsAt(r: seq<Show>, i: int, show: Show)
  {
    0 <= i < |r| && r[i].title == show.title && show.refreshedAt <= r[i].refreshedAt
  }

  /** Some show of `r` has the incoming show's title and a timestamp not earlier. */
  ghost predicate Absorbs(r: seq<Show>, show: Show)
  {
    exists i :: AbsorbsAt(r, i, show)
  }

  /** Each receiver show is the `Show.Merge` of itself with the first `n` incoming shows of
      its title. */
  ghost predicate PairwiseMerged(s: seq<Show>, incoming: seq<Show>, n: int, r: seq<Show>)
    requires |s| <= |r| && n <= |incoming|
  {
    forall i, j :: 0 <= i < |s| && 0 <= j < n && s[i].title == incoming[j].title ==>
      IsShowMerge(s[i], incoming[j], r[i])
  }

  ghost predicate UniqueTitles(s: seq<Show>)
  {
    forall i, j :: 0 <= i < j < |s| ==> s[i].title != s[j].title
  }

  /** What `Shows.Merge` promises about a non-nil receiver `s` merged with `incoming` into `r`. */
  ghost predicate ShowsMerged(s: seq<Show>, incoming: seq<Show>, r: seq<Show>)
  {
    // Matched shows add no entry; unmatched titles are appended, once each, in order.
    && Titles(r) == Titles(s) + Unseen(Titles(s), Titles(incoming))
    // Existing shows keep their positions and titles, and their timestamps never move back.
    && (forall i :: 0 <= i < |s| ==> r[i].title == s[i].title && s[i].refreshedAt <= r[i].refreshedAt)
    // A show that no incoming title reaches is untouched.
    && (forall i :: 0 <= i < |s| && (s[i].title !in Titles(incoming) || Shadowed(s, i)) ==> r[i] == s[i])
    // Every incoming show is kept or absorbed by a show with its title that is not older.
    && (forall j :: 0 <= j < |incoming| ==> Absorbs(r, incoming[j]))
    // With distinct titles on both sides, matched shows are merged pairwise.
    && (UniqueTitles(s) && UniqueTitles(incoming) ==> PairwiseMerged(s, incoming, |incoming|, r))
  }

  /** `Shows.Merge`: a nil receiver adopts the incoming list. Otherwise each incoming show, in
      order, is merged into the first receiver show with its title, or appended when there is
      none. */
  method ShowsMerge(s: ShowList, incoming: ShowList) returns (r: ShowList)
    ensures s.None? ==> r == incoming
    ensures s.Some? ==> r.Some? && ShowsMerged(s.value, ShowElems(incoming), r.value)
  {
    if s.None? {
      return incoming;
    }
    var old0 := s.value;
    var src := ShowElems(incoming);
    var list := s.value;
    ghost var where: seq<nat> := [];
    var n := 0;
    while n < |src|
      invariant 0 <= n <= |src|
      invariant MergedSoFar(old0, src, n, list, where)
    {
      ghost var list0, where0 := list, where;
      var ss;
      list, ss := MergeShowInto(list, src[n]);
      where := where + [if ss.Some? then ss.value else |list0|];
      assert where[..n] == where0;
      MergedSoFarStep(old0, src, n, list0, where, ss, list);
      n := n + 1;
    }
    MergedAll(old0, src, list, where);
    r := Some(list);
  }

  /** One iteration of `Shows.Merge`: `show` is merged into the first show with its title, or
      appended when there is none; `ss` is where the title was found. */
  method MergeShowInto(list: seq<Show>, show: Show) returns (list': seq<Show>, ss: Option<nat>)
    ensures ShowsStep(list, show, ss, list')
  {
    ss := FindTitle(Some(list), show.title);
    if ss.Some? {
      var merged := ShowMerge(list[ss.value], show);
      list' := list[ss.value := merged];
    } else {
      list' := list + [show];
    }
  }

  /** The state of the `Shows.Merge` loop after the first `n` incoming shows; `where[j]` is the
      position that absorbed incoming show `j`. */
  ghost predicate MergedSoFar(old0: seq<Show>, src: seq<Show>, n: nat, list: seq<Show>, where: seq<nat>)
    requires n <= |src|
  {
    && |where| == n
    && |old0| <= |list|
    && Titles(list) == Titles(old0) + Unseen(Titles(old0), Titles(src[..n]))
    && (forall i :: 0 <= i < |old0| ==> list[i].title == old0[i].title && old0[i].refreshedAt <= list[i].refreshedAt)
    && (forall i :: 0 <= i < |old0| && (old0[i].title !in Titles(src[..n]) || Shadowed(old0, i)) ==> list[i] == old0[i])
    && (forall j :: 0 <= j < n ==> AbsorbsAt(list, where[j], src[j]))
    && (UniqueTitles(old0) && UniqueTitles(src) ==> PairwiseMerged(old0, src, n, list))
  }

  lemma MergedSoFarStep(old0: seq<Show>, src: seq<Show>, n: nat, list: seq<Show>, where: seq<nat>,
                        ss: Option<nat>, list': seq<Show>)
    requires n < |src| && |where| == n + 1
    requires MergedSoFar(old0, src, n, list, where[..n])
    requires ShowsStep(list, src[n], ss, list')
    requires where[n] == (if ss.Some? then ss.value else |list|)
    ensures MergedSoFar(old0, src, n + 1, list', where)
  {
    assert TitleStep(list, src[n], ss, list');
    TitlesStep(old0, src, n, list, ss, list');
    KeptStep(old0, src, n, list, ss, list');
    AbsorbStep(src, n, list, where, ss, list');
    UntouchedStep(old0, src, n, list, ss, list');
    if UniqueTitles(old0) && UniqueTitles(src) {
      PairwiseStep(old0, src, n, list, ss, list');
    }
  }

  lemma MergedAll(old0: seq<Show>, src: seq<Show>, list: seq<Show>, where: seq<nat>)
    requires MergedSoFar(old0, src, |src|, list, where)
    ensures ShowsMerged(old0, src, list)
  {
    assert src[..|src|] == src;
    forall j | 0 <= j < |src|
      ensures Absorbs(list, src[j])
    {
      assert AbsorbsAt(list, where[j], src[j]);
    }
  }

  /** One iteration of the `Shows.Merge` loop for incoming show `show`. */
  ghost predicate ShowsStep(list: seq<Show>, show: Show, ss: Option<nat>, list': seq<Show>)
  {
    && ss == IndexOfTitle(list, show.title)
    && (ss.Some? ==>
          && |list'| == |list|
          && IsShowMerge(list[ss.value], show, list'[ss.value])
          && forall i :: 0 <= i < |list| && i != ss.value ==> list'[i] == list[i])
    && (ss.None? ==> list' == list + [show])
  }

  /** The titles' view of one `Shows.Merge` iteration: a title match keeps every title, a
      miss appends the incoming show. */
  ghost predicate TitleStep(list: seq<Show>, show: Show, ss: Option<nat>, list': seq<Show>)
  {
    && (ss.Some? ==>
          && ss.value < |list| && list[ss.value].title == show.title
          && |list'| == |list| && list'[ss.value].title == show.title
          && forall i :: 0 <= i < |list| && i != ss.value ==> list'[i] == list[i])
    && (ss.None? ==> (forall i :: 0 <= i < |list| ==> list[i].title != show.title) && list' == list + [show])
  }

  lemma TitlesStep(old0: seq<Show>, src: seq<Show>, n: nat, list: seq<Show>, ss: Option<nat>, list': seq<Show>)
    requires n < |src| && |old0| <= |list|
    requires Titles(list) == Titles(old0) + Unseen(Titles(old0), Titles(src[..n]))
    requires TitleStep(list, src[n], ss, list')
    ensures |old0| <= |list'|
    ensures Titles(list') == Titles(old0) + Unseen(Titles(old0), Titles(src[..n + 1]))
  {
    TakeSnoc(src, n);
    TitlesSnoc(src[..n], src[n]);
    TitlesAfterStep(Titles(old0), Titles(src[..n]), list, src[n], ss, list');
  }

  lemma TitlesAfterStep(known: seq<string>, seen: seq<string>, list: seq<Show>, show: Show, ss: Option<nat>,
                        list': seq<Show>)
    requires Titles(list) == known + Unseen(known, seen)
    requires TitleStep(list, show, ss, list')
    ensures Titles(list') == known + Unseen(known, seen + [show.title])
  {
    var t := show.title;
    UnseenSnoc(known, seen, t);
    if ss.Some? {
      TitleFound(list, t, ss.value);
      assert list' == list[ss.value := list'[ss.value]];
      TitlesUpdate(list, ss.value, list'[ss.value]);
      assert Unseen(known, seen + [t]) == Unseen(known, seen);
    } else {
      TitleMissing(list, t);
      TitlesSnoc(list, show);
      assert Unseen(known, seen + [t]) == Unseen(known, seen) + [t];
    }
  }

  lemma TitlesSnoc(s: seq<Show>, x: Show)
    ensures Titles(s + [x]) == Titles(s) + [x.title]
  {
    assert |Titles(s + [x])| == |Titles(s) + [x.title]|;
    forall i | 0 <= i < |s| + 1
      ensures Titles(s + [x])[i] == (Titles(s) + [x.title])[i]
    {
    }
  }

  lemma TitlesUpdate(s: seq<Show>, i: nat, x: Show)
    requires i < |s| && x.title == s[i].title
    ensures Titles(s[i := x]) == Titles(s)
  {
    assert |Titles(s[i := x])| == |Titles(s)|;
    forall j | 0 <= j < |s|
      ensures Titles(s[i := x])[j] == Titles(s)[j]
    {
    }
  }

  lemma TitleFound(s: seq<Show>, t: string, i: nat)
    requires i < |s| && s[i].title == t
    ensures t in Titles(s)
  {
    assert Titles(s)[i] == t;
  }

  lemma TitleMissing(s: seq<Show>, t: string)
    requires forall i :: 0 <= i < |s| ==> s[i].title != t
    ensures t !in Titles(s)
  {
  }

  lemma AbsorbStep(src: seq<Show>, n: nat, list: seq<Show>, where: seq<nat>, ss: Option<nat>, list': seq<Show>)
    requires n < |src| && |where| == n + 1
    requires forall j :: 0 <= j < n ==> AbsorbsAt(list, where[j], src[j])
    requires ShowsStep(list, src[n], ss, list')
    requires where[n] == (if ss.Some? then ss.value else |list|)
    ensures forall j :: 0 <= j < n + 1 ==> AbsorbsAt(list', where[j], src[j])
  {
    forall j | 0 <= j < n + 1
      ensures AbsorbsAt(list', where[j], src[j])
    {
      if j < n {
        assert AbsorbsAt(list, where[j], src[j]);
      }
    }
  }

  lemma KeptStep(old0: seq<Show>, src: seq<Show>, n: nat, list: seq<Show>, ss: Option<nat>, list': seq<Show>)
    requires n < |src| && |old0| <= |list|
    requires forall i :: 0 <= i < |old0| ==> list[i].title == old0[i].title && old0[i].refreshedAt <= list[i].refreshedAt
    requires ShowsStep(list, src[n], ss, list')
    ensures forall i :: 0 <= i < |old0| ==> list'[i].title == old0[i].title && old0[i].refreshedAt <= list'[i].refreshedAt
  {
  }

  lemma UntouchedStep(old0: seq<Show>, src: seq<Show>, n: nat, list: seq<Show>, ss: Option<nat>, list': seq<Show>)
    requires n < |src| && |old0| <= |list|
    requires forall i :: 0 <= i < |old0| ==> list[i].title == old0[i].title
    requires forall i :: 0 <= i < |old0| && (old0[i].title !in Titles(src[..n]) || Shadowed(old0, i)) ==> list[i] == old0[i]
    requires ShowsStep(list, src[n], ss, list')
    ensures forall i :: 0 <= i < |old0| && (old0[i].title !in Titles(src[..n + 1]) || Shadowed(old0, i)) ==> list'[i] == old0[i]
  {
    assert src[..n + 1] == src[..n] + [src[n]];
    assert Titles(src[..n + 1]) == Titles(src[..n]) + [src[n].title];
    forall i | 0 <= i < |old0| && (old0[i].title !in Titles(src[..n + 1]) || Shadowed(old0, i))
      ensures list'[i] == old0[i]
    {
    }
  }

  lemma PairwiseStep(old0: seq<Show>, src: seq<Show>, n: nat, list: seq<Show>, ss: Option<nat>, list': seq<Show>)
    requires n < |src| && |old0| <= |list| && UniqueTitles(old0) && UniqueTitles(src)
    requires forall i :: 0 <= i < |old0| ==> list[i].title == old0[i].title
    requires forall i :: 0 <= i < |old0| && old0[i].title !in Titles(src[..n]) ==> list[i] == old0[i]
    requires PairwiseMerged(old0, src, n, list)
    requires ShowsStep(list, src[n], ss, list')
    ensures |old0| <= |list'|
    ensures PairwiseMerged(old0, src, n + 1, list')
  {
    forall i, j | 0 <= i < |old0| && 0 <= j < n + 1 && old0[i].title == src[j].title
      ensures IsShowMerge(old0[i], src[j], list'[i])
    {
      if j < n {
        assert IsShowMerge(old0[i], src[j], list[i]);
      } else {
        assert list[i].title == src[n].title;
      }
    }
  }

  /** Index of a `FindTvdbID` hit: the show itself, or an episode of one of its seasons. */
  datatype TvdbHit = ShowHit(show: nat) | EpisodeHit(show: nat, season: int, episode: int)

  /** Some episode of the show's seasons has that TVDB id. */
  ghost predicate EpisodeHasTvdb(show: Show, tvdb: int)
  {
    exists k, n :: k in SeasonEntries(show.seasons) && n in Entries(SeasonEntries(show.seasons)[k].episodes) &&
      Entries(SeasonEntries(show.seasons)[k].episodes)[n].tvdb == tvdb
  }

  /** The show or one of its episodes has that TVDB id. */
  ghost predicate ShowHasTvdb(show: Show, tvdb: int)
  {
    show.tvdb == tvdb || EpisodeHasTvdb(show, tvdb)
  }

  /** `Shows.FindTvdbID`: the first show (in list order) whose own TVDB id or one of whose
      episodes' ids matches; the show's own id is checked before its episodes, which are searched
      in Go's unspecified map order. */
  method FindTvdbID(s: ShowList, tvdb: int) returns (r: Option<TvdbHit>)
    ensures r.None? <==> forall i :: 0 <= i < |ShowElems(s)| ==> !ShowHasTvdb(ShowElems(s)[i], tvdb)
    ensures r.Some? ==>
              && r.value.show < |ShowElems(s)|
              && forall i :: 0 <= i < r.value.show ==> !ShowHasTvdb(ShowElems(s)[i], tvdb)
    ensures r.Some? && r.value.ShowHit? ==> ShowElems(s)[r.value.show].tvdb == tvdb
    ensures r.Some? && r.value.EpisodeHit? ==>
              var show := ShowElems(s)[r.value.show];
              && show.tvdb != tvdb
              && r.value.season in SeasonEntries(show.seasons)
              && r.value.episode in Entries(SeasonEntries(show.seasons)[r.value.season].episodes)
              && Entries(SeasonEntries(show.seasons)[r.value.season].episodes)[r.value.episode].tvdb == tvdb
  {
    var shows := ShowElems(s);
    var i := 0;
    while i < |shows|
      invariant 0 <= i <= |shows|
      invariant forall j :: 0 <= j < i ==> !ShowHasTvdb(shows[j], tvdb)
    {
      if shows[i].tvdb == tvdb {
        return Some(ShowHit(i));
      }
      var hit := FindEpisodeWhere(shows[i].seasons, (e: Episode) => e.tvdb == tvdb);
      if hit.Some? {
        return Some(EpisodeHit(i, hit.value.0, hit.value.1));
      }
      i := i + 1;
    }
    return None;
  }

  /** A show after `Show.SetRefreshedAt()`: it, its seasons and their episodes carry `now`. */
  function ShowStamped(show: Show, now: Time): Show
  {
    show.(refreshedAt := now, seasons := SeasonsStamped(show.seasons, now))
  }

  function ShowsStamped(s: ShowList, now: Time): ShowList
  {
    if s.None? then None else Some(seq(|s.value|, i requires 0 <= i < |s.value| => ShowStamped(s.value[i], now)))
  }

  /** `Show.SetRefreshedAt`. */
  method ShowSetRefreshedAt(show: Show, now: Time) returns (r: Show)
    ensures r == ShowStamped(show, now)
  {
    r := show.(refreshedAt := now);
    var seasons := SeasonsSetRefreshedAt(r.seasons, now);
    r := r.(seasons := seasons);
  }

  /** `Shows.SetRefreshedAt`: stamps every show in place, keeping the list's shape. */
  method ShowsSetRefreshedAt(s: ShowList, now: Time) returns (r: ShowList)
    ensures r == ShowsStamped(s, now)
    ensures Titles(ShowElems(r)) == Titles(ShowElems(s)) && (r.None? <==> s.None?)
  {
    if s.None? {
      return None;
    }
    var list := s.value;
    var i := 0;
    while i < |list|
      invariant 0 <= i <= |list| && |list| == |s.value|
      invariant forall j :: 0 <= j < |list| ==> list[j] == (if j < i then ShowStamped(s.value[j], now) else s.value[j])
    {
      var show := ShowSetRefreshedAt(list[i], now);
      list := list[i := show];
      i := i + 1;
    }
    r := Some(list);
    assert list == ShowsStamped(s, now).value;
    assert Titles(list) == Titles(s.value) by {
      forall j | 0 <= j < |list|
        ensures Titles(list)[j] == Titles(s.value)[j]
      {
      }
    }
  }

  /** A stamped show list is fresh at every level. */
  lemma ShowsStampedFresh(s: ShowList, now: Time)
    ensures forall i :: 0 <= i < |ShowElems(ShowsStamped(s, now))| ==>
              var show := ShowElems(ShowsStamped(s, now))[i];
              show.refreshedAt == now &&
              forall k :: k in SeasonEntries(show.seasons) ==> SeasonEntries(show.seasons)[k].refreshedAt == now
  {
  }
}
