/** Seasons of a show (library/season.go): a map from season number to season, each holding
    its episodes. */
module Seasons {
  import opened Wrappers
  import opened Times
  import opened Lists
  import opened Episodes

  datatype Season = Season(
    title: string,
    number: int,
    guid: string,
    ratingKey: string,
    episodes: EpisodeMap,
    refreshedAt: Time)

  /** Go's `Seasons`: season number to season; `None` is a nil map. */
  type SeasonMap = Option<map<int, Season>>

  /** The entries of a possibly nil map (a nil map reads as empty). */
  function SeasonEntries(s: SeasonMap): map<int, Season>
  {
    if s.None? then map[] else s.value
  }

  /** No two seasons of the map share a rating key. */
  ghost predicate UniqueSeasonKeys(m: map<int, Season>)
  {
    forall i, j :: i in m && j in m && m[i].ratingKey == m[j].ratingKey ==> i == j
  }

  /** Two season maps agree on which rating key lives under which season number, and
      neither repeats a rating key. */
  ghost predicate SeasonsCoherent(a: map<int, Season>, b: map<int, Season>)
  {
    && UniqueSeasonKeys(a)
    && UniqueSeasonKeys(b)
    && forall i, j :: i in a && j in b ==> (a[i].ratingKey == b[j].ratingKey <==> i == j)
  }

  /** The side whose scalars `Season.Merge` keeps: the incoming one iff the receiver is
      strictly older. */
  function Winner(s: Season, sm: Season): Season
  {
    if s.refreshedAt < sm.refreshedAt then sm else s
  }

  /** The other side. */
  function Loser(s: Season, sm: Season): Season
  {
    if s.refreshedAt < sm.refreshedAt then s else sm
  }

  /** `x` is `y` after zero or more merges: same rating key, timestamp not earlier. */
  ghost predicate Descends(x: Season, y: Season)
  {
    x.ratingKey == y.ratingKey && y.refreshedAt <= x.refreshedAt
  }

  /** Episode `v`, found under number k of a merge of `a` and `b`: one of their episodes, and
      the episode under k of one side or a strictly newer one with its rating key. */
  ghost predicate MergedEpisode(a: map<int, Episode>, b: map<int, Episode>, k: int, v: Episode)
  {
    && (IsEpisodeOf(a, v) || IsEpisodeOf(b, v))
    && ((k in a && SameOrNewer(a[k], v)) || (k in b && SameOrNewer(b[k], v)))
  }

  /** A map whose every entry is an input's under the same number is a merge of them. */
  lemma ExactMerged(a: map<int, Episode>, b: map<int, Episode>, r: map<int, Episode>)
    requires forall k :: k in r ==> (k in a && r[k] == a[k]) || (k in b && r[k] == b[k])
    ensures forall k :: k in r ==> MergedEpisode(a, b, k, r[k])
  {
    forall k | k in r
      ensures MergedEpisode(a, b, k, r[k])
    {
      if k in a && r[k] == a[k] {
        assert IsEpisodeOf(a, a[k]);
      } else {
        assert IsEpisodeOf(b, b[k]);
      }
    }
  }

  /** What `Season.Merge` promises about receiver `s`, incoming `sm` and result `r`. */
  ghost predicate IsSeasonMerge(s: Season, sm: Season, r: Season)
  {
    // The timestamp never moves backward.
    && r.refreshedAt == Max(s.refreshedAt, sm.refreshedAt)
    // Every scalar comes from the winner, the incoming season only if strictly newer.
    && r == Winner(s, sm).(episodes := r.episodes)
    // The episode map is nil only if both were.
    && (r.episodes.None? <==> s.episodes.None? && sm.episodes.None?)
    // Episode numbers: all of the winner's, and none from elsewhere.
    && Entries(Winner(s, sm).episodes).Keys <= Entries(r.episodes).Keys
    && Entries(r.episodes).Keys <= Entries(s.episodes).Keys + Entries(sm.episodes).Keys
    // Every episode is one of the inputs' episodes, under a number where an input episode
    // had its rating key and no later timestamp.
    && (forall k {:trigger MergedEpisode(Entries(s.episodes), Entries(sm.episodes), k, Entries(r.episodes)[k])} ::
          k in Entries(r.episodes) ==>
            MergedEpisode(Entries(s.episodes), Entries(sm.episodes), k, Entries(r.episodes)[k]))
    // Without repeated rating keys, every episode is an input's episode under the same number.
    && (UniqueRatingKeys(Entries(s.episodes)) && UniqueRatingKeys(Entries(sm.episodes)) ==>
          forall k :: k in Entries(r.episodes) ==>
            (k in Entries(s.episodes) && Entries(r.episodes)[k] == Entries(s.episodes)[k]) ||
            (k in Entries(sm.episodes) && Entries(r.episodes)[k] == Entries(sm.episodes)[k]))
    // No repeated episode rating key appears.
    && (UniqueRatingKeys(Entries(s.episodes)) && UniqueRatingKeys(Entries(sm.episodes)) ==>
          UniqueRatingKeys(Entries(r.episodes)))
    // Coherent episode maps: the union, the winner's episodes winning.
    && (Coherent(Entries(s.episodes), Entries(sm.episodes)) ==>
          Entries(r.episodes) == Entries(Loser(s, sm).episodes) + Entries(Winner(s, sm).episodes))
  }

  lemma CoherentSymmetric(a: map<int, Episode>, b: map<int, Episode>)
    requires Coherent(a, b)
    ensures Coherent(b, a)
  {
  }

  /** `Season.Merge`: if the receiver is strictly older, the incoming season's episodes first
      absorb the receiver's and the receiver becomes the incoming season; then the receiver's
      episodes absorb the incoming season's. In the newer case those are the same Go map, so
      the second pass merges a map with itself. The second result is the incoming season
      after the call: `Episodes.Merge` updates incoming episodes, and in the newer case the
      incoming season shares the merged map with the receiver. */
  method SeasonMerge(s: Season, sm: Season) returns (r: Season, sm': Season)
    ensures IsSeasonMerge(s, sm, r)
    ensures s == sm ==> r == s
    ensures sm' == sm.(episodes := sm'.episodes)
    ensures s.refreshedAt < sm.refreshedAt ==> sm' == r
    ensures sm.refreshedAt <= s.refreshedAt ==>
              && (sm'.episodes.None? <==> sm.episodes.None?)
              && Entries(sm'.episodes).Keys == Entries(sm.episodes).Keys
              && forall k :: k in Entries(sm.episodes) ==> SameOrNewer(Entries(sm.episodes)[k], Entries(sm'.episodes)[k])
  {
    if s.refreshedAt < sm.refreshedAt {
      r := SeasonMergeNewer(s, sm);
      sm' := r;
    } else {
      r, sm' := SeasonMergeKept(s, sm);
    }
  }

  /** `Season.Merge` when the incoming season is strictly newer: its episodes absorb the
      receiver's, it replaces the receiver, and the second pass merges its map with itself. */
  method SeasonMergeNewer(s: Season, sm: Season) returns (r: Season)
    requires s.refreshedAt < sm.refreshedAt
    ensures IsSeasonMerge(s, sm, r)
  {
    var eps, _ := EpisodesMerge(sm.episodes, s.episodes);
    var merge := sm.(episodes := eps);
    ExactMerged(Entries(s.episodes), Entries(sm.episodes), Entries(eps));
    if Coherent(Entries(s.episodes), Entries(sm.episodes)) {
      CoherentSymmetric(Entries(s.episodes), Entries(sm.episodes));
    }
    assert IsSeasonMerge(s, sm, merge);
    r := SeasonSelfMerge(merge);
    SeasonMergeThenSelf(s, sm, merge, r);
  }

  /** `Season.Merge` when the receiver is not older: it keeps its scalars and its episodes
      absorb the incoming season's, whose episodes may be updated. */
  method SeasonMergeKept(s: Season, sm: Season) returns (r: Season, sm': Season)
    requires sm.refreshedAt <= s.refreshedAt
    ensures IsSeasonMerge(s, sm, r)
    ensures s == sm ==> r == s
    ensures sm' == sm.(episodes := sm'.episodes)
    ensures (sm'.episodes.None? <==> sm.episodes.None?)
    ensures Entries(sm'.episodes).Keys == Entries(sm.episodes).Keys
    ensures forall k :: k in Entries(sm.episodes) ==> SameOrNewer(Entries(sm.episodes)[k], Entries(sm'.episodes)[k])
  {
    var eps, incoming' := EpisodesMerge(s.episodes, sm.episodes);
    r := s.(episodes := eps);
    sm' := sm.(episodes := incoming');
    ExactMerged(Entries(s.episodes), Entries(sm.episodes), Entries(eps));
  }

  /** `y` is `x` after its episode map was merged with itself. */
  ghost predicate SeasonSelfMerged(x: Season, y: Season)
  {
    y == x.(episodes := y.episodes) && SelfMerged(x.episodes, y.episodes)
  }

  /** `Season.Merge` with the same season on both sides: the timestamps are equal, so only the
      episode map is merged, with itself. */
  method SeasonSelfMerge(x: Season) returns (r: Season)
    ensures SeasonSelfMerged(x, r)
  {
    var eps := EpisodesSelfMerge(x.episodes);
    r := x.(episodes := eps);
  }

  lemma SeasonSelfMergedRefl(x: Season)
    ensures SeasonSelfMerged(x, x)
  {
    SelfMergedRefl(x.episodes);
  }

  lemma SeasonSelfMergedTrans(x: Season, y: Season, z: Season)
    requires SeasonSelfMerged(x, y) && SeasonSelfMerged(y, z)
    ensures SeasonSelfMerged(x, z)
  {
    SelfMergedTrans(x.episodes, y.episodes, z.episodes);
  }

  /** A later self-merge of the result keeps it a merge of the same two seasons. */
  lemma {:induction false} SeasonMergeThenSelf(s: Season, sm: Season, r: Season, r': Season)
    requires IsSeasonMerge(s, sm, r) && SeasonSelfMerged(r, r')
    ensures IsSeasonMerge(s, sm, r')
  {
    var a, b, e, e' := Entries(s.episodes), Entries(sm.episodes), Entries(r.episodes), Entries(r'.episodes);
    forall k | k in e'
      ensures MergedEpisode(a, b, k, e'[k])
    {
      assert MergedEpisode(a, b, k, e[k]);
      assert IsEpisodeOf(e, e'[k]);
      var j :| j in e && e[j] == e'[k];
      assert MergedEpisode(a, b, j, e[j]);
      assert SameOrNewer(e[k], e'[k]);
    }
    if UniqueRatingKeys(a) && UniqueRatingKeys(b) {
      assert e' == e;
    }
  }

  /** Merging a season with itself changes nothing. */
  lemma SeasonMergeSelf(s: Season, r: Season)
    requires IsSeasonMerge(s, s, r)
    ensures r.refreshedAt == s.refreshedAt && r == s.(episodes := r.episodes)
    ensures Entries(r.episodes).Keys == Entries(s.episodes).Keys
  {
  }

  /** `found` is an answer of `Seasons.FindRatingKey` for `ratingKey` in `m`. */
  ghost predicate SeasonFoundIn(m: map<int, Season>, ratingKey: string, found: Option<int>)
  {
    && (found.Some? ==> found.value in m && m[found.value].ratingKey == ratingKey)
    && (found.None? ==> forall j :: j in m ==> m[j].ratingKey != ratingKey)
  }

  /** `Seasons.FindRatingKey`: some key holding a season with that rating key (in Go's
      unspecified map order), or None iff there is none. */
  method SeasonsFindRatingKey(s: SeasonMap, ratingKey: string) returns (found: Option<int>)
    ensures found.Some? ==> found.value in SeasonEntries(s) && SeasonEntries(s)[found.value].ratingKey == ratingKey
    ensures found.None? <==> forall k :: k in SeasonEntries(s) ==> SeasonEntries(s)[k].ratingKey != ratingKey
    ensures SeasonFoundIn(SeasonEntries(s), ratingKey, found)
  {
    var m := SeasonEntries(s);
    var remaining := m.Keys;
    while remaining != {}
      invariant remaining <= m.Keys
      invariant forall k :: k in m && k !in remaining ==> m[k].ratingKey != ratingKey
      decreases remaining
    {
      var k := Pick(remaining);
      if m[k].ratingKey == ratingKey {
        return Some(k);
      }
      remaining := remaining - {k};
    }
    return None;
  }

  /** The nested search the catalog lookups run over a show's seasons and their episodes:
      a (season number, episode number) pair whose episode satisfies `p`, or None iff there
      is none. Both maps are visited in Go's unspecified order. */
  method FindEpisodeWhere(s: SeasonMap, p: Episode -> bool) returns (hit: Option<(int, int)>)
    ensures hit.Some? ==>
              && hit.value.0 in SeasonEntries(s)
              && hit.value.1 in Entries(SeasonEntries(s)[hit.value.0].episodes)
              && p(Entries(SeasonEntries(s)[hit.value.0].episodes)[hit.value.1])
    ensures hit.None? <==> forall k, n :: k in SeasonEntries(s) && n in Entries(SeasonEntries(s)[k].episodes) ==>
              !p(Entries(SeasonEntries(s)[k].episodes)[n])
  {
    var m := SeasonEntries(s);
    var remaining := m.Keys;
    while remaining != {}
      invariant remaining <= m.Keys
      invariant forall k, n :: k in m && k !in remaining && n in Entries(m[k].episodes) ==> !p(Entries(m[k].episodes)[n])
      decreases remaining
    {
      var k := Pick(remaining);
      var found := EpisodesFindWhere(m[k].episodes, p);
      if found.Some? {
        return Some((k, found.value));
      }
      remaining := remaining - {k};
    }
    return None;
  }

  /** One iteration of the `Seasons.Merge` loop for incoming key k. */
  ghost predicate SeasonsStep(src: map<int, Season>, m: map<int, Season>, k: int, found: Option<int>,
                              m': map<int, Season>)
  {
    && k in src
    && SeasonFoundIn(m, src[k].ratingKey, found)
    && (found.Some? ==>
          && m'.Keys == m.Keys
          && IsSeasonMerge(m[found.value], src[k], m'[found.value])
          && (m[found.value] == src[k] ==> m'[found.value] == src[k])
          && forall j :: j in m && j != found.value ==> m'[j] == m[j])
    && (found.None? ==> m' == m[k := src[k]])
  }

  /** Incoming key k carries a rating key held neither by the receiver nor by any other
      incoming entry. */
  ghost predicate NewSeasonKey(e: map<int, Season>, src: map<int, Season>, k: int)
    requires k in src
  {
    && (forall j :: j in e ==> e[j].ratingKey != src[k].ratingKey)
    && (forall j :: j in src && j != k ==> src[j].ratingKey != src[k].ratingKey)
  }

  /** What the loop keeps once the keys outside `rem` are processed: each season descends
      from the receiver's or a processed incoming season under the same number. */
  ghost predicate SeasonsFramed(e: map<int, Season>, src: map<int, Season>, rem: set<int>, m: map<int, Season>)
  {
    && rem <= src.Keys
    && e.Keys <= m.Keys <= e.Keys + (src.Keys - rem)
    && (forall j :: j in m ==> (j in e && Descends(m[j], e[j])) || (j in src && j !in rem && Descends(m[j], src[j])))
    && (forall j :: j in e && (j !in src || j in rem) ==> Descends(m[j], e[j]))
    && (forall k :: k in src && k !in rem && NewSeasonKey(e, src, k) ==> k in m && m[k] == src[k])
  }

  /** With unique receiver rating keys, an incoming season whose rating key the receiver holds
      under a number nobody overwrites is absorbed there: its timestamp is not lost. */
  ghost predicate Absorbed(e: map<int, Season>, src: map<int, Season>, rem: set<int>, m: map<int, Season>)
  {
    forall j, k :: j in e && j !in src && k in src && k !in rem && src[k].ratingKey == e[j].ratingKey ==>
      j in m && src[k].refreshedAt <= m[j].refreshedAt
  }

  /** The loop state for coherent maps: numbers matched on both sides are merged pairwise. */
  ghost predicate SeasonsUnioned(e: map<int, Season>, src: map<int, Season>, rem: set<int>, m: map<int, Season>)
  {
    && m.Keys == e.Keys + (src.Keys - rem)
    && (forall j :: j in m ==>
          if j in e && j in src && j !in rem then IsSeasonMerge(e[j], src[j], m[j])
          else if j in e then m[j] == e[j]
          else m[j] == src[j])
  }

  lemma SeasonsFramedStep(e: map<int, Season>, src: map<int, Season>, rem: set<int>, m: map<int, Season>,
                          k: int, found: Option<int>, m': map<int, Season>)
    requires SeasonsFramed(e, src, rem, m) && k in rem
    requires SeasonsStep(src, m, k, found, m')
    ensures SeasonsFramed(e, src, rem - {k}, m')
  {
    if NewSeasonKey(e, src, k) {
      assert forall j :: j in m ==> m[j].ratingKey != src[k].ratingKey;
    }
    forall j | j in m'
      ensures (j in e && Descends(m'[j], e[j])) || (j in src && j !in rem - {k} && Descends(m'[j], src[j]))
    {
      if found.Some? && j == found.value {
        assert Descends(m'[j], m[j]);
      }
    }
    forall j | j in e && (j !in src || j in rem - {k})
      ensures Descends(m'[j], e[j])
    {
      if found.Some? && j == found.value {
        assert Descends(m'[j], m[j]);
      }
    }
  }

  lemma AbsorbedStep(e: map<int, Season>, src: map<int, Season>, rem: set<int>, m: map<int, Season>,
                     k: int, found: Option<int>, m': map<int, Season>)
    requires UniqueSeasonKeys(m)
    requires SeasonsFramed(e, src, rem, m) && Absorbed(e, src, rem, m) && k in rem
    requires SeasonsStep(src, m, k, found, m')
    ensures Absorbed(e, src, rem - {k}, m')
  {
    forall j, k' | j in e && j !in src && k' in src && k' !in rem - {k} && src[k'].ratingKey == e[j].ratingKey
      ensures j in m' && src[k'].refreshedAt <= m'[j].refreshedAt
    {
      assert Descends(m[j], e[j]);
      if found.Some? && found.value == j {
        assert m'[j].refreshedAt >= m[j].refreshedAt;
      }
      if k' == k {
        assert found.Some? && found.value == j;
      }
    }
  }

  lemma UniqueSeasonStep(src: map<int, Season>, m: map<int, Season>, k: int, found: Option<int>, m': map<int, Season>)
    requires UniqueSeasonKeys(m)
    requires SeasonsStep(src, m, k, found, m')
    ensures UniqueSeasonKeys(m')
  {
    if found.Some? {
      assert m'[found.value].ratingKey == m[found.value].ratingKey;
    }
  }

  lemma SelfStep(e: map<int, Season>, rem: set<int>, m: map<int, Season>, k: int, found: Option<int>,
                 m': map<int, Season>)
    requires UniqueSeasonKeys(e) && m == e && k in rem && rem <= e.Keys
    requires SeasonsStep(e, m, k, found, m')
    ensures m' == e
  {
    assert found.Some? && found.value == k;
    forall i | i in m'
      ensures m'[i] == e[i]
    {
    }
  }

  lemma SeasonsUnionedStep(e: map<int, Season>, src: map<int, Season>, rem: set<int>, m: map<int, Season>,
                           k: int, found: Option<int>, m': map<int, Season>)
    requires SeasonsCoherent(e, src)
    requires SeasonsFramed(e, src, rem, m) && SeasonsUnioned(e, src, rem, m) && k in rem
    requires SeasonsStep(src, m, k, found, m')
    ensures SeasonsUnioned(e, src, rem - {k}, m')
  {
    if found.Some? {
      var j := found.value;
      if j in e && j in src && j !in rem {
        assert false;
      }
      if j !in e {
        assert false;
      }
      assert m[j] == e[j];
      assert j == k;
    } else if k in e {
      assert false;
    }
  }

  /** `Seasons.Merge`: a nil receiver adopts the incoming map. Otherwise, for each incoming
      season (in any order), the receiver season with the same rating key, if any, is merged
      with it in place; else the incoming season is stored under its own number,
      overwriting whatever was there. */
  method SeasonsMerge(s: SeasonMap, incoming: SeasonMap) returns (r: SeasonMap)
    ensures s.None? ==> r == incoming
    ensures s.Some? ==> r.Some?
    ensures SeasonEntries(s).Keys <= SeasonEntries(r).Keys <= SeasonEntries(s).Keys + SeasonEntries(incoming).Keys
    // Every season descends from a receiver or incoming season under the same number, and
    // numbers no incoming season uses keep a descendant of the receiver's season.
    ensures s.Some? ==> SeasonsFramed(SeasonEntries(s), SeasonEntries(incoming), {}, SeasonEntries(r))
    ensures s.Some? && UniqueSeasonKeys(SeasonEntries(s)) ==> UniqueSeasonKeys(SeasonEntries(r))
    ensures s.Some? && UniqueSeasonKeys(SeasonEntries(s)) ==>
              Absorbed(SeasonEntries(s), SeasonEntries(incoming), {}, SeasonEntries(r))
    // Merging a map with (a copy of) itself changes nothing.
    ensures UniqueSeasonKeys(SeasonEntries(s)) && s == incoming ==> r == s
    // Coherent maps: the union of the numbers, with matched seasons merged pairwise.
    ensures s.Some? && SeasonsCoherent(SeasonEntries(s), SeasonEntries(incoming)) ==>
              SeasonsUnioned(SeasonEntries(s), SeasonEntries(incoming), {}, SeasonEntries(r))
  {
    if s.None? {
      return incoming;
    }
    if incoming.None? {
      return s;
    }
    ghost var e, src := s.value, incoming.value;
    var m := s.value;
    var remaining := incoming.value.Keys;
    while remaining != {}
      invariant SeasonsFramed(e, src, remaining, m)
      invariant UniqueSeasonKeys(e) ==> UniqueSeasonKeys(m) && Absorbed(e, src, remaining, m)
      invariant UniqueSeasonKeys(e) && e == src ==> m == e
      invariant SeasonsCoherent(e, src) ==> SeasonsUnioned(e, src, remaining, m)
      decreases remaining
    {
      var k := Pick(remaining);
      var season := incoming.value[k];
      var ss := SeasonsFindRatingKey(Some(m), season.ratingKey);
      ghost var m0 := m;
      if ss.Some? {
        var merged, _ := SeasonMerge(m[ss.value], season);
        m := m[ss.value := merged];
      } else {
        m := m[k := season];
      }
      SeasonsFramedStep(e, src, remaining, m0, k, ss, m);
      if UniqueSeasonKeys(e) {
        AbsorbedStep(e, src, remaining, m0, k, ss, m);
        UniqueSeasonStep(src, m0, k, ss, m);
        if e == src {
          SelfStep(e, remaining, m0, k, ss, m);
        }
      }
      if SeasonsCoherent(e, src) {
        SeasonsUnionedStep(e, src, remaining, m0, k, ss, m);
      }
      remaining := remaining - {k};
    }
    r := Some(m);
  }

  /** What `Seasons.Merge` leaves when both sides are the same Go map: the same numbers and
      nil-ness; each season keeps its rating key and its timestamp never moves back; and when
      no rating key repeats, each season only has its episode map merged with itself. */
  ghost predicate SeasonsSelfMerged(s: SeasonMap, r: SeasonMap)
  {
    && (r.None? <==> s.None?)
    && SeasonEntries(r).Keys == SeasonEntries(s).Keys
    && (forall k :: k in SeasonEntries(s) ==> Descends(SeasonEntries(r)[k], SeasonEntries(s)[k]))
    && (UniqueSeasonKeys(SeasonEntries(s)) ==>
          forall k :: k in SeasonEntries(s) ==> SeasonSelfMerged(SeasonEntries(s)[k], SeasonEntries(r)[k]))
  }

  /** `Seasons.Merge` with the map aliased on both sides, as the second pass of `Show.Merge`
      runs it once the receiver has become the incoming show. Each visited season, in any
      order, is merged (as incoming) into the season the search finds for its rating key: the
      season itself, whose episode map is then merged with itself, or another season with the
      same rating key, which is merged with it as two seasons. */
  method SeasonsSelfMerge(s: SeasonMap) returns (r: SeasonMap)
    ensures SeasonsSelfMerged(s, r)
    ensures UniqueSeasonKeys(SeasonEntries(s)) ==> UniqueSeasonKeys(SeasonEntries(r))
  {
    if s.None? {
      return s;
    }
    ghost var e := s.value;
    var m := s.value;
    var remaining := m.Keys;
    forall k | k in e
      ensures SeasonSelfMerged(e[k], m[k])
    {
      SeasonSelfMergedRefl(e[k]);
    }
    while remaining != {}
      invariant remaining <= e.Keys
      invariant SeasonsSelfSoFar(e, m)
      decreases remaining
    {
      var k := Pick(remaining);
      ghost var m0 := m;
      var found;
      m, found := SeasonsSelfMergeAt(m, k);
      SeasonsSelfSoFarStep(e, m0, k, found, m);
      remaining := remaining - {k};
    }
    r := Some(m);
    assert UniqueSeasonKeys(e) ==> UniqueSeasonKeys(m);
  }

  /** The loop body of the aliased `Seasons.Merge` for key k. A miss, which cannot happen since
      the season finds at least itself, stores it back unchanged. */
  method SeasonsSelfMergeAt(m: map<int, Season>, k: int) returns (m': map<int, Season>, found: Option<int>)
    requires k in m
    ensures SeasonFoundIn(m, m[k].ratingKey, found)
    ensures m'.Keys == m.Keys
    ensures found.None? ==> m' == m
    ensures found.Some? && found.value == k ==>
              m' == m[k := m'[k]] && SeasonSelfMerged(m[k], m'[k])
    ensures found.Some? && found.value != k ==>
              && m' == m[found.value := m'[found.value]][k := m'[k]]
              && IsSeasonMerge(m[found.value], m[k], m'[found.value])
              && m'[k] == m[k].(episodes := m'[k].episodes)
  {
    var season := m[k];
    found := SeasonsFindRatingKey(Some(m), season.ratingKey);
    if found.None? {
      m' := m[k := season];
    } else if found.value == k {
      var merged := SeasonSelfMerge(season);
      m' := m[k := merged];
    } else {
      var merged, season' := SeasonMerge(m[found.value], season);
      m' := m[found.value := merged][k := season'];
    }
  }

  /** The state of the aliased `Seasons.Merge` loop over the original map `e`. */
  ghost predicate SeasonsSelfSoFar(e: map<int, Season>, m: map<int, Season>)
  {
    && m.Keys == e.Keys
    && (forall k :: k in e ==> Descends(m[k], e[k]))
    && (UniqueSeasonKeys(e) ==> forall k :: k in e ==> SeasonSelfMerged(e[k], m[k]))
  }

  lemma SeasonsSelfSoFarStep(e: map<int, Season>, m: map<int, Season>, k: int, found: Option<int>,
                             m': map<int, Season>)
    requires SeasonsSelfSoFar(e, m) && k in m
    requires SeasonFoundIn(m, m[k].ratingKey, found)
    requires m'.Keys == m.Keys
    requires found.None? ==> m' == m
    requires found.Some? && found.value == k ==> m' == m[k := m'[k]] && SeasonSelfMerged(m[k], m'[k])
    requires found.Some? && found.value != k ==>
               && m' == m[found.value := m'[found.value]][k := m'[k]]
               && IsSeasonMerge(m[found.value], m[k], m'[found.value])
               && m'[k] == m[k].(episodes := m'[k].episodes)
    ensures SeasonsSelfSoFar(e, m')
  {
    if UniqueSeasonKeys(e) {
      assert found.Some? && found.value == k;
      SeasonSelfMergedTrans(e[k], m[k], m'[k]);
    }
  }

  /** A season after `Season.SetRefreshedAt()`: it and every episode stamped with `now`. */
  function SeasonStamped(s: Season, now: Time): Season
  {
    s.(refreshedAt := now, episodes := Stamped(s.episodes, now))
  }

  /** A season map after `Seasons.SetRefreshedAt()`. */
  function SeasonsStamped(s: SeasonMap, now: Time): SeasonMap
  {
    if s.None? then None
    else Some(map k | k in s.value :: SeasonStamped(s.value[k], now))
  }

  /** `Season.SetRefreshedAt`: stamps the season, then its episodes. */
  method SeasonSetRefreshedAt(s: Season, now: Time) returns (r: Season)
    ensures r == SeasonStamped(s, now)
    ensures r.refreshedAt == now && forall k :: k in Entries(r.episodes) ==> Entries(r.episodes)[k].refreshedAt == now
  {
    r := s.(refreshedAt := now);
    var eps := EpisodesSetRefreshedAt(r.episodes, now);
    r := r.(episodes := eps);
  }

  /** `Seasons.SetRefreshedAt`: stamps every season (and its episodes); numbers stay. */
  method SeasonsSetRefreshedAt(s: SeasonMap, now: Time) returns (r: SeasonMap)
    ensures r == SeasonsStamped(s, now)
    ensures SeasonEntries(r).Keys == SeasonEntries(s).Keys && (r.None? <==> s.None?)
  {
    if s.None? {
      return None;
    }
    var m := s.value;
    var remaining := m.Keys;
    while remaining != {}
      invariant remaining <= s.value.Keys && m.Keys == s.value.Keys
      invariant forall k :: k in m ==> m[k] == (if k in remaining then s.value[k] else SeasonStamped(s.value[k], now))
      decreases remaining
    {
      var k := Pick(remaining);
      var season := SeasonSetRefreshedAt(m[k], now);
      m := m[k := season];
      remaining := remaining - {k};
    }
    assert m.Keys == SeasonsStamped(s, now).value.Keys;
    forall k | k in m
      ensures m[k] == SeasonsStamped(s, now).value[k]
    {
    }
    assert m == SeasonsStamped(s, now).value;
    r := Some(m);
  }

  /** Every season and episode of a stamped map carries `now`. */
  lemma SeasonsStampedFresh(s: SeasonMap, now: Time)
    ensures forall k :: k in SeasonEntries(SeasonsStamped(s, now)) ==>
              var season := SeasonEntries(SeasonsStamped(s, now))[k];
              season.refreshedAt == now &&
              forall n :: n in Entries(season.episodes) ==> Entries(season.episodes)[n].refreshedAt == now
  {
  }
}
