/** Episodes of a season (pkg/library/episode.go): the leaf level of the catalog tree. */
module Episodes {
  import opened Wrappers
  import opened Times
  import opened Lists

  datatype Episode = Episode(
    title: string,
    seasonNumber: int,
    guid: string,
    tvdb: int,
    contentRating: string,
    year: int,
    ratingKey: string,
    watched: bool,
    lastViewedAt: Option<Time>,
    addedAt: Time,
    updatedAt: Time,
    refreshedAt: Time,
    duration: int)

  /** Go's `Episodes`: episode number to episode; `None` is a nil map. */
  type EpisodeMap = Option<map<int, Episode>>

  /** The entries of a possibly nil map (a nil map reads as empty). */
  function Entries(e: EpisodeMap): map<int, Episode>
  {
    if e.None? then map[] else e.value
  }

  /** No two episodes of the map share a rating key. */
  ghost predicate UniqueRatingKeys(m: map<int, Episode>)
  {
    forall i, j :: i in m && j in m && m[i].ratingKey == m[j].ratingKey ==> i == j
  }

  /** Two maps agree on which rating key lives under which episode number, and neither
      repeats a rating key: then matching by rating key is matching by map key. */
  ghost predicate Coherent(a: map<int, Episode>, b: map<int, Episode>)
  {
    && UniqueRatingKeys(a)
    && UniqueRatingKeys(b)
    && forall i, j :: i in a && j in b ==> (a[i].ratingKey == b[j].ratingKey <==> i == j)
  }

  /** `Episode.Merge`: the receiver `e` becomes `ee` wholesale iff `e` is strictly older. */
  function EpisodeMerge(e: Episode, ee: Episode): (r: Episode)
    ensures e.refreshedAt < ee.refreshedAt ==> r == ee
    ensures ee.refreshedAt <= e.refreshedAt ==> r == e
    ensures r.refreshedAt == Max(e.refreshedAt, ee.refreshedAt)
  {
    if e.refreshedAt < ee.refreshedAt then ee else e
  }

  /** Merging an episode with itself changes nothing, and under distinct timestamps the
      newer episode wins whichever side it is on. */
  lemma EpisodeMergeNewerWins(a: Episode, b: Episode)
    ensures EpisodeMerge(a, a) == a
    ensures a.refreshedAt != b.refreshedAt ==> EpisodeMerge(a, b) == EpisodeMerge(b, a)
  {
  }

  /** `found` is an answer of `FindRatingKey` for `ratingKey` in `m`. */
  ghost predicate FoundIn(m: map<int, Episode>, ratingKey: string, found: Option<int>)
  {
    && (found.Some? ==> found.value in m && m[found.value].ratingKey == ratingKey)
    && (found.None? ==> forall j :: j in m ==> m[j].ratingKey != ratingKey)
  }

  /** `Episodes.FindRatingKey`: some key holding an episode with that rating key (Go iterates
      the map in an unspecified order, so any of them), or None iff there is none. */
  method EpisodesFindRatingKey(e: EpisodeMap, ratingKey: string) returns (found: Option<int>)
    ensures found.Some? ==> found.value in Entries(e) && Entries(e)[found.value].ratingKey == ratingKey
    ensures found.None? <==> forall k :: k in Entries(e) ==> Entries(e)[k].ratingKey != ratingKey
    ensures FoundIn(Entries(e), ratingKey, found)
  {
    var m := Entries(e);
    var remaining := m.Keys;
    while remaining != {}
      invariant remaining <= m.Keys
      invariant forall k :: k in m && k !in remaining ==> m[k].ratingKey != ratingKey
      decreases remaining
    {
      var k := Pick(remaining);
      if m[k].ratingKey == ratingKey {
        return Some(k);
      }
      remaining := remaining - {k};
    }
    return None;
  }

  /** The search the catalog lookups run over a season's episodes: some key whose episode
      satisfies `p` (in Go's unspecified map order), or None iff there is none. */
  method EpisodesFindWhere(e: EpisodeMap, p: Episode -> bool) returns (found: Option<int>)
    ensures found.Some? ==> found.value in Entries(e) && p(Entries(e)[found.value])
    ensures found.None? <==> forall k :: k in Entries(e) ==> !p(Entries(e)[k])
  {
    var m := Entries(e);
    var remaining := m.Keys;
    while remaining != {}
      invariant remaining <= m.Keys
      invariant forall k :: k in m && k !in remaining ==> !p(m[k])
      decreases remaining
    {
      var k := Pick(remaining);
      if p(m[k]) {
        return Some(k);
      }
      remaining := remaining - {k};
    }
    return None;
  }

  /** Incoming key k carries a rating key held neither by the receiver nor by any other
      incoming entry. */
  ghost predicate NewRatingKey(e: map<int, Episode>, incoming: map<int, Episode>, k: int)
    requires k in incoming
  {
    && (forall j :: j in e ==> e[j].ratingKey != incoming[k].ratingKey)
    && (forall j :: j in incoming && j != k ==> incoming[j].ratingKey != incoming[k].ratingKey)
  }

  /** Incoming key k carries a rating key that the receiver holds under a key no incoming
      entry can overwrite. */
  ghost predicate Anchored(e: map<int, Episode>, incoming: map<int, Episode>, k: int)
    requires k in incoming
  {
    exists j :: j in e && j !in incoming && e[j].ratingKey == incoming[k].ratingKey
  }

  /** `b` is `a` or a strictly newer episode with the same rating key. */
  ghost predicate SameOrNewer(a: Episode, b: Episode)
  {
    b == a || (b.ratingKey == a.ratingKey && a.refreshedAt < b.refreshedAt)
  }

  /** The body of the `Episodes.Merge` loop for incoming key k: a receiver episode with the same
      rating key leaves the receiver alone and merges into the incoming episode, otherwise the
      incoming episode is stored under k. */
  method MergeEpisodeAt(ghost src: map<int, Episode>, m: map<int, Episode>, upd: map<int, Episode>, k: int)
    returns (m': map<int, Episode>, upd': map<int, Episode>, found: Option<int>)
    requires k in src && k in upd && upd[k] == src[k]
    ensures MergeStep(src, m, upd, k, found, m', upd')
  {
    var episode := upd[k];
    found := EpisodesFindRatingKey(Some(m), episode.ratingKey);
    if found.Some? {
      m', upd' := m, upd[k := EpisodeMerge(episode, m[found.value])];
    } else {
      m', upd' := m[k := episode], upd;
    }
  }

  /** One iteration of the `Episodes.Merge` loop, for incoming key k: `m` is the receiver,
      `upd` the incoming map, `found` the receiver's match for the incoming rating key. */
  ghost predicate MergeStep(src: map<int, Episode>, m: map<int, Episode>, upd: map<int, Episode>, k: int,
                            found: Option<int>, m': map<int, Episode>, upd': map<int, Episode>)
  {
    && k in src && k in upd
    && upd[k] == src[k]
    && FoundIn(m, src[k].ratingKey, found)
    && m' == (if found.Some? then m else m[k := src[k]])
    && upd' == (if found.Some? then upd[k := EpisodeMerge(src[k], m[found.value])] else upd)
  }

  /** What the loop keeps about the receiver `m` and the incoming map `upd` once the keys
      outside `rem` are processed, starting from receiver `e` and incoming `src`. */
  ghost predicate Framed(e: map<int, Episode>, src: map<int, Episode>, rem: set<int>,
                         m: map<int, Episode>, upd: map<int, Episode>)
  {
    && rem <= src.Keys
    && e.Keys <= m.Keys <= e.Keys + (src.Keys - rem)
    && upd.Keys == src.Keys
    && (forall j :: j in m ==> (j in e && m[j] == e[j]) || (j in src && j !in rem && m[j] == src[j]))
    && (forall j :: j in e && (j !in src || j in rem) ==> m[j] == e[j])
    && (forall k :: k in rem ==> upd[k] == src[k])
    && (forall k :: k in src ==> SameOrNewer(src[k], upd[k]))
  }

  /** Where the processed incoming keys ended up. */
  ghost predicate Placed(e: map<int, Episode>, src: map<int, Episode>, rem: set<int>, m: map<int, Episode>)
  {
    && (forall k :: k in src && k !in rem && NewRatingKey(e, src, k) ==> k in m && m[k] == src[k])
    && (forall k :: k in src && k !in rem && Anchored(e, src, k) ==>
          (k in e ==> k in m && m[k] == e[k]) && (k !in e ==> k !in m))
  }

  /** The loop state for coherent maps: the union so far, and the merged incoming episodes. */
  ghost predicate Unioned(e: map<int, Episode>, src: map<int, Episode>, rem: set<int>,
                          m: map<int, Episode>, upd: map<int, Episode>)
  {
    && m.Keys == e.Keys + (src.Keys - rem)
    && (forall j :: j in m ==> m[j] == (if j in e then e[j] else src[j]))
    && (forall k :: k in src && k !in rem ==>
          (k in upd && upd[k] == (if k in e then EpisodeMerge(src[k], e[k]) else src[k])))
  }

  lemma FramedStep(e: map<int, Episode>, src: map<int, Episode>, rem: set<int>, m: map<int, Episode>,
                   upd: map<int, Episode>, k: int, found: Option<int>, m': map<int, Episode>, upd': map<int, Episode>)
    requires Framed(e, src, rem, m, upd) && k in rem
    requires MergeStep(src, m, upd, k, found, m', upd')
    ensures Framed(e, src, rem - {k}, m', upd')
  {
    if found.Some? {
      assert SameOrNewer(src[k], upd'[k]);
    }
  }

  lemma PlacedStep(e: map<int, Episode>, src: map<int, Episode>, rem: set<int>, m: map<int, Episode>,
                   upd: map<int, Episode>, k: int, found: Option<int>, m': map<int, Episode>, upd': map<int, Episode>)
    requires Framed(e, src, rem, m, upd) && Placed(e, src, rem, m) && k in rem
    requires MergeStep(src, m, upd, k, found, m', upd')
    ensures Placed(e, src, rem - {k}, m')
  {
    if NewRatingKey(e, src, k) {
      assert forall j :: j in m ==> m[j].ratingKey != src[k].ratingKey;
    }
    if Anchored(e, src, k) {
      var j :| j in e && j !in src && e[j].ratingKey == src[k].ratingKey;
      assert m[j] == e[j];
    }
  }

  lemma UniqueStep(src: map<int, Episode>, m: map<int, Episode>, upd: map<int, Episode>, k: int,
                   found: Option<int>, m': map<int, Episode>, upd': map<int, Episode>)
    requires UniqueRatingKeys(m)
    requires MergeStep(src, m, upd, k, found, m', upd')
    ensures UniqueRatingKeys(m')
  {
  }

  lemma UnionedStep(e: map<int, Episode>, src: map<int, Episode>, rem: set<int>, m: map<int, Episode>,
                    upd: map<int, Episode>, k: int, found: Option<int>, m': map<int, Episode>, upd': map<int, Episode>)
    requires Coherent(e, src)
    requires Framed(e, src, rem, m, upd) && Unioned(e, src, rem, m, upd) && k in rem
    requires MergeStep(src, m, upd, k, found, m', upd')
    ensures Unioned(e, src, rem - {k}, m', upd')
  {
    if found.Some? {
      var j := found.value;
      if j !in e {
        assert false;
      }
      assert e[j].ratingKey == src[k].ratingKey;
    } else if k in e {
      assert false;
    }
  }

  /** `Episodes.Merge`: a nil receiver adopts the incoming map. Otherwise, for each incoming
      entry under key k (in any order): if the receiver already holds its rating key, the
      receiver is left alone and only the INCOMING episode is merged with the receiver's
      (`episode.Merge(ee)`); else the incoming episode is stored under k, overwriting
      whatever was there. The second result is the incoming map after those updates. */
  method EpisodesMerge(e: EpisodeMap, incoming: EpisodeMap) returns (r: EpisodeMap, incoming': EpisodeMap)
    ensures e.None? ==> r == incoming && incoming' == incoming
    ensures e.Some? ==> r.Some?
    ensures incoming'.None? <==> incoming.None?
    ensures Entries(incoming').Keys == Entries(incoming).Keys
    ensures Entries(e).Keys <= Entries(r).Keys <= Entries(e).Keys + Entries(incoming).Keys
    // The receiver's episodes are never modified: each entry is the old one or an inserted one.
    ensures e.Some? ==> forall k :: k in Entries(r) ==>
              (k in Entries(e) && Entries(r)[k] == Entries(e)[k]) ||
              (k in Entries(incoming) && Entries(r)[k] == Entries(incoming)[k])
    ensures forall k :: k in Entries(e) && k !in Entries(incoming) ==> Entries(r)[k] == Entries(e)[k]
    // An incoming episode is updated only to a strictly newer episode with its rating key.
    ensures forall k :: k in Entries(incoming) ==> SameOrNewer(Entries(incoming)[k], Entries(incoming')[k])
    // A brand-new rating key is always stored under its incoming key; a rating key the
    // receiver holds under a key nobody overwrites adds nothing.
    ensures e.Some? ==> Placed(Entries(e), Entries(incoming), {}, Entries(r))
    // An insertion happens only for an absent rating key, so a receiver without repeated
    // rating keys keeps none.
    ensures e.Some? && UniqueRatingKeys(Entries(e)) ==> UniqueRatingKeys(Entries(r))
    // Merging a map with (a copy of) itself changes nothing.
    ensures e == incoming ==> r == e
    // Coherent maps: the result is the union, receiver entries winning, and each incoming
    // episode is merged with the receiver's episode under the same key.
    ensures Coherent(Entries(e), Entries(incoming)) ==> Entries(r) == Entries(incoming) + Entries(e)
    ensures e.Some? && Coherent(Entries(e), Entries(incoming)) ==> forall k :: k in Entries(incoming) ==>
              Entries(incoming')[k] ==
                (if k in Entries(e) then EpisodeMerge(Entries(incoming)[k], Entries(e)[k]) else Entries(incoming)[k])
  {
    if e.None? {
      return incoming, incoming;
    }
    if incoming.None? {
      return e, incoming;
    }
    ghost var e0, src := e.value, incoming.value;
    var m, upd := e.value, incoming.value;
    var remaining := incoming.value.Keys;
    MergeLoopEntry(e0, src);
    while remaining != {}
      invariant Framed(e0, src, remaining, m, upd)
      invariant Placed(e0, src, remaining, m)
      invariant UniqueRatingKeys(e0) ==> UniqueRatingKeys(m)
      invariant e0 == src ==> m == e0
      invariant Coherent(e0, src) ==> Unioned(e0, src, remaining, m, upd)
      decreases remaining
    {
      var k := Pick(remaining);
      ghost var m0, upd0 := m, upd;
      var ee;
      m, upd, ee := MergeEpisodeAt(src, m, upd, k);
      FramedStep(e0, src, remaining, m0, upd0, k, ee, m, upd);
      PlacedStep(e0, src, remaining, m0, upd0, k, ee, m, upd);
      if UniqueRatingKeys(e0) {
        UniqueStep(src, m0, upd0, k, ee, m, upd);
      }
      if Coherent(e0, src) {
        UnionedStep(e0, src, remaining, m0, upd0, k, ee, m, upd);
      }
      remaining := remaining - {k};
    }
    MergeLoopExit(e0, src, m, upd);
    r, incoming' := Some(m), Some(upd);
  }

  /** The `Episodes.Merge` loop invariants hold before the first incoming key. */
  lemma MergeLoopEntry(e: map<int, Episode>, src: map<int, Episode>)
    ensures Framed(e, src, src.Keys, e, src) && Placed(e, src, src.Keys, e)
    ensures Coherent(e, src) ==> Unioned(e, src, src.Keys, e, src)
  {
  }

  /** What the `Episodes.Merge` loop invariants say once every incoming key is processed. */
  lemma MergeLoopExit(e: map<int, Episode>, src: map<int, Episode>, m: map<int, Episode>, upd: map<int, Episode>)
    requires Framed(e, src, {}, m, upd)
    requires Coherent(e, src) ==> Unioned(e, src, {}, m, upd)
    ensures upd.Keys == src.Keys && e.Keys <= m.Keys <= e.Keys + src.Keys
    ensures forall k :: k in m ==> (k in e && m[k] == e[k]) || (k in src && m[k] == src[k])
    ensures forall k :: k in e && k !in src ==> m[k] == e[k]
    ensures forall k :: k in src ==> SameOrNewer(src[k], upd[k])
    ensures Coherent(e, src) ==> m == src + e
    ensures Coherent(e, src) ==> forall k :: k in src ==> upd[k] == (if k in e then EpisodeMerge(src[k], e[k]) else src[k])
  {
    if Coherent(e, src) {
      assert m.Keys == (src + e).Keys;
      forall j | j in m
        ensures m[j] == (src + e)[j]
      {
      }
    }
  }

  /** `v` is one of the episodes of `m`. */
  ghost predicate IsEpisodeOf(m: map<int, Episode>, v: Episode)
  {
    exists j :: j in m && m[j] == v
  }

  /** What `Episodes.Merge` leaves when both sides are the same Go map: the same numbers and
      nil-ness; each episode is an episode of the map with its rating key, the old one or a
      strictly newer one; and nothing changes when no rating key repeats. */
  ghost predicate SelfMerged(e: EpisodeMap, r: EpisodeMap)
  {
    && (r.None? <==> e.None?)
    && Entries(r).Keys == Entries(e).Keys
    && (forall k :: k in Entries(e) ==> SameOrNewer(Entries(e)[k], Entries(r)[k]))
    && (forall k {:trigger IsEpisodeOf(Entries(e), Entries(r)[k])} ::
          k in Entries(e) ==> IsEpisodeOf(Entries(e), Entries(r)[k]))
    && (UniqueRatingKeys(Entries(e)) ==> r == e)
  }

  /** `Episodes.Merge` with the map aliased on both sides, as the second pass of `Season.Merge`
      runs it once the receiver has become the incoming season. Each visited episode, in any
      order, is merged with the episode the search finds for its rating key in the map as it
      now stands: itself, or another episode with the same rating key under another number. */
  method EpisodesSelfMerge(e: EpisodeMap) returns (r: EpisodeMap)
    ensures SelfMerged(e, r)
  {
    if e.None? {
      return e;
    }
    ghost var e0 := e.value;
    // `from[k]` is the number of the original episode that now sits under k.
    ghost var from := map k | k in e0 :: k;
    var m := e.value;
    var remaining := m.Keys;
    while remaining != {}
      invariant remaining <= e0.Keys
      invariant SelfSoFar(e0, m, from)
      decreases remaining
    {
      var k := Pick(remaining);
      ghost var m0, from0 := m, from;
      var ee;
      m, ee := SelfMergeAt(m, k);
      if ee.Some? && m0[k].refreshedAt < m0[ee.value].refreshedAt {
        from := from[k := from[ee.value]];
      }
      SelfSoFarStep(e0, m0, from0, k, ee, m, from);
      remaining := remaining - {k};
    }
    SelfSoFarDone(e0, m, from);
    r := Some(m);
  }

  /** The loop body of the aliased `Episodes.Merge` for key k: the episode under k is merged with
      the one the search finds for its rating key; a miss, which cannot happen since the episode
      finds at least itself, stores it back unchanged. */
  method SelfMergeAt(m: map<int, Episode>, k: int) returns (m': map<int, Episode>, found: Option<int>)
    requires k in m
    ensures FoundIn(m, m[k].ratingKey, found)
    ensures m' == (if found.Some? then m[k := EpisodeMerge(m[k], m[found.value])] else m)
  {
    var episode := m[k];
    found := EpisodesFindRatingKey(Some(m), episode.ratingKey);
    if found.Some? {
      m' := m[k := EpisodeMerge(episode, m[found.value])];
    } else {
      m' := m[k := episode];
    }
  }

  /** The state of the aliased `Episodes.Merge` loop over the original map `e0`: `from[k]` is the
      number of the original episode now under k, which is the old one or a strictly newer one
      with its rating key. */
  ghost predicate SelfSoFar(e0: map<int, Episode>, m: map<int, Episode>, from: map<int, int>)
  {
    && m.Keys == e0.Keys && from.Keys == e0.Keys
    && (forall k :: k in e0 ==> SameOrNewer(e0[k], m[k]))
    && (forall k {:trigger from[k]} :: k in from ==> from[k] in e0 && m[k] == e0[from[k]])
    && (UniqueRatingKeys(e0) ==> m == e0)
  }

  lemma SelfSoFarStep(e0: map<int, Episode>, m: map<int, Episode>, from: map<int, int>, k: int,
                      found: Option<int>, m': map<int, Episode>, from': map<int, int>)
    requires SelfSoFar(e0, m, from) && k in m
    requires FoundIn(m, m[k].ratingKey, found)
    requires m' == (if found.Some? then m[k := EpisodeMerge(m[k], m[found.value])] else m)
    requires from' == (if found.Some? && m[k].refreshedAt < m[found.value].refreshedAt
                       then from[k := from[found.value]] else from)
    ensures SelfSoFar(e0, m', from')
  {
    if found.Some? {
      var j := found.value;
      if m[k].refreshedAt < m[j].refreshedAt {
        assert m'[k] == e0[from[j]];
      }
      if UniqueRatingKeys(e0) {
        assert j == k;
      }
    }
  }

  lemma SelfSoFarDone(e0: map<int, Episode>, m: map<int, Episode>, from: map<int, int>)
    requires SelfSoFar(e0, m, from)
    ensures SelfMerged(Some(e0), Some(m))
  {
    SelfSoFarFrom(e0, m, from);
  }

  lemma SelfSoFarFrom(e0: map<int, Episode>, m: map<int, Episode>, from: map<int, int>)
    requires SelfSoFar(e0, m, from)
    ensures forall k :: k in e0 ==> IsEpisodeOf(e0, m[k])
  {
    forall k | k in e0
      ensures IsEpisodeOf(e0, m[k])
    {
      var j := from[k];
      assert j in e0 && e0[j] == m[k];
    }
  }

  /** A map is a self-merge of itself. */
  lemma SelfMergedRefl(a: EpisodeMap)
    ensures SelfMerged(a, a)
  {
    forall k | k in Entries(a)
      ensures IsEpisodeOf(Entries(a), Entries(a)[k])
    {
    }
  }

  /** Two self-merges in a row are one. */
  lemma SelfMergedTrans(a: EpisodeMap, b: EpisodeMap, c: EpisodeMap)
    requires SelfMerged(a, b) && SelfMerged(b, c)
    ensures SelfMerged(a, c)
  {
    var ea, eb, ec := Entries(a), Entries(b), Entries(c);
    forall k | k in ea
      ensures SameOrNewer(ea[k], ec[k]) && IsEpisodeOf(ea, ec[k])
    {
      assert SameOrNewer(ea[k], eb[k]) && SameOrNewer(eb[k], ec[k]);
      assert IsEpisodeOf(eb, ec[k]);
      var j :| j in eb && eb[j] == ec[k];
      assert IsEpisodeOf(ea, eb[j]);
    }
    if UniqueRatingKeys(ea) {
      assert b == a;
    }
  }

  /** The map after `Episodes.SetRefreshedAt()`: every episode stamped with `now`. */
  function Stamped(e: EpisodeMap, now: Time): EpisodeMap
  {
    if e.None? then None
    else Some(map k | k in e.value :: e.value[k].(refreshedAt := now))
  }

  /** `Episodes.SetRefreshedAt` (with `Episode.SetRefreshedAt` inlined): stamps each episode
      with `now`; numbers, nil-ness and every other field stay. */
  method EpisodesSetRefreshedAt(e: EpisodeMap, now: Time) returns (r: EpisodeMap)
    ensures r == Stamped(e, now)
    ensures Entries(r).Keys == Entries(e).Keys && (r.None? <==> e.None?)
    ensures forall k :: k in Entries(r) ==> Entries(r)[k].refreshedAt == now
  {
    if e.None? {
      return None;
    }
    var m := e.value;
    var remaining := m.Keys;
    while remaining != {}
      invariant remaining <= e.value.Keys && m.Keys == e.value.Keys
      invariant forall k :: k in m ==> m[k] == (if k in remaining then e.value[k] else e.value[k].(refreshedAt := now))
      decreases remaining
    {
      var k := Pick(remaining);
      m := m[k := m[k].(refreshedAt := now)];
      remaining := remaining - {k};
    }
    assert m.Keys == Stamped(e, now).value.Keys;
    forall k | k in m
      ensures m[k] == Stamped(e, now).value[k]
    {
    }
    assert m == Stamped(e, now).value;
    r := Some(m);
  }
}
