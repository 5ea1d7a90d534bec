/** Provider ids taken from a metadata item's alternate GUIDs (internal/plex/api/models.go),
    such as "tvdb://81189" or "tmdb://1396", and the integer parser they go through. */
module Api {
  import opened Wrappers
  import opened Json

  /** An alternate GUID of a metadata item. */
  datatype AltGuid = AltGuid(id: string)

  type AltGuids = seq<AltGuid>

  /** The fields of a server metadata item that the catalog builders read; times are Unix
      seconds, 0 meaning unset. */
  datatype Metadata = Metadata(
    addedAt: int,
    contentRating: string,
    duration: int,
    guid: string,
    altGuids: AltGuids,
    index: int,
    key: string,
    lastViewedAt: int,
    audienceRating: real,
    userRating: real,
    ratingKey: string,
    summary: string,
    title: string,
    mtype: string,
    updatedAt: int,
    viewCount: int,
    year: int)

  predicate IsDigit(c: char)
  {
    '0' <= c <= '9'
  }

  /** The value of a string of decimal digits, most significant first. */
  function DecimalValue(s: string): (r: nat)
    requires forall i :: 0 <= i < |s| ==> IsDigit(s[i])
    decreases |s|
  {
    if s == [] then 0
    else
      assert IsDigit(s[|s| - 1]);
      DecimalValue(s[..|s| - 1]) * 10 + (s[|s| - 1] as int - '0' as int)
  }

  /** `strconv.Atoi`: an optional sign and at least one decimal digit, in the range of a 64-bit
      int; anything else is an error. */
  function Atoi(s: string): (r: Option<int>)
    ensures r.Some? ==> MinInt <= r.value <= MaxInt
    ensures r.Some? ==> s != [] && forall i :: 0 <= i < |s| ==> IsDigit(s[i]) || (i == 0 && (s[0] == '+' || s[0] == '-'))
  {
    if s == [] then None
    else
      var neg := s[0] == '-';
      var digits := if s[0] == '+' || s[0] == '-' then s[1..] else s;
      if digits == [] || exists i :: 0 <= i < |digits| && !IsDigit(digits[i]) then None
      else
        var v: int := DecimalValue(digits);
        var n := if neg then -v else v;
        if MinInt <= n <= MaxInt then Some(n) else None
  }

  /** Decimal digits of a natural number, without leading zeros. */
  function DecimalString(n: nat): (r: string)
    ensures r != [] && forall i :: 0 <= i < |r| ==> IsDigit(r[i])
  {
    var d := [('0' as int + n % 10) as char];
    if n < 10 then d else DecimalString(n / 10) + d
  }

  lemma {:induction false} DecimalRoundTrip(n: nat)
    ensures DecimalValue(DecimalString(n)) == n
  {
    var s := DecimalString(n);
    if n >= 10 {
      DecimalRoundTrip(n / 10);
      assert s[..|s| - 1] == DecimalString(n / 10);
    }
  }

  /** `Atoi` reads back what `DecimalString` writes, for every non-negative 64-bit int. */
  lemma AtoiRoundTrip(n: nat)
    requires n <= MaxInt
    ensures Atoi(DecimalString(n)) == Some(n)
  {
    DecimalRoundTrip(n);
  }

  /** The index of the first alternate GUID at least four characters long that starts with
      `prefix`. */
  function FirstPrefixed(ag: AltGuids, prefix: string): (r: Option<nat>)
    requires |prefix| == 4
    ensures r.Some? ==> r.value < |ag| && |ag[r.value].id| >= 4 && ag[r.value].id[..4] == prefix
    ensures r.Some? ==> forall i :: 0 <= i < r.value ==> !(|ag[i].id| >= 4 && ag[i].id[..4] == prefix)
    ensures r.None? <==> forall i :: 0 <= i < |ag| ==> !(|ag[i].id| >= 4 && ag[i].id[..4] == prefix)
  {
    if ag == [] then None
    else if |ag[0].id| >= 4 && ag[0].id[..4] == prefix then Some(0)
    else match FirstPrefixed(ag[1..], prefix)
      case None => None
      case Some(i) => Some(i + 1)
  }

  /** The id the lookup slices from index 7 is long enough: a shorter one would make Go panic. */
  predicate Sliceable(ag: AltGuids, prefix: string)
    requires |prefix| == 4
  {
    FirstPrefixed(ag, prefix).Some? ==> |ag[FirstPrefixed(ag, prefix).value].id| >= 7
  }

  /** The provider id `AltGUIDs.TVDB`/`TMDB` promise: decided by the first prefixed GUID alone,
      0 when there is none or when its text after index 7 is not an integer. */
  function ProviderIdOf(ag: AltGuids, prefix: string): (r: int)
    requires |prefix| == 4 && Sliceable(ag, prefix)
    ensures FirstPrefixed(ag, prefix).None? ==> r == 0
    ensures FirstPrefixed(ag, prefix).Some? ==>
              var id := ag[FirstPrefixed(ag, prefix).value].id;
              r == (if Atoi(id[7..]).Some? then Atoi(id[7..]).value else 0)
  {
    match FirstPrefixed(ag, prefix)
    case None => 0
    case Some(i) =>
      match Atoi(ag[i].id[7..])
      case None => 0
      case Some(n) => n
  }

  /** The loop `AltGUIDs.TVDB` and `AltGUIDs.TMDB` share, for the given four-letter prefix. */
  method ProviderId(ag: AltGuids, prefix: string) returns (id: int)
    requires |prefix| == 4 && Sliceable(ag, prefix)
    ensures id == ProviderIdOf(ag, prefix)
  {
    var i := 0;
    while i < |ag|
      invariant 0 <= i <= |ag|
      invariant forall j :: 0 <= j < i ==> !(|ag[j].id| >= 4 && ag[j].id[..4] == prefix)
    {
      if |ag[i].id| >= 4 && ag[i].id[..4] == prefix {
        var n := Atoi(ag[i].id[7..]);
        if n.None? {
          return 0;
        }
        return n.value;
      }
      i := i + 1;
    }
    return 0;
  }

  /** `AltGUIDs.TVDB`. */
  method Tvdb(ag: AltGuids) returns (id: int)
    requires Sliceable(ag, "tvdb")
    ensures id == ProviderIdOf(ag, "tvdb")
  {
    id := ProviderId(ag, "tvdb");
  }

  /** `AltGUIDs.TMDB`. */
  method Tmdb(ag: AltGuids) returns (id: int)
    requires Sliceable(ag, "tmdb")
    ensures id == ProviderIdOf(ag, "tmdb")
  {
    id := ProviderId(ag, "tmdb");
  }

  /** For "tvdb://N" (and "tmdb://N") the lookup yields N. */
  lemma ProviderIdRoundTrip(prefix: string, n: nat, rest: AltGuids)
    requires |prefix| == 4 && n <= MaxInt
    ensures Sliceable([AltGuid(prefix + "://" + DecimalString(n))] + rest, prefix)
    ensures ProviderIdOf([AltGuid(prefix + "://" + DecimalString(n))] + rest, prefix) == n
  {
    var id := prefix + "://" + DecimalString(n);
    assert id[..4] == prefix;
    assert id[7..] == DecimalString(n);
    AtoiRoundTrip(n);
  }

  /** Only the first prefixed GUID counts: a non-numeric one yields 0 even when a later one is
      well formed. */
  lemma FirstPrefixedDecides(prefix: string, bad: string, n: nat)
    requires |prefix| == 4 && |bad| >= 7 && bad[..4] == prefix && Atoi(bad[7..]).None? && n <= MaxInt
    ensures Sliceable([AltGuid(bad), AltGuid(prefix + "://" + DecimalString(n))], prefix)
    ensures ProviderIdOf([AltGuid(bad), AltGuid(prefix + "://" + DecimalString(n))], prefix) == 0
  {
    var ag := [AltGuid(bad), AltGuid(prefix + "://" + DecimalString(n))];
    assert FirstPrefixed(ag, prefix) == Some(0);
  }

  /** The search passes over GUIDs that do not carry the prefix. */
  lemma {:induction false} FirstPrefixedSkips(prefix: string, skipped: AltGuids, ag: AltGuids)
    requires |prefix| == 4
    requires forall i :: 0 <= i < |skipped| ==> |skipped[i].id| < 4 || skipped[i].id[..4] != prefix
    ensures FirstPrefixed(skipped + ag, prefix)
         == (if FirstPrefixed(ag, prefix).None? then None else Some(FirstPrefixed(ag, prefix).value + |skipped|))
    decreases |skipped|
  {
    if skipped != [] {
      assert (skipped + ag)[0] == skipped[0];
      assert (skipped + ag)[1..] == skipped[1..] + ag;
      FirstPrefixedSkips(prefix, skipped[1..], ag);
    } else {
      assert skipped + ag == ag;
    }
  }

  /** GUIDs shorter than four characters, and GUIDs with another prefix, are skipped. */
  lemma OtherGuidsSkipped(prefix: string, skipped: AltGuids, ag: AltGuids)
    requires |prefix| == 4
    requires forall i :: 0 <= i < |skipped| ==> |skipped[i].id| < 4 || skipped[i].id[..4] != prefix
    requires Sliceable(ag, prefix)
    ensures Sliceable(skipped + ag, prefix) && ProviderIdOf(skipped + ag, prefix) == ProviderIdOf(ag, prefix)
  {
    FirstPrefixedSkips(prefix, skipped, ag);
    if FirstPrefixed(ag, prefix).Some? {
      var i := FirstPrefixed(ag, prefix).value;
      assert (skipped + ag)[i + |skipped|] == ag[i];
    }
  }
}
