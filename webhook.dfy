/** Webhooks (pkg/plex/webhook.go; the older copies plex/webhook.go and plex/webhooks_setup.go):
    the table of event handlers with its six legal event names, and the edits made to the
    server's list of webhook URLs. */
module Webhooks {
  import opened Wrappers

  const MediaPlay: string := "media.play"
  const MediaPause: string := "media.pause"
  const MediaResume: string := "media.resume"
  const MediaStop: string := "media.stop"
  const MediaScrobble: string := "media.scrobble"
  const MediaRate: string := "media.rate"

  /** The six event names the server sends and the table accepts. */
  const EventNames: set<string> := {MediaPlay, MediaPause, MediaResume, MediaStop, MediaScrobble, MediaRate}

  /** The `switch` of `newWebhookEvent`. */
  predicate IsEventName(name: string)
  {
    name == MediaPlay || name == MediaPause || name == MediaResume ||
    name == MediaStop || name == MediaScrobble || name == MediaRate
  }

  lemma EventNamesAreLegal(name: string)
    ensures IsEventName(name) <==> name in EventNames
  {
  }

  /** An event callback: the do-nothing handler `NewWebhook` installs, or a caller's function,
      identified by a number. */
  datatype Handler = Noop | Callback(id: nat)

  /** The table `NewWebhook` builds: every legal name bound to the no-op handler. */
  function InitialEvents(): (r: map<string, Handler>)
    ensures r.Keys == EventNames
    ensures forall name :: name in r ==> r[name] == Noop
  {
    map name | name in EventNames :: Noop
  }

  /** The handler lookup: the function registered under the event's name, if any. */
  function Dispatch(events: map<string, Handler>, name: string): (r: Option<Handler>)
    ensures r.Some? <==> name in events
    ensures r.Some? ==> r.value == events[name]
  {
    if name in events then Some(events[name]) else None
  }

  /** In a table whose keys are the six names, an event finds a handler exactly when its name is
      legal. */
  lemma DispatchFindsLegal(events: map<string, Handler>, name: string)
    requires events.Keys == EventNames
    ensures Dispatch(events, name).Some? <==> IsEventName(name)
  {
  }

  /** The handler table. */
  class Webhook {
    var events: map<string, Handler>
    var port: int
    var ips: seq<string>

    /** The table keeps exactly the six legal names. */
    predicate Valid()
      reads this
    {
      events.Keys == EventNames
    }

    /** `NewWebhook`. */
    constructor (port: int, ips: seq<string>)
      ensures events == InitialEvents() && this.port == port && this.ips == ips
      ensures Valid()
    {
      events := InitialEvents();
      this.port := port;
      this.ips := ips;
    }

    /** `newWebhookEvent`: a legal name replaces only its own entry; any other name is
        refused with an error and the table is left alone. */
    method NewWebhookEvent(name: string, onEvent: Handler) returns (err: Option<string>)
      modifies this
      ensures IsEventName(name) ==> err.None? && events == old(events)[name := onEvent]
      ensures !IsEventName(name) ==> err == Some("invalid event name") && events == old(events)
      ensures port == old(port) && ips == old(ips)
      ensures old(Valid()) ==> Valid()
    {
      if !IsEventName(name) {
        return Some("invalid event name");
      }
      events := events[name := onEvent];
      return None;
    }

    method OnPlay(fn: Handler) returns (err: Option<string>)
      modifies this
      ensures err.None? && events == old(events)[MediaPlay := fn] && port == old(port) && ips == old(ips)
      ensures old(Valid()) ==> Valid()
    {
      err := NewWebhookEvent(MediaPlay, fn);
    }

    method OnPause(fn: Handler) returns (err: Option<string>)
      modifies this
      ensures err.None? && events == old(events)[MediaPause := fn] && port == old(port) && ips == old(ips)
      ensures old(Valid()) ==> Valid()
    {
      err := NewWebhookEvent(MediaPause, fn);
    }

    method OnResume(fn: Handler) returns (err: Option<string>)
      modifies this
      ensures err.None? && events == old(events)[MediaResume := fn] && port == old(port) && ips == old(ips)
      ensures old(Valid()) ==> Valid()
    {
      err := NewWebhookEvent(MediaResume, fn);
    }

    method OnStop(fn: Handler) returns (err: Option<string>)
      modifies this
      ensures err.None? && events == old(events)[MediaStop := fn] && port == old(port) && ips == old(ips)
      ensures old(Valid()) ==> Valid()
    {
      err := NewWebhookEvent(MediaStop, fn);
    }

    method OnScrobble(fn: Handler) returns (err: Option<string>)
      modifies this
      ensures err.None? && events == old(events)[MediaScrobble := fn] && port == old(port) && ips == old(ips)
      ensures old(Valid()) ==> Valid()
    {
      err := NewWebhookEvent(MediaScrobble, fn);
    }

    method OnRate(fn: Handler) returns (err: Option<string>)
      modifies this
      ensures err.None? && events == old(events)[MediaRate := fn] && port == old(port) && ips == old(ips)
      ensures old(Valid()) ==> Valid()
    {
      err := NewWebhookEvent(MediaRate, fn);
    }
  }

  /** Registering a handler keeps the table's keys, and the new handler is what the event
      dispatches to. */
  lemma RegisterThenDispatch(events: map<string, Handler>, name: string, h: Handler, other: string)
    requires events.Keys == EventNames && IsEventName(name)
    ensures events[name := h].Keys == EventNames
    ensures Dispatch(events[name := h], name) == Some(h)
    ensures other != name ==> Dispatch(events[name := h], other) == Dispatch(events, other)
  {
  }

  // ---- The server's webhook list ------------------------------------------------------

  /** One entry of the server's webhook list response. */
  datatype HookEntry = HookEntry(url: string)

  /** `getWebhooks`: the URLs of the response, in order, or the request's error. */
  method GetWebhooks(resp: Result<seq<HookEntry>>) returns (r: Result<seq<string>>)
    ensures resp.Err? ==> r == Err(resp.message)
    ensures resp.Ok? ==> (r.Ok? && |r.value| == |resp.value| &&
                          forall i :: 0 <= i < |resp.value| ==> r.value[i] == resp.value[i].url)
  {
    if resp.Err? {
      return Err(resp.message);
    }
    var webhooks: seq<string> := [];
    var i := 0;
    while i < |resp.value|
      invariant 0 <= i <= |resp.value| && |webhooks| == i
      invariant forall k :: 0 <= k < i ==> webhooks[k] == resp.value[k].url
    {
      webhooks := webhooks + [resp.value[i].url];
      i := i + 1;
    }
    return Ok(webhooks);
  }

  /** The `exists` loop of `ServeWebhook`; it does not stop at the first match. */
  method HookExists(hooks: seq<string>, hookUrl: string) returns (found: bool)
    ensures found <==> hookUrl in hooks
  {
    found := false;
    var i := 0;
    while i < |hooks|
      invariant 0 <= i <= |hooks|
      invariant found <==> hookUrl in hooks[..i]
    {
      if hooks[i] == hookUrl {
        found := true;
      }
      assert hooks[..i + 1] == hooks[..i] + [hooks[i]];
      i := i + 1;
    }
    assert hooks[..i] == hooks;
  }

  /** `addWebhook`: the fetched list with the URL appended at the end, which is then posted;
      a failed fetch is returned as is. */
  function AddWebhook(current: Result<seq<string>>, webhookUrl: string): (r: Result<seq<string>>)
    ensures current.Err? ==> r == current
    ensures current.Ok? ==> (r.Ok? && |r.value| == |current.value| + 1 &&
                             r.value[..|current.value|] == current.value && r.value[|current.value|] == webhookUrl)
  {
    match current
    case Err(e) => Err(e)
    case Ok(hooks) => Ok(hooks + [webhookUrl])
  }

  /** One address's step of `ServeWebhook`, given the list `first` that its own fetch returns
      and the list `second` that the fetch inside `addWebhook` returns: a failed first fetch
      is the error the code panics with; a registered URL posts nothing; otherwise the result
      is `addWebhook`'s over the second fetch, its error or the list it posts. */
  method ServeHook(first: Result<seq<string>>, second: Result<seq<string>>, hookUrl: string)
    returns (r: Result<Option<seq<string>>>)
    ensures first.Err? ==> r == Err(first.message)
    ensures first.Ok? && hookUrl in first.value ==> r == Ok(None)
    ensures first.Ok? && hookUrl !in first.value && second.Err? ==> r == Err(second.message)
    ensures first.Ok? && hookUrl !in first.value && second.Ok? ==> r == Ok(Some(second.value + [hookUrl]))
    // When nothing changed the list between the two fetches, the posted list holds the URL
    // exactly once.
    ensures second == first && r.Ok? && r.value.Some? ==> multiset(r.value.value)[hookUrl] == 1
  {
    if first.Err? {
      return Err(first.message);
    }
    var found := HookExists(first.value, hookUrl);
    if found {
      return Ok(None);
    }
    var added := AddWebhook(second, hookUrl);
    if added.Err? {
      return Err(added.message);
    }
    return Ok(Some(added.value));
  }

  /** The list with the first entry equal to `x` removed. */
  function RemoveFirst(s: seq<string>, x: string): (r: seq<string>)
    decreases |s|
  {
    if s == [] then []
    else if s[0] == x then s[1..]
    else [s[0]] + RemoveFirst(s[1..], x)
  }

  /** The splice loop of `removeWebhook`, which stops after the first match. */
  method RemoveHook(hooks: seq<string>, webhookUrl: string) returns (r: seq<string>)
    ensures r == RemoveFirst(hooks, webhookUrl)
  {
    r := hooks;
    var i := 0;
    while i < |r|
      invariant 0 <= i <= |r| && r == hooks
      invariant webhookUrl !in hooks[..i]
      invariant RemoveFirst(hooks, webhookUrl) == hooks[..i] + RemoveFirst(hooks[i..], webhookUrl)
    {
      if r[i] == webhookUrl {
        r := r[..i] + r[i + 1..];
        return;
      }
      assert hooks[i..][1..] == hooks[i + 1..];
      assert hooks[..i + 1] == hooks[..i] + [hooks[i]];
      i := i + 1;
    }
    assert hooks[..i] == hooks;
  }

  /** `removeWebhook`: the fetched list without the URL's first occurrence, which is then
      posted; a failed fetch is returned as is. */
  method RemoveWebhook(current: Result<seq<string>>, webhookUrl: string) returns (r: Result<seq<string>>)
    ensures current.Err? ==> r == current
    ensures current.Ok? ==> r == Ok(RemoveFirst(current.value, webhookUrl))
  {
    if current.Err? {
      return current;
    }
    var hooks := RemoveHook(current.value, webhookUrl);
    return Ok(hooks);
  }

  /** An absent URL leaves the list unchanged. */
  lemma {:induction false} RemoveFirstAbsent(s: seq<string>, x: string)
    requires x !in s
    ensures RemoveFirst(s, x) == s
    decreases |s|
  {
    if s != [] {
      assert s == [s[0]] + s[1..];
      RemoveFirstAbsent(s[1..], x);
    }
  }

  /** A present URL is removed at its first occurrence; the rest keep their order. */
  lemma {:induction false} RemoveFirstAt(s: seq<string>, x: string, i: nat)
    requires i < |s| && s[i] == x && x !in s[..i]
    ensures RemoveFirst(s, x) == s[..i] + s[i + 1..]
    decreases |s|
  {
    if i > 0 {
      assert s[0] == s[..i][0];
      var t := s[1..];
      assert t[..i - 1] == s[1..i];
      assert forall y :: y in s[1..i] ==> y in s[..i];
      RemoveFirstAt(t, x, i - 1);
      assert s[..i] == [s[0]] + t[..i - 1];
      assert s[i + 1..] == t[i..];
    }
  }

  /** Removing takes exactly one copy of a present URL out of the multiset of hooks. */
  lemma {:induction false} RemoveFirstMultiset(s: seq<string>, x: string)
    ensures x in s ==> multiset(RemoveFirst(s, x)) + multiset{x} == multiset(s)
    ensures x !in s ==> multiset(RemoveFirst(s, x)) == multiset(s)
    decreases |s|
  {
    if s != [] {
      RemoveFirstMultiset(s[1..], x);
      assert s == [s[0]] + s[1..];
    }
  }

  /** Adding a URL the list did not hold and removing it again gives the original list. */
  lemma {:induction false} AddThenRemove(s: seq<string>, x: string)
    requires x !in s
    ensures RemoveFirst(s + [x], x) == s
    decreases |s|
  {
    if s == [] {
      assert [] + [x] == [x];
    } else {
      assert (s + [x])[0] == s[0];
      assert (s + [x])[1..] == s[1..] + [x];
      AddThenRemove(s[1..], x);
      assert s == [s[0]] + s[1..];
    }
  }

  /** The `urls[]` values of the form `setWebhooks` posts: one empty value for an empty list, so
      that the server clears it, and otherwise one value per hook, in order. */
  method SetWebhooksBody(webhooks: seq<string>) returns (urls: seq<string>)
    ensures webhooks == [] ==> urls == [""]
    ensures webhooks != [] ==> urls == webhooks
  {
    urls := [];
    if |webhooks| == 0 {
      urls := urls + [""];
    }
    var i := 0;
    while i < |webhooks|
      invariant 0 <= i <= |webhooks|
      invariant urls == (if webhooks == [] then [""] else webhooks[..i])
    {
      urls := urls + [webhooks[i]];
      assert webhooks[..i + 1] == webhooks[..i] + [webhooks[i]];
      i := i + 1;
    }
    assert webhooks[..i] == webhooks;
  }

  /** The form values without empty ones: what the server keeps. */
  function NonEmpty(urls: seq<string>): (r: seq<string>)
    ensures forall u :: u in r <==> u in urls && u != ""
    decreases |urls|
  {
    if urls == [] then []
    else (if urls[0] == "" then [] else [urls[0]]) + NonEmpty(urls[1..])
  }

  /** The form always carries at least one value, and a server that drops the empty placeholder
      reads back exactly the list that was set, whenever no hook is the empty string. */
  lemma {:induction false} SetWebhooksRoundTrip(webhooks: seq<string>)
    requires "" !in webhooks
    ensures NonEmpty(if webhooks == [] then [""] else webhooks) == webhooks
    decreases |webhooks|
  {
    if webhooks == [] {
      assert NonEmpty([""]) == [] + NonEmpty([""][1..]);
    } else {
      var rest := webhooks[1..];
      assert webhooks[0] in webhooks;
      SetWebhooksRoundTrip(rest);
      if rest == [] {
        assert NonEmpty(webhooks) == [webhooks[0]] + NonEmpty([]);
      }
    }
  }
}
