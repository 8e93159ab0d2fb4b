/**
 * The client-side caches of the signed-in user's list and watched items
 * (frontend/src/services/myListStore.js and watchedStore.js). Both files run the
 * same code against their own endpoints and event name, so one class models
 * either: a cached copy of the server's items, the set of their keys kept beside
 * it, a `loaded` flag, the number of change events dispatched, and the requests
 * sent to the server. What the server answers to a fetch is a parameter.
 */
module ListStore {
  import opened Common

  /** `listKey(mediaType, Number(tmdbId))` / `watchedKey(...)`: the identity of an item. */
  datatype Key = Key(mediaType: string, tmdbId: int)

  /** One element of the `items` array the server sends back. */
  datatype Entry = Entry(mediaType: string, tmdbId: int, title: Option<string>, posterUrl: Option<string>)

  function KeyOf(e: Entry): Key { Key(e.mediaType, e.tmdbId) }

  /** `new Set(items.map(...))`. */
  function KeysOf(items: seq<Entry>): set<Key>
  {
    if items == [] then {} else {KeyOf(items[0])} + KeysOf(items[1..])
  }

  /** A key is indexed exactly when some cached item carries it. */
  lemma {:induction false} KeysOfMembers(items: seq<Entry>, k: Key)
    ensures k in KeysOf(items) <==> exists i :: 0 <= i < |items| && KeyOf(items[i]) == k
  {
    if items != [] {
      KeysOfMembers(items[1..], k);
      if k in KeysOf(items[1..]) {
        var i :| 0 <= i < |items[1..]| && KeyOf(items[1..][i]) == k;
        assert KeyOf(items[i + 1]) == k;
      }
      if exists i :: 0 <= i < |items| && KeyOf(items[i]) == k {
        var i :| 0 <= i < |items| && KeyOf(items[i]) == k;
        if i > 0 {
          assert KeyOf(items[1..][i - 1]) == k;
        }
      }
    }
  }

  /** `cache.filter((x) => key(x) !== k)`. */
  function Without(items: seq<Entry>, k: Key): (r: seq<Entry>)
    ensures |r| <= |items|
  {
    if items == [] then []
    else if KeyOf(items[0]) == k then Without(items[1..], k)
    else [items[0]] + Without(items[1..], k)
  }

  /** The filter drops exactly the items carrying `k`: the index loses `k` and nothing else. */
  lemma {:induction false} WithoutKeys(items: seq<Entry>, k: Key)
    ensures KeysOf(Without(items, k)) == KeysOf(items) - {k}
  {
    if items != [] {
      WithoutKeys(items[1..], k);
      if KeyOf(items[0]) != k {
        var w := [items[0]] + Without(items[1..], k);
        assert w[1..] == Without(items[1..], k);
      }
    }
  }

  /** The filter keeps the order of what it keeps: filtering a concatenation filters each part. */
  lemma {:induction false} WithoutAppend(a: seq<Entry>, b: seq<Entry>, k: Key)
    ensures Without(a + b, k) == Without(a, k) + Without(b, k)
  {
    if a == [] {
      assert a + b == b;
    } else {
      var ab := a + b;
      assert ab[0] == a[0] && ab[1..] == a[1..] + b;
      WithoutAppend(a[1..], b, k);
      var rest := Without(a[1..], k) + Without(b, k);
      assert [a[0]] + rest == ([a[0]] + Without(a[1..], k)) + Without(b, k);
    }
  }

  /** Filtering out a key nobody carries changes nothing. */
  lemma {:induction false} WithoutAbsent(items: seq<Entry>, k: Key)
    requires k !in KeysOf(items)
    ensures Without(items, k) == items
  {
    if items != [] {
      WithoutAbsent(items[1..], k);
    }
  }

  /** A request the store sends through the list or watched API. */
  datatype Call = FetchAll | AddItem(key: Key, title: Option<string>, posterUrl: Option<string>) | RemoveItem(key: Key)

  /** The error `apiFetch` throws when the reply is not OK (or the request never arrives). */
  datatype ApiError = ApiError(message: string)

  /** What the server answers a request: a body, or the error the call throws. */
  type Answer<T> = Result<T, ApiError>

  /** Everything the store holds, apart from the key index that `Valid` ties to `cache`. */
  datatype Snapshot = Snapshot(cache: seq<Entry>, loaded: bool, events: nat, calls: seq<Call>)

  /** A new snapshot together with what the operation returns or throws. */
  datatype Step<T> = Step(state: Snapshot, value: Answer<T>)

  /** `loadMyList({ force })`: a loaded store answers from its cache unless forced;
      otherwise one fetch replaces the cache by what the server sends. A failed fetch
      throws before `rebuildIndex`, so the cache and `loaded` stay as they were. */
  function Load(s: Snapshot, force: bool, fetched: Answer<seq<Entry>>): Step<seq<Entry>>
  {
    if s.loaded && !force then Step(s, Ok(s.cache))
    else
      var asked := s.(calls := s.calls + [FetchAll]);
      match fetched
      case Ok(items) => Step(asked.(cache := items, loaded := true), Ok(items))
      case Err(e) => Step(asked, Err(e))
  }

  lemma LoadRules(s: Snapshot, force: bool, fetched: Answer<seq<Entry>>)
    ensures var o := Load(s, force, fetched);
      && o.state.events == s.events
      && (o.value.Ok? ==> o.value.value == o.state.cache && o.state.loaded)
      && (s.loaded && !force ==> o.state == s && o.value == Ok(s.cache))
      && (!s.loaded || force ==>
            && o.state.calls == s.calls + [FetchAll]
            && o.value == fetched
            && (fetched.Ok? ==> o.state.cache == fetched.value)
            && (fetched.Err? ==> o.state == s.(calls := s.calls + [FetchAll])))
  {
  }

  /** `ensureInMyListState`: load if needed, then look the key up. */
  function EnsureState(s: Snapshot, k: Key, fetched: Answer<seq<Entry>>): Step<bool>
  {
    var l := Load(s, false, fetched);
    match l.value
    case Ok(_) => Step(l.state, Ok(k in KeysOf(l.state.cache)))
    case Err(e) => Step(l.state, Err(e))
  }

  lemma EnsureStateRules(s: Snapshot, k: Key, fetched: Answer<seq<Entry>>)
    ensures var o := EnsureState(s, k, fetched);
      && o.state.events == s.events
      && (s.loaded ==> o == Step(s, Ok(k in KeysOf(s.cache))))
      && (o.value.Ok? <==> Load(s, false, fetched).value.Ok?)
      && (o.value.Ok? ==> (o.value.value <==> exists i :: 0 <= i < |o.state.cache| && KeyOf(o.state.cache[i]) == k))
      && (o.value.Err? ==> o.state.cache == s.cache && o.state.loaded == s.loaded)
  {
    KeysOfMembers(EnsureState(s, k, fetched).state.cache, k);
  }

  /** `toggleMyList`: after the initial load, a cached key is deleted on the server and
      filtered out of the cache; an absent one is added on the server and the whole list
      fetched again. `sent` is the server's answer to the delete or add, `fetchedAfterAdd`
      its answer to the refetch. One change event when everything succeeds; any failure
      is thrown on at once, with no event and no further change. */
  function Toggle(s: Snapshot, k: Key, title: Option<string>, posterUrl: Option<string>,
                  fetched: Answer<seq<Entry>>, sent: Answer<()>, fetchedAfterAdd: Answer<seq<Entry>>): Step<bool>
  {
    var l := Load(s, false, fetched);
    var t := l.state;
    if l.value.Err? then Step(t, Err(l.value.error))
    else if k in KeysOf(t.cache) then
      var asked := t.(calls := t.calls + [RemoveItem(k)]);
      if sent.Err? then Step(asked, Err(sent.error))
      else Step(asked.(cache := Without(t.cache, k), events := t.events + 1), Ok(false))
    else
      var asked := t.(calls := t.calls + [AddItem(k, title, posterUrl)]);
      if sent.Err? then Step(asked, Err(sent.error))
      else
        var u := Load(asked, true, fetchedAfterAdd);
        if u.value.Err? then Step(u.state, Err(u.value.error))
        else Step(u.state.(events := u.state.events + 1), Ok(true))
  }

  lemma {:induction false} ToggleRules(s: Snapshot, k: Key, title: Option<string>, posterUrl: Option<string>,
                                       fetched: Answer<seq<Entry>>, sent: Answer<()>, fetchedAfterAdd: Answer<seq<Entry>>)
    ensures var l := Load(s, false, fetched);
      var t := l.state;
      var o := Toggle(s, k, title, posterUrl, fetched, sent, fetchedAfterAdd);
      // an event is dispatched exactly when the toggle succeeds
      && o.state.events == (if o.value.Ok? then s.events + 1 else s.events)
      // the initial load fails: that error, and nothing but the fetch attempt
      && (l.value.Err? ==> o.value == Err(l.value.error) && o.state == s.(calls := s.calls + [FetchAll]))
      // switched off: the server is told, the key leaves the index, everything else stays in order
      && (l.value.Ok? && k in KeysOf(t.cache) ==>
            && o.state.calls == t.calls + [RemoveItem(k)]
            && (sent.Ok? ==>
                  && o.value == Ok(false) && o.state.loaded
                  && o.state.cache == Without(t.cache, k)
                  && KeysOf(o.state.cache) == KeysOf(t.cache) - {k})
            && (sent.Err? ==> o.value == Err(sent.error) && o.state.cache == t.cache))
      // switched on: the server is told, then the cache is whatever it sends back
      && (l.value.Ok? && k !in KeysOf(t.cache) ==>
            && (sent.Err? ==>
                  o.value == Err(sent.error) && o.state == t.(calls := t.calls + [AddItem(k, title, posterUrl)]))
            && (sent.Ok? ==> o.state.calls == t.calls + [AddItem(k, title, posterUrl), FetchAll])
            && (sent.Ok? && fetchedAfterAdd.Ok? ==>
                  o.value == Ok(true) && o.state.loaded && o.state.cache == fetchedAfterAdd.value)
            // saved on the server, but the refetch failed: the cache still lacks the item
            && (sent.Ok? && fetchedAfterAdd.Err? ==>
                  o.value == Err(fetchedAfterAdd.error) && o.state.cache == t.cache && o.state.loaded == t.loaded))
  {
    var l := Load(s, false, fetched);
    var t := l.state;
    if l.value.Ok? {
      if k in KeysOf(t.cache) {
        WithoutKeys(t.cache, k);
      } else {
        assert t.calls + [AddItem(k, title, posterUrl)] + [FetchAll] == t.calls + [AddItem(k, title, posterUrl), FetchAll];
      }
    }
  }

  /** Switching an item on and then off again, with a server that keeps what it is sent,
      leaves it out of the cache, and the second toggle needs no fetch. */
  lemma ToggleOnThenOff(s: Snapshot, k: Key, title: Option<string>, posterUrl: Option<string>,
                        fetched: Answer<seq<Entry>>, added: Answer<()>, fetchedAfterAdd: Answer<seq<Entry>>,
                        unused: Answer<seq<Entry>>, removed: Answer<()>, unused2: Answer<seq<Entry>>)
    ensures var on := Toggle(s, k, title, posterUrl, fetched, added, fetchedAfterAdd);
      var off := Toggle(on.state, k, title, posterUrl, unused, removed, unused2);
      on.value == Ok(true) && k in KeysOf(on.state.cache) && removed.Ok? ==>
        && off.value == Ok(false)
        && k !in KeysOf(off.state.cache)
        && off.state.cache == Without(fetchedAfterAdd.value, k)
        && off.state.calls == on.state.calls + [RemoveItem(k)]
        && off.state.events == s.events + 2
  {
    ToggleRules(s, k, title, posterUrl, fetched, added, fetchedAfterAdd);
    var on := Toggle(s, k, title, posterUrl, fetched, added, fetchedAfterAdd);
    ToggleRules(on.state, k, title, posterUrl, unused, removed, unused2);
  }

  /** `removeFromMyList`: only a cached key is deleted on the server and filtered out, with
      one change event; otherwise nothing is sent and no event fires. A failed load or
      delete is thrown on with the cache as it was and no event. */
  function Remove(s: Snapshot, k: Key, fetched: Answer<seq<Entry>>, sent: Answer<()>): Step<()>
  {
    var l := Load(s, false, fetched);
    var t := l.state;
    if l.value.Err? then Step(t, Err(l.value.error))
    else if k !in KeysOf(t.cache) then Step(t, Ok(()))
    else
      var asked := t.(calls := t.calls + [RemoveItem(k)]);
      if sent.Err? then Step(asked, Err(sent.error))
      else Step(asked.(cache := Without(t.cache, k), events := t.events + 1), Ok(()))
  }

  lemma RemoveRules(s: Snapshot, k: Key, fetched: Answer<seq<Entry>>, sent: Answer<()>)
    ensures var l := Load(s, false, fetched);
      var t := l.state;
      var o := Remove(s, k, fetched, sent);
      && o.state.events == (if o.value.Ok? && k in KeysOf(t.cache) then s.events + 1 else s.events)
      && (l.value.Err? ==> o.value == Err(l.value.error) && o.state == s.(calls := s.calls + [FetchAll]))
      && (l.value.Ok? && k !in KeysOf(t.cache) ==> o == Step(t, Ok(())))
      && (l.value.Ok? && k in KeysOf(t.cache) ==>
            && o.state.calls == t.calls + [RemoveItem(k)]
            && (sent.Ok? ==> o.value.Ok? && o.state.cache == Without(t.cache, k))
            && (sent.Err? ==> o.value == Err(sent.error) && o.state.cache == t.cache))
      && (o.value.Ok? ==> k !in KeysOf(o.state.cache) && o.state.loaded
                          && KeysOf(o.state.cache) == KeysOf(t.cache) - {k})
  {
    var t := Load(s, false, fetched).state;
    WithoutKeys(t.cache, k);
  }

  /** Removing twice is removing once: once a removal succeeds, the second call finds
      nothing to remove. */
  lemma RemoveIdempotent(s: Snapshot, k: Key, fetched: Answer<seq<Entry>>, sent: Answer<()>,
                         unused: Answer<seq<Entry>>, unusedSent: Answer<()>)
    ensures var once := Remove(s, k, fetched, sent);
      once.value.Ok? ==> Remove(once.state, k, unused, unusedSent) == once
  {
    RemoveRules(s, k, fetched, sent);
  }

  /** The store module's state; `keys` is `cacheKeySet`. */
  class CachedList {
    var cache: seq<Entry>
    var keys: set<Key>
    var loaded: bool
    var events: nat
    var calls: seq<Call>

    /** The key set indexes the cached items. */
    ghost predicate Valid()
      reads this
    {
      keys == KeysOf(cache)
    }

    function State(): Snapshot
      reads this
    {
      Snapshot(cache, loaded, events, calls)
    }

    /** The module's initial state, which `resetMyListStore` restores. */
    constructor()
      ensures Valid() && State() == Snapshot([], false, 0, [])
    {
      cache := [];
      keys := {};
      loaded := false;
      events := 0;
      calls := [];
    }

    /** `resetMyListStore` (sign-out): forget the cache; events and requests are history. */
    method Reset()
      modifies this
      ensures Valid() && State() == old(State()).(cache := [], loaded := false)
    {
      cache := [];
      keys := {};
      loaded := false;
    }

    method RebuildIndex(items: seq<Entry>)
      modifies this
      ensures Valid() && State() == old(State()).(cache := items)
    {
      cache := items;
      keys := KeysOf(items);
    }

    method LoadList(force: bool, fetched: Answer<seq<Entry>>) returns (items: Answer<seq<Entry>>)
      requires Valid()
      modifies this
      ensures Valid() && Step(State(), items) == Load(old(State()), force, fetched)
    {
      if loaded && !force {
        return Ok(cache);
      }
      calls := calls + [FetchAll];
      if fetched.Err? {
        return Err(fetched.error);
      }
      RebuildIndex(fetched.value);
      loaded := true;
      items := Ok(cache);
    }

    /** `isInMyListCached`. */
    function IsCached(k: Key): (b: bool)
      requires Valid()
      reads this
      ensures b <==> exists i :: 0 <= i < |cache| && KeyOf(cache[i]) == k
    {
      KeysOfMembers(cache, k);
      k in keys
    }

    method Ensure(k: Key, fetched: Answer<seq<Entry>>) returns (b: Answer<bool>)
      requires Valid()
      modifies this
      ensures Valid() && Step(State(), b) == EnsureState(old(State()), k, fetched)
    {
      var l := LoadList(false, fetched);
      if l.Err? {
        return Err(l.error);
      }
      b := Ok(k in keys);
    }

    method ToggleItem(k: Key, title: Option<string>, posterUrl: Option<string>,
                      fetched: Answer<seq<Entry>>, sent: Answer<()>, fetchedAfterAdd: Answer<seq<Entry>>)
      returns (now: Answer<bool>)
      requires Valid()
      modifies this
      ensures Valid() && Step(State(), now) == Toggle(old(State()), k, title, posterUrl, fetched, sent, fetchedAfterAdd)
    {
      var l := LoadList(false, fetched);
      if l.Err? {
        return Err(l.error);
      }
      var present := k in keys;
      if present {
        calls := calls + [RemoveItem(k)];
        if sent.Err? {
          return Err(sent.error);
        }
        RebuildIndex(Without(cache, k));
      } else {
        calls := calls + [AddItem(k, title, posterUrl)];
        if sent.Err? {
          return Err(sent.error);
        }
        var reloaded := LoadList(true, fetchedAfterAdd);
        if reloaded.Err? {
          return Err(reloaded.error);
        }
      }
      events := events + 1;
      now := Ok(!present);
    }

    /** `removeFromMyList` (the watched store has no such export). */
    method RemoveItemIfCached(k: Key, fetched: Answer<seq<Entry>>, sent: Answer<()>) returns (r: Answer<()>)
      requires Valid()
      modifies this
      ensures Valid() && Step(State(), r) == Remove(old(State()), k, fetched, sent)
    {
      var l := LoadList(false, fetched);
      if l.Err? {
        return Err(l.error);
      }
      if k !in keys {
        return Ok(());
      }
      calls := calls + [RemoveItem(k)];
      if sent.Err? {
        return Err(sent.error);
      }
      RebuildIndex(Without(cache, k));
      events := events + 1;
      r := Ok(());
    }
  }
}
