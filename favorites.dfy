/**
 * The favourites of frontend/src/services/storage.js: an array kept under
 * `mertflix_favorites` in localStorage, matched on `type` (strictly) and on the
 * text of `id`. Every write dispatches `mertflix:favorites:changed` with the new
 * length. The source guards only the parse: a stored value that is not an
 * array, or a `null` element reached by a scan, throws a TypeError out of the
 * call, which the model returns as `Thrown` with the state left as it was.
 */
module Favorites {
  import opened Common
  import opened Text
  import opened JsValues
  import opened WebStorage

  const FavKey := "mertflix_favorites"

  /** The uncaught exception a call ends with. */
  datatype Thrown = TypeError

  /** The storage state after a call, and the exception it threw, if any. */
  datatype Attempt = Attempt(state: Browser, thrown: Option<Thrown>)

  /** `read()` (also `getFavorites()`). */
  function Read(items: map<string, Stored>): Json
  {
    ReadJson(items, FavKey)
  }

  /** `write(items)`: store the array and announce its length. */
  function Write(b: Browser, list: seq<Json>): (r: Browser)
    ensures ReadJson(r.items, FavKey) == Arr(list)
    ensures r.events == b.events + [FavoritesChanged(|list|)]
    ensures forall k :: k != FavKey ==> (k in r.items <==> k in b.items)
    ensures forall k :: k != FavKey && k in b.items ==> r.items[k] == b.items[k]
  {
    Browser(b.items[FavKey := JsonText(Arr(list))], b.events + [FavoritesChanged(|list|)])
  }

  /** `it.type === type && String(it.id) === String(id)`; reading a property of `null` throws. */
  function Matches(it: Json, kind: Option<Json>, id: Option<Json>): Result<bool, Thrown>
  {
    if it.Null? then Err(TypeError)
    else Ok(StrictEquals(Prop(it, "type"), kind) && ToStr(Prop(it, "id")) == ToStr(id))
  }

  /** `list.some(Matches)`: stops at the first match. */
  function AnyMatches(list: seq<Json>, kind: Option<Json>, id: Option<Json>): Result<bool, Thrown>
  {
    if list == [] then Ok(false)
    else match Matches(list[0], kind, id)
      case Err(e) => Err(e)
      case Ok(true) => Ok(true)
      case Ok(false) => AnyMatches(list[1..], kind, id)
  }

  /** `list.filter((it) => !Matches(it))`: visits every element. */
  function KeepOthers(list: seq<Json>, kind: Option<Json>, id: Option<Json>): Result<seq<Json>, Thrown>
  {
    if list == [] then Ok([])
    else match Matches(list[0], kind, id)
      case Err(e) => Err(e)
      case Ok(m) =>
        match KeepOthers(list[1..], kind, id)
        case Err(e) => Err(e)
        case Ok(rest) => Ok(if m then rest else [list[0]] + rest)
  }

  /** An element matches when its type is the same primitive and its id has the same text. */
  predicate IsMatch(it: Json, kind: Option<Json>, id: Option<Json>)
  {
    !it.Null? && StrictEquals(Prop(it, "type"), kind) && ToStr(Prop(it, "id")) == ToStr(id)
  }

  predicate NoNulls(list: seq<Json>)
  {
    forall j :: 0 <= j < |list| ==> !list[j].Null?
  }

  /** On a list without nulls the scan answers whether some element matches; a scan that
      answers `false` has visited every element, so found no null. */
  lemma {:induction false} AnyMatchesRules(list: seq<Json>, kind: Option<Json>, id: Option<Json>)
    ensures NoNulls(list) ==>
              AnyMatches(list, kind, id) == Ok(exists j :: 0 <= j < |list| && IsMatch(list[j], kind, id))
    ensures AnyMatches(list, kind, id) == Ok(false) ==> NoNulls(list)
  {
    if list != [] {
      AnyMatchesRules(list[1..], kind, id);
      if exists j :: 0 <= j < |list| && IsMatch(list[j], kind, id) {
        var j :| 0 <= j < |list| && IsMatch(list[j], kind, id);
        if j > 0 {
          assert IsMatch(list[1..][j - 1], kind, id);
        }
      }
      if exists j :: 0 <= j < |list[1..]| && IsMatch(list[1..][j], kind, id) {
        var j :| 0 <= j < |list[1..]| && IsMatch(list[1..][j], kind, id);
        assert IsMatch(list[j + 1], kind, id);
      }
      if AnyMatches(list, kind, id) == Ok(false) {
        assert forall j :: 1 <= j < |list| ==> list[j] == list[1..][j - 1];
      }
    }
  }

  lemma {:induction false} AnyMatchesAppend(list: seq<Json>, x: Json, kind: Option<Json>, id: Option<Json>)
    requires AnyMatches(list, kind, id) == Ok(false)
    ensures AnyMatches(list + [x], kind, id) == Matches(x, kind, id)
  {
    if list == [] {
      assert [] + [x] == [x];
    } else {
      assert (list + [x])[1..] == list[1..] + [x];
      AnyMatchesAppend(list[1..], x, kind, id);
    }
  }

  /** The elements that do not match, in their order. */
  function Unmatched(list: seq<Json>, kind: Option<Json>, id: Option<Json>): (r: seq<Json>)
    ensures |r| <= |list|
  {
    if list == [] then []
    else if IsMatch(list[0], kind, id) then Unmatched(list[1..], kind, id)
    else [list[0]] + Unmatched(list[1..], kind, id)
  }

  /** The filter throws exactly when the list holds a null, and otherwise keeps the elements
      that do not match. */
  lemma {:induction false} KeepOthersRules(list: seq<Json>, kind: Option<Json>, id: Option<Json>)
    ensures KeepOthers(list, kind, id).Err? <==> !NoNulls(list)
    ensures NoNulls(list) ==> KeepOthers(list, kind, id) == Ok(Unmatched(list, kind, id))
  {
    if list != [] {
      KeepOthersRules(list[1..], kind, id);
      assert forall j :: 1 <= j < |list| ==> list[j] == list[1..][j - 1];
    }
  }

  /** Every kept element comes from the list and does not match; every element that does
      not match is kept. */
  lemma {:induction false} UnmatchedMembers(list: seq<Json>, kind: Option<Json>, id: Option<Json>)
    ensures forall x :: x in Unmatched(list, kind, id) <==> x in list && !IsMatch(x, kind, id)
  {
    if list != [] {
      UnmatchedMembers(list[1..], kind, id);
      assert list == [list[0]] + list[1..];
    }
  }

  /** Filtering a concatenation filters each part: the kept elements stay in order. */
  lemma {:induction false} UnmatchedAppend(a: seq<Json>, b: seq<Json>, kind: Option<Json>, id: Option<Json>)
    ensures Unmatched(a + b, kind, id) == Unmatched(a, kind, id) + Unmatched(b, kind, id)
  {
    if a == [] {
      assert a + b == b;
    } else {
      assert (a + b)[1..] == a[1..] + b;
      UnmatchedAppend(a[1..], b, kind, id);
    }
  }

  /** `isFavorite(type, id)`. */
  function IsFavorite(items: map<string, Stored>, kind: Option<Json>, id: Option<Json>): Result<bool, Thrown>
  {
    var v := Read(items);
    if v.Arr? then AnyMatches(v.items, kind, id) else Err(TypeError)
  }

  /** The id is compared by its text, so the number 5 and the string "5" name the same favourite. */
  lemma IsFavoriteComparesIdText(items: map<string, Stored>, kind: Option<Json>, n: int)
    ensures IsFavorite(items, kind, Some(Num(n))) == IsFavorite(items, kind, Some(Str(IntToDecimal(n))))
  {
    var v := Read(items);
    if v.Arr? {
      IdTextScan(v.items, kind, n);
    }
  }

  lemma {:induction false} IdTextScan(list: seq<Json>, kind: Option<Json>, n: int)
    ensures AnyMatches(list, kind, Some(Num(n))) == AnyMatches(list, kind, Some(Str(IntToDecimal(n))))
  {
    if list != [] {
      IdTextScan(list[1..], kind, n);
    }
  }

  /** With nothing stored, nothing is a favourite. */
  lemma NothingStoredNoFavorite(items: map<string, Stored>, kind: Option<Json>, id: Option<Json>)
    requires FavKey !in items
    ensures IsFavorite(items, kind, id) == Ok(false)
  {
  }

  /** `addFavorite(item)`: append at the end unless a matching element exists. A null item
      throws at the first comparison, so only when the list is not empty. */
  function AddFavorite(b: Browser, item: Json): Attempt
  {
    var v := Read(b.items);
    if !v.Arr? then Attempt(b, Some(TypeError))
    else
      var found := if item.Null? && v.items != [] then Err(TypeError)
                   else AnyMatches(v.items, Prop(item, "type"), Prop(item, "id"));
      match found
      case Err(e) => Attempt(b, Some(e))
      case Ok(true) => Attempt(b, None)
      case Ok(false) => Attempt(Write(b, v.items + [item]), None)
  }

  lemma AddFavoriteRules(b: Browser, item: Json)
    ensures var o := AddFavorite(b, item);
      var v := Read(b.items);
      // a present item: no write, no event
      && (v.Arr? && !item.Null? && NoNulls(v.items)
          && (exists j :: 0 <= j < |v.items| && IsMatch(v.items[j], Prop(item, "type"), Prop(item, "id")))
          ==> o == Attempt(b, None))
      // an absent item: appended at the end, one event with the new length
      && (v.Arr? && !item.Null? && NoNulls(v.items)
          && !(exists j :: 0 <= j < |v.items| && IsMatch(v.items[j], Prop(item, "type"), Prop(item, "id")))
          ==> && o.thrown.None?
              && Read(o.state.items) == Arr(v.items + [item])
              && o.state.events == b.events + [FavoritesChanged(|v.items| + 1)])
      // a call that throws changes nothing
      && (o.thrown.Some? ==> o.state == b)
  {
    var v := Read(b.items);
    if v.Arr? {
      AnyMatchesRules(v.items, Prop(item, "type"), Prop(item, "id"));
    }
  }

  /** Adding the same item twice is adding it once, for an item whose type is a primitive or
      absent (an object-valued type is never `===` to its stored copy). */
  lemma AddFavoriteTwice(b: Browser, item: Json)
    requires !item.Null?
    requires Prop(item, "type").None? || !(Prop(item, "type").value.Arr? || Prop(item, "type").value.Obj?)
    requires AddFavorite(b, item).thrown.None?
    ensures var once := AddFavorite(b, item).state;
      AddFavorite(once, item) == Attempt(once, None)
  {
    var v := Read(b.items);
    var kind := Prop(item, "type");
    var id := Prop(item, "id");
    if AnyMatches(v.items, kind, id) == Ok(false) {
      AnyMatchesAppend(v.items, item, kind, id);
    }
  }

  /** `removeFavorite(type, id)`: drop every matching element and write, even when none matched. */
  function RemoveFavorite(b: Browser, kind: Option<Json>, id: Option<Json>): Attempt
  {
    var v := Read(b.items);
    if !v.Arr? then Attempt(b, Some(TypeError))
    else match KeepOthers(v.items, kind, id)
      case Err(e) => Attempt(b, Some(e))
      case Ok(rest) => Attempt(Write(b, rest), None)
  }

  /** Removal writes the elements that do not match, in order, and announces the write even
      when nothing matched; afterwards the item is no favourite. It throws, changing nothing,
      exactly when the stored value is not an array or holds a null. */
  lemma RemoveFavoriteRules(b: Browser, kind: Option<Json>, id: Option<Json>)
    ensures var o := RemoveFavorite(b, kind, id);
      var v := Read(b.items);
      && (o.thrown.Some? <==> !v.Arr? || !NoNulls(v.items))
      && (o.thrown.Some? ==> o.state == b)
      && (o.thrown.None? ==>
            && o.state == Write(b, Unmatched(v.items, kind, id))
            && IsFavorite(o.state.items, kind, id) == Ok(false))
  {
    var v := Read(b.items);
    if v.Arr? {
      KeepOthersRules(v.items, kind, id);
      if NoNulls(v.items) {
        var r := Unmatched(v.items, kind, id);
        UnmatchedMembers(v.items, kind, id);
        assert NoNulls(r) by {
          forall j | 0 <= j < |r| ensures !r[j].Null? {
            assert r[j] in r;
          }
        }
        AnyMatchesRules(r, kind, id);
        assert !exists j :: 0 <= j < |r| && IsMatch(r[j], kind, id) by {
          forall j | 0 <= j < |r| ensures !IsMatch(r[j], kind, id) {
            assert r[j] in r;
          }
        }
      }
    }
  }

  /** `clearFavorites()`. */
  function ClearFavorites(b: Browser): Browser
  {
    Write(b, [])
  }

  lemma ClearFavoritesRules(b: Browser, kind: Option<Json>, id: Option<Json>)
    ensures Read(ClearFavorites(b).items) == Arr([])
    ensures IsFavorite(ClearFavorites(b).items, kind, id) == Ok(false)
    ensures ClearFavorites(b).events == b.events + [FavoritesChanged(0)]
  {
  }

  /** Each write announces the length of the list it stored. */
  lemma WriteAnnouncesLength(b: Browser, list: seq<Json>)
    ensures var r := Write(b, list);
      r.events[|r.events| - 1].count == |Read(r.items).items|
  {
  }

  method AddFavoriteTo(ls: LocalStorage, item: Json) returns (thrown: Option<Thrown>)
    modifies ls
    ensures Attempt(ls.State(), thrown) == AddFavorite(old(ls.State()), item)
  {
    var v := Read(ls.items);
    if !v.Arr? {
      return Some(TypeError);
    }
    var found := if item.Null? && v.items != [] then Err(TypeError)
                 else AnyMatches(v.items, Prop(item, "type"), Prop(item, "id"));
    if found.Err? {
      return Some(found.error);
    }
    if !found.value {
      var list := v.items + [item];
      ls.items := ls.items[FavKey := JsonText(Arr(list))];
      ls.events := ls.events + [FavoritesChanged(|list|)];
    }
    thrown := None;
  }

  method RemoveFavoriteFrom(ls: LocalStorage, kind: Option<Json>, id: Option<Json>) returns (thrown: Option<Thrown>)
    modifies ls
    ensures Attempt(ls.State(), thrown) == RemoveFavorite(old(ls.State()), kind, id)
  {
    var v := Read(ls.items);
    if !v.Arr? {
      return Some(TypeError);
    }
    var rest := KeepOthers(v.items, kind, id);
    if rest.Err? {
      return Some(rest.error);
    }
    ls.items := ls.items[FavKey := JsonText(Arr(rest.value))];
    ls.events := ls.events + [FavoritesChanged(|rest.value|)];
    thrown := None;
  }

  method ClearFavoritesIn(ls: LocalStorage)
    modifies ls
    ensures ls.State() == ClearFavorites(old(ls.State()))
  {
    ls.items := ls.items[FavKey := JsonText(Arr([]))];
    ls.events := ls.events + [FavoritesChanged(0)];
  }
}
