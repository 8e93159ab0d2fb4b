/**
 * The browser-only "my list" of the standalone frontend (src/services/myList.js):
 * an array of show and movie entries kept under `mertflix_list` in localStorage.
 * Every read normalises what is stored (drops unusable entries, fills defaults);
 * toggling prepends an absent entry and removes every copy of a present one.
 */
module LocalList {
  import opened Common
  import opened JsValues
  import opened WebStorage

  const ListKey := "mertflix_list"

  /** `makeListKey(type, id)`: the template `${type}:${id}`. */
  function MakeListKey(kind: Option<Json>, id: Option<Json>): string
  {
    ToStr(kind) + ":" + ToStr(id)
  }

  /** The text before the first occurrence of `c`, or all of `s`. */
  function Before(s: string, c: char): string
  {
    if s == [] || s[0] == c then [] else [s[0]] + Before(s[1..], c)
  }

  lemma {:induction false} BeforeSeparator(t: string, c: char, rest: string)
    requires c !in t
    ensures Before(t + [c] + rest, c) == t
  {
    if t != [] {
      assert (t + [c] + rest)[1..] == t[1..] + [c] + rest;
      BeforeSeparator(t[1..], c, rest);
    }
  }

  /** For a type without a colon, a list key names its type and the text of its id: no two
      different items share a key. */
  lemma MakeListKeyInjective(t1: string, t2: string, i1: Option<Json>, i2: Option<Json>)
    requires ':' !in t1 && ':' !in t2
    ensures MakeListKey(Some(Str(t1)), i1) == MakeListKey(Some(Str(t2)), i2)
            <==> t1 == t2 && ToStr(i1) == ToStr(i2)
  {
    var a := MakeListKey(Some(Str(t1)), i1);
    var b := MakeListKey(Some(Str(t2)), i2);
    BeforeSeparator(t1, ':', ToStr(i1));
    BeforeSeparator(t2, ':', ToStr(i2));
    if a == b {
      assert t1 == t2;
      assert ToStr(i1) == a[|t1| + 1..] && ToStr(i2) == b[|t2| + 1..];
    }
  }

  /** `a || b` where `b` is defined. */
  function Or(a: Option<Json>, b: Json): Json
  {
    if Truthy(a) then a.value else b
  }

  /** `Array.isArray(v) ? v : []`. */
  function ArrayOr(v: Option<Json>): seq<Json>
  {
    if v.Some? && v.value.Arr? then v.value.items else []
  }

  /** `xs.filter(Boolean)`. */
  function TruthyOnly(xs: seq<Json>): (r: seq<Json>)
    ensures forall j :: 0 <= j < |r| ==> Truthy(Some(r[j]))
  {
    if xs == [] then []
    else if Truthy(Some(xs[0])) then [xs[0]] + TruthyOnly(xs[1..])
    else TruthyOnly(xs[1..])
  }

  /** `xs.filter((n) => Number.isFinite(Number(n))).map((n) => Number(n))`. */
  function NumericOnly(xs: seq<Json>): (r: seq<Json>)
    ensures forall j :: 0 <= j < |r| ==> r[j].Num?
  {
    if xs == [] then []
    else if ToNumber(Some(xs[0])).Some? then [Num(ToNumber(Some(xs[0])).value)] + NumericOnly(xs[1..])
    else NumericOnly(xs[1..])
  }

  lemma {:induction false} TruthyOnlyKeepsTruthy(xs: seq<Json>)
    requires forall j :: 0 <= j < |xs| ==> Truthy(Some(xs[j]))
    ensures TruthyOnly(xs) == xs
  {
    if xs != [] {
      TruthyOnlyKeepsTruthy(xs[1..]);
    }
  }

  lemma {:induction false} NumericOnlyKeepsNumbers(xs: seq<Json>)
    requires forall j :: 0 <= j < |xs| ==> xs[j].Num?
    ensures NumericOnly(xs) == xs
  {
    if xs != [] {
      NumericOnlyKeepsNumbers(xs[1..]);
    }
  }

  const EntryFields: set<string> := {"key", "type", "id", "name", "image", "genres", "genreIds"}

  /** The shape of every entry `readMyList` returns. */
  predicate IsListEntry(x: Json)
  {
    && x.Obj? && x.fields.Keys == EntryFields
    && Truthy(Some(x.fields["key"]))
    && Truthy(Some(x.fields["type"]))
    && !x.fields["id"].Null?
    && (Truthy(Some(x.fields["name"])) || x.fields["name"] == Str(""))
    && (Truthy(Some(x.fields["image"])) || x.fields["image"] == Null)
    && x.fields["genres"].Arr?
    && (forall j :: 0 <= j < |x.fields["genres"].items| ==> Truthy(Some(x.fields["genres"].items[j])))
    && x.fields["genreIds"].Arr?
    && (forall j :: 0 <= j < |x.fields["genreIds"].items| ==> x.fields["genreIds"].items[j].Num?)
  }

  /** The callback of `readMyList`'s `map`, `None` standing for the `null` its `filter` drops. */
  function Normalize(it: Json): Option<Json>
  {
    if !Truthy(Some(it)) then None
    else
      var kind := Or(Prop(it, "type"), Str("show"));
      var id := Prop(it, "id");
      if IsNullish(id) then None
      else Some(Obj(map[
        "key" := Or(Prop(it, "key"), Str(MakeListKey(Some(kind), id))),
        "type" := kind,
        "id" := id.value,
        "name" := Or(OrElse(Prop(it, "name"), Prop(it, "title")), Str("")),
        "image" := Or(Prop(it, "image"), Null),
        "genres" := Arr(TruthyOnly(ArrayOr(Prop(it, "genres")))),
        "genreIds" := Arr(NumericOnly(ArrayOr(Prop(it, "genreIds"))))]))
  }

  /** Which entries survive, and what they become: a truthy value with a non-null `id`,
      its type defaulting to `show` and its key to `makeListKey(type, id)`. */
  lemma NormalizeRules(it: Json)
    ensures var r := Normalize(it);
      && (r.None? <==> !Truthy(Some(it)) || IsNullish(Prop(it, "id")))
      && (r.Some? ==>
            && IsListEntry(r.value)
            && r.value.fields["id"] == Prop(it, "id").value
            && r.value.fields["type"] == (if Truthy(Prop(it, "type")) then Prop(it, "type").value else Str("show"))
            && (!Truthy(Prop(it, "key")) ==>
                  r.value.fields["key"] == Str(MakeListKey(Some(r.value.fields["type"]), Prop(it, "id"))))
            && r.value.fields["genreIds"] == Arr(NumericOnly(ArrayOr(Prop(it, "genreIds")))))
  {
    var r := Normalize(it);
    if r.Some? {
      assert r.value.fields.Keys == EntryFields;
    }
  }

  /** Normalising an entry already in shape gives it back unchanged, so a list read and
      written again reads back the same. */
  lemma NormalizeFixesEntries(x: Json)
    requires IsListEntry(x)
    ensures Normalize(x) == Some(x)
  {
    TruthyOnlyKeepsTruthy(x.fields["genres"].items);
    NumericOnlyKeepsNumbers(x.fields["genreIds"].items);
    assert "title" !in x.fields;
    assert Truthy(Some(x)) && !IsNullish(Prop(x, "id"));
    var r := Normalize(x).value;
    assert r.fields["key"] == x.fields["key"];
    assert r.fields["type"] == x.fields["type"];
    assert r.fields["name"] == x.fields["name"];
    assert r.fields["image"] == x.fields["image"];
    assert r.fields["genres"] == x.fields["genres"];
    assert r.fields["genreIds"] == x.fields["genreIds"];
    assert r.fields.Keys == x.fields.Keys;
    assert r.fields == x.fields;
  }

  /** `list.map(Normalize).filter(Boolean)`. */
  function NormalizeAll(xs: seq<Json>): (r: seq<Json>)
    ensures |r| <= |xs|
  {
    if xs == [] then []
    else match Normalize(xs[0])
      case Some(e) => [e] + NormalizeAll(xs[1..])
      case None => NormalizeAll(xs[1..])
  }

  lemma {:induction false} NormalizeAllShape(xs: seq<Json>)
    ensures forall j :: 0 <= j < |NormalizeAll(xs)| ==> IsListEntry(NormalizeAll(xs)[j])
  {
    if xs != [] {
      NormalizeAllShape(xs[1..]);
      NormalizeRules(xs[0]);
    }
  }

  lemma {:induction false} NormalizeAllFixesEntries(xs: seq<Json>)
    requires forall j :: 0 <= j < |xs| ==> IsListEntry(xs[j])
    ensures NormalizeAll(xs) == xs
  {
    if xs != [] {
      NormalizeFixesEntries(xs[0]);
      NormalizeAllFixesEntries(xs[1..]);
    }
  }

  /** `readMyList()`. */
  function ReadMyList(items: map<string, Stored>): seq<Json>
  {
    var v := ReadJson(items, ListKey);
    if v.Arr? then NormalizeAll(v.items) else []
  }

  /** Nothing stored, something unparsable or something that is not an array reads as the
      empty list; whatever is read is in shape. */
  lemma ReadMyListRules(items: map<string, Stored>)
    ensures !ReadJson(items, ListKey).Arr? ==> ReadMyList(items) == []
    ensures ListKey !in items || items[ListKey].OtherText? ==> ReadMyList(items) == []
    ensures forall j :: 0 <= j < |ReadMyList(items)| ==> IsListEntry(ReadMyList(items)[j])
  {
    var v := ReadJson(items, ListKey);
    if v.Arr? {
      NormalizeAllShape(v.items);
    }
  }

  /** `x.key === key`. */
  predicate HasKey(x: Json, key: string)
  {
    Prop(x, "key") == Some(Str(key))
  }

  /** `list.some((x) => x.key === key)`. */
  predicate AnyHasKey(list: seq<Json>, key: string)
  {
    list != [] && (HasKey(list[0], key) || AnyHasKey(list[1..], key))
  }

  lemma {:induction false} AnyHasKeyExists(list: seq<Json>, key: string)
    ensures AnyHasKey(list, key) <==> exists j :: 0 <= j < |list| && HasKey(list[j], key)
  {
    if list != [] {
      AnyHasKeyExists(list[1..], key);
      if exists j :: 0 <= j < |list| && HasKey(list[j], key) {
        var j :| 0 <= j < |list| && HasKey(list[j], key);
        if j > 0 {
          assert HasKey(list[1..][j - 1], key);
        }
      }
      if AnyHasKey(list[1..], key) {
        var j :| 0 <= j < |list[1..]| && HasKey(list[1..][j], key);
        assert HasKey(list[j + 1], key);
      }
    }
  }

  /** `isInMyList(type, id)`. */
  predicate IsInMyList(items: map<string, Stored>, kind: Option<Json>, id: Option<Json>)
  {
    AnyHasKey(ReadMyList(items), MakeListKey(kind, id))
  }

  lemma IsInMyListRules(items: map<string, Stored>, kind: Option<Json>, id: Option<Json>)
    ensures IsInMyList(items, kind, id)
            <==> exists j :: 0 <= j < |ReadMyList(items)| && HasKey(ReadMyList(items)[j], MakeListKey(kind, id))
  {
    AnyHasKeyExists(ReadMyList(items), MakeListKey(kind, id));
  }

  /** `list.filter((x) => x.key !== key)`. */
  function WithoutKey(list: seq<Json>, key: string): (r: seq<Json>)
    ensures |r| <= |list|
  {
    if list == [] then []
    else if HasKey(list[0], key) then WithoutKey(list[1..], key)
    else [list[0]] + WithoutKey(list[1..], key)
  }

  /** The filter removes every entry with the key, keeps every other one, and keeps them in order. */
  lemma {:induction false} WithoutKeyRules(list: seq<Json>, key: string)
    ensures !AnyHasKey(WithoutKey(list, key), key)
    ensures forall j :: 0 <= j < |WithoutKey(list, key)| ==> WithoutKey(list, key)[j] in list
    ensures forall x :: x in WithoutKey(list, key) <==> x in list && !HasKey(x, key)
    ensures forall i :: 0 <= i <= |list| ==>
              WithoutKey(list, key) == WithoutKey(list[..i], key) + WithoutKey(list[i..], key)
    ensures !AnyHasKey(list, key) ==> WithoutKey(list, key) == list
    ensures AnyHasKey(list, key) ==> |WithoutKey(list, key)| < |list|
  {
    if list != [] {
      WithoutKeyRules(list[1..], key);
      var w := WithoutKey(list, key);
      if !HasKey(list[0], key) {
        assert w[1..] == WithoutKey(list[1..], key);
        assert w[0] == list[0];
      }
      forall x | x in list && !HasKey(x, key)
        ensures x in w
      {
        if x != list[0] {
          assert x in list[1..];
        }
      }
    }
    forall i | 0 <= i <= |list|
      ensures WithoutKey(list, key) == WithoutKey(list[..i], key) + WithoutKey(list[i..], key)
    {
      assert list[..i] + list[i..] == list;
      WithoutKeyAppend(list[..i], list[i..], key);
    }
  }

  lemma {:induction false} WithoutKeyAppend(a: seq<Json>, b: seq<Json>, key: string)
    ensures WithoutKey(a + b, key) == WithoutKey(a, key) + WithoutKey(b, key)
  {
    if a == [] {
      assert a + b == b;
    } else {
      var ab := a + b;
      assert ab[0] == a[0] && ab[1..] == a[1..] + b;
      WithoutKeyAppend(a[1..], b, key);
      var rest := WithoutKey(a[1..], key) + WithoutKey(b, key);
      assert [a[0]] + rest == ([a[0]] + WithoutKey(a[1..], key)) + WithoutKey(b, key);
    }
  }

  /** `fields` with `name: v` added as `JSON.stringify` writes it: an undefined value is left out. */
  function Defined(fields: map<string, Json>, name: string, v: Option<Json>): map<string, Json>
  {
    if v.Some? then fields[name := v.value] else fields
  }

  /** The key `toggleMyListItem` files an item under. */
  function ItemKey(item: Json): string
  {
    MakeListKey(Prop(item, "type"), Prop(item, "id"))
  }

  /** The `normalized` object `toggleMyListItem` builds from its argument. */
  function NormalizedItem(item: Json): Json
  {
    var always := map[
      "key" := Str(ItemKey(item)),
      "name" := Or(Prop(item, "name"), Str("")),
      "image" := Or(Prop(item, "image"), Null),
      "genres" := Arr(TruthyOnly(ArrayOr(Prop(item, "genres")))),
      "genreIds" := Arr(NumericOnly(ArrayOr(Prop(item, "genreIds"))))];
    Obj(Defined(Defined(always, "id", Prop(item, "id")), "type", Prop(item, "type")))
  }

  /** The list `toggleMyListItem` writes: without the key when some entry has it, else the
      normalised item in front. */
  function Toggled(list: seq<Json>, item: Json): seq<Json>
  {
    var key := ItemKey(item);
    if AnyHasKey(list, key) then WithoutKey(list, key) else [NormalizedItem(item)] + list
  }

  lemma ToggledRules(list: seq<Json>, item: Json)
    ensures var key := ItemKey(item);
      var r := Toggled(list, item);
      // absent: the normalised item goes in front and the rest is the list as it was
      && (!AnyHasKey(list, key) ==> |r| == |list| + 1 && r[0] == NormalizedItem(item) && r[1..] == list)
      // present: every entry with the key goes, the others stay, in their order
      && (AnyHasKey(list, key) ==>
            && !AnyHasKey(r, key) && |r| < |list|
            && (forall x :: x in r <==> x in list && !HasKey(x, key))
            && forall i :: 0 <= i <= |list| ==> r == WithoutKey(list[..i], key) + WithoutKey(list[i..], key))
  {
    WithoutKeyRules(list, ItemKey(item));
  }

  /** With a truthy type and an id, the toggled-in item is already in shape. */
  lemma NormalizedItemShape(item: Json)
    requires Truthy(Prop(item, "type")) && !IsNullish(Prop(item, "id"))
    ensures IsListEntry(NormalizedItem(item)) && HasKey(NormalizedItem(item), ItemKey(item))
  {
    assert ItemKey(item) != "";
  }

  /** The storage state after `writeMyList(list)`. */
  function WriteMyList(items: map<string, Stored>, list: seq<Json>): map<string, Stored>
  {
    items[ListKey := JsonText(Arr(list))]
  }

  /** A list of entries already in shape reads back as written. */
  lemma WriteThenRead(items: map<string, Stored>, list: seq<Json>)
    requires forall j :: 0 <= j < |list| ==> IsListEntry(list[j])
    ensures ReadMyList(WriteMyList(items, list)) == list
  {
    NormalizeAllFixesEntries(list);
  }

  /** Toggling an absent item twice leaves the list as it read before; the item needs a
      truthy type and an id, since reading back normalises those. */
  lemma ToggleTwiceRestores(items: map<string, Stored>, item: Json)
    requires Truthy(Prop(item, "type")) && !IsNullish(Prop(item, "id"))
    requires !IsInMyList(items, Prop(item, "type"), Prop(item, "id"))
    ensures var once := WriteMyList(items, Toggled(ReadMyList(items), item));
      var twice := WriteMyList(once, Toggled(ReadMyList(once), item));
      ReadMyList(twice) == ReadMyList(items)
  {
    var list := ReadMyList(items);
    var key := ItemKey(item);
    var n := NormalizedItem(item);
    ReadMyListRules(items);
    NormalizedItemShape(item);
    var once := WriteMyList(items, [n] + list);
    assert forall j :: 0 <= j < |[n] + list| ==> IsListEntry(([n] + list)[j]);
    WriteThenRead(items, [n] + list);
    assert AnyHasKey([n] + list, key);
    assert ([n] + list)[1..] == list;
    WithoutKeyRules(list, key);
    assert Toggled(ReadMyList(once), item) == list;
    WriteThenRead(once, list);
  }

  /** `toggleMyListItem(item)`: the argument must not be null or undefined. */
  method ToggleMyListItem(ls: LocalStorage, item: Json) returns (next: seq<Json>)
    requires !item.Null?
    modifies ls
    ensures next == Toggled(ReadMyList(old(ls.items)), item)
    ensures ls.items == WriteMyList(old(ls.items), next) && ls.events == old(ls.events)
  {
    var list := ReadMyList(ls.items);
    if AnyHasKey(list, ItemKey(item)) {
      next := WithoutKey(list, ItemKey(item));
    } else {
      next := [NormalizedItem(item)] + list;
    }
    ls.items := WriteMyList(ls.items, next);
  }

  /** `removeMyListItem(type, id)`. */
  method RemoveMyListItem(ls: LocalStorage, kind: Option<Json>, id: Option<Json>) returns (next: seq<Json>)
    modifies ls
    ensures next == WithoutKey(ReadMyList(old(ls.items)), MakeListKey(kind, id))
    ensures ls.items == WriteMyList(old(ls.items), next) && ls.events == old(ls.events)
  {
    next := WithoutKey(ReadMyList(ls.items), MakeListKey(kind, id));
    ls.items := WriteMyList(ls.items, next);
  }

  /** After a removal the item is no longer in the list, and every other entry read before is
      still there, in its order. */
  lemma RemoveMyListItemRules(items: map<string, Stored>, kind: Option<Json>, id: Option<Json>)
    ensures var next := WithoutKey(ReadMyList(items), MakeListKey(kind, id));
      && !IsInMyList(WriteMyList(items, next), kind, id)
      && ReadMyList(WriteMyList(items, next)) == next
      && (forall x :: x in next <==> x in ReadMyList(items) && !HasKey(x, MakeListKey(kind, id)))
      && forall i :: 0 <= i <= |ReadMyList(items)| ==>
           next == WithoutKey(ReadMyList(items)[..i], MakeListKey(kind, id))
                   + WithoutKey(ReadMyList(items)[i..], MakeListKey(kind, id))
  {
    var list := ReadMyList(items);
    var next := WithoutKey(list, MakeListKey(kind, id));
    ReadMyListRules(items);
    WithoutKeyRules(list, MakeListKey(kind, id));
    WriteThenRead(items, next);
  }
}
