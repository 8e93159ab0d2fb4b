/**
 * The pure helpers of the show and movie listing page. Both copies of the page
 * (frontend/src/pages/ShowListingPage.jsx and src/pages/ShowListingPage.jsx)
 * share them; they differ only in that the frontend copy lets a caller pass
 * its own bucket table to `bucketToYearRange`. The page's React state and its
 * fetch loop are not modelled: the fetched shows, the chosen filters and
 * `uiPage` are parameters.
 */
module ShowListing {
  import opened Common
  import opened Text
  import opened JsValues
  import opened Sorting

  const PageSize: nat := 30

  /** A row of `YEAR_BUCKETS`; an absent bound is `None`. */
  datatype Bucket = Bucket(key: string, from: Option<int>, to: Option<int>)

  /** `{ from, to }`, `null` written `None`. */
  datatype YearRange = YearRange(from: Option<int>, to: Option<int>)

  const YearBuckets: seq<Bucket> := [
    Bucket("any", None, None),
    Bucket("2025", Some(2025), Some(2025)),
    Bucket("2024", Some(2024), Some(2024)),
    Bucket("2023", Some(2023), Some(2023)),
    Bucket("2022", Some(2022), Some(2022)),
    Bucket("2016_2021", Some(2016), Some(2021)),
    Bucket("2010_2015", Some(2010), Some(2015)),
    Bucket("2004_2009", Some(2004), Some(2009)),
    Bucket("2001_2003", Some(2001), Some(2003)),
    Bucket("lte_2000", None, Some(2000))
  ]

  /** `buckets.find((b) => b.key === key)`. */
  function Find(buckets: seq<Bucket>, key: string): (r: Option<Bucket>)
    ensures r.Some? ==> r.value in buckets && r.value.key == key
    ensures r.None? ==> forall j :: 0 <= j < |buckets| ==> buckets[j].key != key
  {
    if buckets == [] then None
    else if buckets[0].key == key then Some(buckets[0])
    else Find(buckets[1..], key)
  }

  /** `bucketToYearRange(key, buckets)`; a missing table (`None`, and always in the src copy)
      means `YEAR_BUCKETS`. */
  function BucketToYearRange(key: string, buckets: Option<seq<Bucket>>): YearRange
  {
    var found := Find(buckets.GetOr(YearBuckets), key);
    if found.None? || found.value.key == "any" then YearRange(None, None)
    else YearRange(found.value.from, found.value.to)
  }

  /** `any` and unknown keys give no bounds; any other key gives the first row with that key. */
  lemma BucketToYearRangeRules(key: string, buckets: seq<Bucket>, j: nat)
    requires j < |buckets| && buckets[j].key == key && key != "any"
    requires forall i :: 0 <= i < j ==> buckets[i].key != key
    ensures BucketToYearRange(key, Some(buckets)) == YearRange(buckets[j].from, buckets[j].to)
    ensures BucketToYearRange("any", Some(buckets)) == YearRange(None, None)
  {
    FindFirst(buckets, key, j);
  }

  lemma {:induction false} FindFirst(buckets: seq<Bucket>, key: string, j: nat)
    requires j < |buckets| && buckets[j].key == key
    requires forall i :: 0 <= i < j ==> buckets[i].key != key
    ensures Find(buckets, key) == Some(buckets[j])
  {
    if j > 0 {
      FindFirst(buckets[1..], key, j - 1);
    }
  }

  /** A key that is not in the table means no bounds. */
  lemma UnknownBucket(key: string, buckets: seq<Bucket>)
    requires forall j :: 0 <= j < |buckets| ==> buckets[j].key != key
    ensures BucketToYearRange(key, Some(buckets)) == YearRange(None, None)
  {
  }

  /** Every range the built-in table yields is well ordered, and only `lte_2000` is open. */
  lemma DefaultRangesOrdered(key: string)
    ensures var r := BucketToYearRange(key, None);
      && (r.from.Some? && r.to.Some? ==> r.from.value <= r.to.value)
      && (r.from.None? && r.to.Some? ==> key == "lte_2000" && r.to.value == 2000)
      && (r.from.Some? ==> r.to.Some?)
  {
    var found := Find(YearBuckets, key);
    if found.Some? {
      assert found.value in YearBuckets;
    }
  }

  /** `effectiveMinRating`: `any` means none, anything else is `Number(bucket)` when finite. */
  function EffectiveMinRating(bucket: string): Option<int>
  {
    if bucket == "any" then None else StringToNumber(bucket)
  }

  /** The radio buttons offer `1` to `9`, and each gives that minimum. */
  lemma RatingButtons(n: int)
    requires 1 <= n <= 9
    ensures EffectiveMinRating(IntToDecimal(n)) == Some(n)
  {
    assert IntToDecimal(n) != "any";
    NumberOfDecimal(n);
  }

  /** `discoverParams`: what the page asks TMDB's discover endpoint for. */
  function DiscoverParams(minRating: Option<int>, range: YearRange, variant: string,
                          selected: seq<string>): map<string, Json>
  {
    var fromKey := if variant == "movies" then "primary_release_date.gte" else "first_air_date.gte";
    var toKey := if variant == "movies" then "primary_release_date.lte" else "first_air_date.lte";
    (if minRating.Some? then map["vote_average.gte" := Num(minRating.value)] else map[])
    + (if range.from.Some? then map[fromKey := Str(IntToDecimal(range.from.value) + "-01-01")] else map[])
    + (if range.to.Some? then map[toKey := Str(IntToDecimal(range.to.value) + "-12-31")] else map[])
    + (if |selected| > 0 then map["with_genres" := Str(Join(selected, ','))] else map[])
  }

  /** A date bound is sent exactly for the sides the range has, under the key family of the
      variant; the genre list is sent when some genre is selected and reads back as the
      selection. */
  lemma DiscoverParamsRules(minRating: Option<int>, range: YearRange, variant: string, selected: seq<string>)
    ensures var p := DiscoverParams(minRating, range, variant, selected);
      var movies := variant == "movies";
      && ("vote_average.gte" in p <==> minRating.Some?)
      && (minRating.Some? ==> p["vote_average.gte"] == Num(minRating.value))
      && ("primary_release_date.gte" in p <==> movies && range.from.Some?)
      && ("primary_release_date.lte" in p <==> movies && range.to.Some?)
      && ("first_air_date.gte" in p <==> !movies && range.from.Some?)
      && ("first_air_date.lte" in p <==> !movies && range.to.Some?)
      && (range.from.Some? ==>
            p[if movies then "primary_release_date.gte" else "first_air_date.gte"]
              == Str(IntToDecimal(range.from.value) + "-01-01"))
      && (range.to.Some? ==>
            p[if movies then "primary_release_date.lte" else "first_air_date.lte"]
              == Str(IntToDecimal(range.to.value) + "-12-31"))
      && ("with_genres" in p <==> |selected| > 0)
      && (|selected| > 0 && (forall j :: 0 <= j < |selected| ==> ',' !in selected[j]) ==>
            p["with_genres"].Str? && Split(p["with_genres"].s, ',') == selected)
  {
    if |selected| > 0 && (forall j :: 0 <= j < |selected| ==> ',' !in selected[j]) {
      SplitJoin(selected, ',');
    }
  }

  /** A show or movie as the page maps it from TMDB; ratings are compared only, so they are reals. */
  datatype Show = Show(id: int, title: string, year: Option<int>, rating: Option<real>, genreIds: seq<int>)

  /** `list.filter(keep)`. */
  function Where(list: seq<Show>, keep: Show -> bool): (r: seq<Show>)
    ensures |r| <= |list|
  {
    if list == [] then []
    else if keep(list[0]) then [list[0]] + Where(list[1..], keep)
    else Where(list[1..], keep)
  }

  /** Filtering keeps exactly the elements that pass, in their order, and adds nothing. */
  lemma {:induction false} WhereRules(list: seq<Show>, keep: Show -> bool)
    ensures forall x :: x in Where(list, keep) <==> x in list && keep(x)
    ensures multiset(Where(list, keep)) <= multiset(list)
  {
    if list != [] {
      WhereRules(list[1..], keep);
      assert list == [list[0]] + list[1..];
    }
  }

  /** `(x.rating ?? -1) >= min`. */
  predicate RatingAtLeast(x: Show, min: int) { x.rating.GetOr(-1.0) >= min as real }
  /** `(x.year ?? 0) >= from`. */
  predicate YearFrom(x: Show, from: int) { x.year.GetOr(0) >= from }
  /** `(x.year ?? 9999) <= to`. */
  predicate YearTo(x: Show, to: int) { x.year.GetOr(9999) <= to }
  /** `need.every((id) => ids.includes(id))` over the ids as text. */
  predicate HasGenres(x: Show, selected: seq<string>)
  {
    forall j :: 0 <= j < |selected| ==> exists k :: 0 <= k < |x.genreIds| && IntToDecimal(x.genreIds[k]) == selected[j]
  }

  /** What an item must satisfy to be listed. */
  predicate Passes(x: Show, minRating: Option<int>, range: YearRange, selected: seq<string>)
  {
    && (minRating.Some? ==> RatingAtLeast(x, minRating.value))
    && (range.from.Some? ==> YearFrom(x, range.from.value))
    && (range.to.Some? ==> YearTo(x, range.to.value))
    && HasGenres(x, selected)
  }

  /** The filter part of `filteredSorted`, step by step as the page runs it. */
  function Filtered(shows: seq<Show>, minRating: Option<int>, range: YearRange, selected: seq<string>): seq<Show>
  {
    var a := if minRating.Some? then Where(shows, x => RatingAtLeast(x, minRating.value)) else shows;
    var b := if range.from.Some? then Where(a, x => YearFrom(x, range.from.value)) else a;
    var c := if range.to.Some? then Where(b, x => YearTo(x, range.to.value)) else b;
    if |selected| > 0 then Where(c, x => HasGenres(x, selected)) else c
  }

  /** An item is listed exactly when it was fetched and passes every active filter; filtering
      never adds or duplicates. */
  lemma FilteredRules(shows: seq<Show>, minRating: Option<int>, range: YearRange, selected: seq<string>)
    ensures forall x :: x in Filtered(shows, minRating, range, selected)
                        <==> x in shows && Passes(x, minRating, range, selected)
    ensures multiset(Filtered(shows, minRating, range, selected)) <= multiset(shows)
  {
    var a := if minRating.Some? then Where(shows, x => RatingAtLeast(x, minRating.value)) else shows;
    if minRating.Some? { WhereRules(shows, x => RatingAtLeast(x, minRating.value)); }
    var b := if range.from.Some? then Where(a, x => YearFrom(x, range.from.value)) else a;
    if range.from.Some? { WhereRules(a, x => YearFrom(x, range.from.value)); }
    var c := if range.to.Some? then Where(b, x => YearTo(x, range.to.value)) else b;
    if range.to.Some? { WhereRules(b, x => YearTo(x, range.to.value)); }
    if |selected| > 0 { WhereRules(c, x => HasGenres(x, selected)); }
  }

  /** A missing rating counts as -1, so a show without a rating passes no minimum of 1 to 9. */
  lemma UnratedFailsMinimum(x: Show, min: int)
    requires x.rating.None? && min >= 0
    ensures !Passes(x, Some(min), YearRange(None, None), [])
  {
  }

  /** A missing year counts as 0 against a lower bound and as 9999 against an upper one, so an
      undated item survives only an upper bound of 9999 or more. */
  lemma UndatedYears(x: Show, from: int, to: int)
    requires x.year.None?
    ensures Passes(x, None, YearRange(Some(from), None), []) <==> from <= 0
    ensures Passes(x, None, YearRange(None, Some(to)), []) <==> to >= 9999
  {
  }

  /** The sort key of the `rating` and `year` orders, both descending. */
  function RatingKey(x: Show): real { x.rating.GetOr(-1.0) }
  function YearKey(x: Show): real { x.year.GetOr(0) as real }

  /** The comparator of `filteredSorted`; `titleOrder` is `localeCompare` on the titles. */
  function Comparator(sortBy: string, titleOrder: (string, string) -> int): (Show, Show) -> bool
  {
    if sortBy == "rating" then (a: Show, b: Show) => RatingKey(b) - RatingKey(a) <= 0.0
    else if sortBy == "year" then (a: Show, b: Show) => YearKey(b) - YearKey(a) <= 0.0
    else (a: Show, b: Show) => titleOrder(a.title, b.title) <= 0
  }

  /** `filteredSorted`: the filtered items, reordered and nothing else; by rating or year the
      order is descending, a missing rating counting as -1 and a missing year as 0. */
  function FilteredSorted(shows: seq<Show>, minRating: Option<int>, range: YearRange, selected: seq<string>,
                          sortBy: string, titleOrder: (string, string) -> int): seq<Show>
  {
    SortWith(Filtered(shows, minRating, range, selected), Comparator(sortBy, titleOrder))
  }

  lemma FilteredSortedRules(shows: seq<Show>, minRating: Option<int>, range: YearRange, selected: seq<string>,
                            sortBy: string, titleOrder: (string, string) -> int)
    ensures var r := FilteredSorted(shows, minRating, range, selected, sortBy, titleOrder);
      var f := Filtered(shows, minRating, range, selected);
      && multiset(r) == multiset(f)
      && (forall x :: x in r <==> x in shows && Passes(x, minRating, range, selected))
      && (sortBy == "rating" ==> Descending(r, RatingKey))
      && (sortBy == "year" ==> Descending(r, YearKey))
      // ties keep the order the filter left them in
      && (sortBy == "rating" ==> forall k :: WithKey(r, RatingKey, k) == WithKey(f, RatingKey, k))
      && (sortBy == "year" ==> forall k :: WithKey(r, YearKey, k) == WithKey(f, YearKey, k))
  {
    var f := Filtered(shows, minRating, range, selected);
    FilteredRules(shows, minRating, range, selected);
    var r := FilteredSorted(shows, minRating, range, selected, sortBy, titleOrder);
    SortWithPermutes(f, Comparator(sortBy, titleOrder));
    assert forall x :: x in r <==> x in multiset(r);
    if sortBy == "rating" {
      SortWithDescending(f, Comparator(sortBy, titleOrder), RatingKey);
      forall k ensures WithKey(r, RatingKey, k) == WithKey(f, RatingKey, k) {
        SortWithStable(f, Comparator(sortBy, titleOrder), RatingKey, k);
      }
    } else if sortBy == "year" {
      SortWithDescending(f, Comparator(sortBy, titleOrder), YearKey);
      forall k ensures WithKey(r, YearKey, k) == WithKey(f, YearKey, k) {
        SortWithStable(f, Comparator(sortBy, titleOrder), YearKey, k);
      }
    }
  }

  /** `Math.max(1, Math.ceil(n / PAGE_SIZE))`. */
  function TotalPages(n: nat): (pages: nat)
    ensures pages >= 1
    ensures n <= pages * PageSize
    ensures n == 0 || (pages - 1) * PageSize < n
  {
    if n == 0 then 1 else (n + PageSize - 1) / PageSize
  }

  /** `list.slice(start, start + PAGE_SIZE)` with `start = (uiPage - 1) * PAGE_SIZE`; `uiPage`
      starts at 1 and only `goPrev` lowers it, never below 1. */
  function PageItems(list: seq<Show>, uiPage: int): (r: seq<Show>)
    requires uiPage >= 1
    ensures |r| <= PageSize
    ensures var start := (uiPage - 1) * PageSize;
      start < |list| ==> r == list[start..if start + PageSize < |list| then start + PageSize else |list|]
    ensures (uiPage - 1) * PageSize >= |list| ==> r == []
  {
    var start := (uiPage - 1) * PageSize;
    if start >= |list| then []
    else list[start..if start + PageSize < |list| then start + PageSize else |list|]
  }

  /** Paging loses nothing: item `i` is shown on page `i / 30 + 1`, which exists, at
      position `i % 30`. */
  lemma EveryItemOnSomePage(list: seq<Show>, i: nat)
    requires i < |list|
    ensures var page := i / PageSize + 1;
      && page <= TotalPages(|list|)
      && i % PageSize < |PageItems(list, page)|
      && PageItems(list, page)[i % PageSize] == list[i]
  {
    var page := i / PageSize + 1;
    assert (page - 1) * PageSize + i % PageSize == i;
    assert (page - 1) * PageSize <= i;
  }

  /** `canPrev`. */
  predicate CanPrev(uiPage: int) { uiPage > 1 }

  /** `canNext`: more filtered items past this page, or more to fetch. */
  predicate CanNext(uiPage: int, n: nat, hasMore: bool)
  {
    (uiPage - 1) * PageSize + PageSize < n || hasMore
  }

  /** `goPrev()`: the page after the click. */
  function GoPrev(uiPage: int): (r: int)
    ensures uiPage >= 1 ==> r >= 1
    ensures CanPrev(uiPage) ==> r == uiPage - 1
    ensures !CanPrev(uiPage) ==> r == uiPage
  {
    if !CanPrev(uiPage) then uiPage else Max(1, uiPage - 1)
  }

  /** `goNext()` once its fetch is done (the fetch itself is not modelled). */
  function GoNext(uiPage: int, n: nat, hasMore: bool): (r: int)
    ensures r >= uiPage
    ensures r == uiPage + 1 <==> CanNext(uiPage, n, hasMore)
  {
    if !CanNext(uiPage, n, hasMore) then uiPage else uiPage + 1
  }

  /** Without more to fetch, `Next` is offered exactly on the pages before the last one, and a
      click never leaves the existing pages. */
  lemma NavigationStaysInRange(uiPage: int, n: nat)
    requires 1 <= uiPage <= TotalPages(n)
    ensures CanNext(uiPage, n, false) <==> uiPage < TotalPages(n)
    ensures 1 <= GoNext(uiPage, n, false) <= TotalPages(n)
    ensures 1 <= GoPrev(uiPage) <= TotalPages(n)
  {
    var t := TotalPages(n);
    if uiPage < t {
      assert uiPage * PageSize <= (t - 1) * PageSize < n;
    } else {
      assert uiPage * PageSize >= n;
    }
  }
}
