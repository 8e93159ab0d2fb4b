/**
 * The personalised rows of the standalone home page (src/pages/HomePage.jsx):
 * the two genres seen most often among the list's shows (and, separately, its
 * movies) are looked up on TMDB, and the results of those lookups are merged
 * into one row without repeated ids, cut to twelve cards. The TMDB answers
 * are parameters; a lookup that throws (caught for movies) is an empty batch.
 */
module HomeFeed {
  import opened Common
  import opened JsValues
  import opened Sorting

  /** The keys of a `Map` filled with these values in turn: each value once, in the order
      of its first occurrence. */
  function Keys(values: seq<int>): seq<int>
  {
    if values == [] then []
    else
      var keys := Keys(values[..|values| - 1]);
      var v := values[|values| - 1];
      if v in keys then keys else keys + [v]
  }

  /** The keys are exactly the values, each once. */
  lemma {:induction false} KeysRules(values: seq<int>)
    ensures forall v :: v in Keys(values) <==> v in values
    ensures forall i, j :: 0 <= i < j < |Keys(values)| ==> Keys(values)[i] != Keys(values)[j]
  {
    if values != [] {
      var front := values[..|values| - 1];
      KeysRules(front);
      assert values == front + [values[|values| - 1]];
    }
  }

  /** `map.get(v)`: how often `v` occurs. */
  function Count(values: seq<int>, v: int): nat { multiset(values)[v] }

  /** An entry `[key, count]` of the counting map. */
  type Entry = (int, nat)

  /** The comparator `(a, b) => b[1] - a[1]`, read as "a may stay in front of b". */
  function ByCountBefore(): (Entry, Entry) -> bool
  {
    (a: Entry, b: Entry) => b.1 - a.1 <= 0
  }

  /** `Array.from(map.entries())` once every value is counted: keys in first-seen order. */
  function Entries(values: seq<int>): seq<Entry>
  {
    var keys := Keys(values);
    seq(|keys|, j requires 0 <= j < |keys| => (keys[j], Count(values, keys[j])))
  }

  /** The counting map after `map.set(v, (map.get(v) || 0) + 1)` for each value in turn. */
  function Tally(values: seq<int>): map<int, nat>
  {
    if values == [] then map[]
    else
      var counts := Tally(values[..|values| - 1]);
      var v := values[|values| - 1];
      counts[v := (if v in counts then counts[v] else 0) + 1]
  }

  /** The map holds exactly the values, each with the number of its occurrences. */
  lemma {:induction false} TallyKeys(values: seq<int>)
    ensures forall v :: v in Tally(values) <==> v in values
    ensures forall v :: v in Tally(values) ==> Tally(values)[v] == Count(values, v)
  {
    if values != [] {
      var front := values[..|values| - 1];
      TallyKeys(front);
      assert values == front + [values[|values| - 1]];
    }
  }

  /** A value is already counted exactly when it is already among the map's keys. */
  lemma TallyAgrees(values: seq<int>, v: int)
    ensures v in Tally(values) <==> v in Keys(values)
  {
    KeysRules(values);
    TallyKeys(values);
  }

  /** Each key of the map, in insertion order, with its count. */
  lemma TallyEntries(values: seq<int>)
    ensures var keys := Keys(values);
      forall j :: 0 <= j < |keys| ==> keys[j] in Tally(values) && Tally(values)[keys[j]] == Count(values, keys[j])
  {
    var keys := Keys(values);
    KeysRules(values);
    TallyKeys(values);
    forall j | 0 <= j < |keys| ensures keys[j] in Tally(values) {
      assert keys[j] in Keys(values);
      assert keys[j] in values;
    }
  }

  /** What `topNCounts(values, n)` returns. */
  function TopN(values: seq<int>, n: nat): seq<int>
  {
    var sorted := SortWith(Entries(values), ByCountBefore());
    var m := if n < |sorted| then n else |sorted|;
    seq(m, j requires 0 <= j < m => sorted[j].0)
  }

  /** The counting loop of `topNCounts`; `order` is the map's insertion order. */
  method CountValues(values: seq<int>) returns (counts: map<int, nat>, order: seq<int>)
    ensures counts == Tally(values) && order == Keys(values)
  {
    counts, order := map[], [];
    var i := 0;
    while i < |values|
      invariant 0 <= i <= |values|
      invariant counts == Tally(values[..i]) && order == Keys(values[..i])
    {
      var v := values[i];
      assert values[..i + 1][..i] == values[..i];
      TallyAgrees(values[..i], v);
      var c := if v in counts then counts[v] else 0;
      if v !in counts {
        order := order + [v];
      }
      counts := counts[v := c + 1];
      i := i + 1;
    }
    assert values[..i] == values;
  }

  /** `topNCounts(values, n)`: count in a `Map`, sort the entries by count (ties keep
      first-seen order), keep the first `n` keys. */
  method TopNCounts(values: seq<int>, n: nat) returns (top: seq<int>)
    ensures top == TopN(values, n)
  {
    var counts, order := CountValues(values);
    TallyEntries(values);
    var entries := seq(|order|, j requires 0 <= j < |order| => (order[j], counts[order[j]]));
    assert entries == Entries(values);
    var sorted := SortWith(entries, ByCountBefore());
    var m := if n < |sorted| then n else |sorted|;
    top := seq(m, j requires 0 <= j < m => sorted[j].0);
  }

  lemma {:induction false} DistinctCount<T>(s: seq<T>, x: T)
    requires forall i, j :: 0 <= i < j < |s| ==> s[i] != s[j]
    ensures multiset(s)[x] <= 1
  {
    if s != [] {
      DistinctCount(s[1..], x);
      assert s == [s[0]] + s[1..];
      if x == s[0] {
        assert x !in s[1..];
      }
    }
  }

  lemma DuplicateCount<T>(s: seq<T>, i: int, j: int)
    requires 0 <= i < j < |s| && s[i] == s[j]
    ensures multiset(s)[s[i]] >= 2
  {
    assert s == s[..i] + [s[i]] + s[i + 1..j] + [s[j]] + s[j + 1..];
  }

  /** Every sorted entry is a counted key with its count. */
  lemma SortedAreEntries(values: seq<int>)
    ensures forall k :: 0 <= k < |SortWith(Entries(values), ByCountBefore())| ==>
              && SortWith(Entries(values), ByCountBefore())[k].0 in values
              && SortWith(Entries(values), ByCountBefore())[k].1
                 == Count(values, SortWith(Entries(values), ByCountBefore())[k].0)
  {
    var keys := Keys(values);
    var e := Entries(values);
    var sorted := SortWith(e, ByCountBefore());
    KeysRules(values);
    SortWithPermutes(e, ByCountBefore());
    forall k | 0 <= k < |sorted| ensures sorted[k].0 in values && sorted[k].1 == Count(values, sorted[k].0) {
      assert sorted[k] in multiset(e);
      var t :| 0 <= t < |e| && e[t] == sorted[k];
      assert keys[t] in keys;
    }
  }

  /** No key is sorted twice. */
  lemma SortedDistinct(values: seq<int>)
    ensures var sorted := SortWith(Entries(values), ByCountBefore());
      forall i, j :: 0 <= i < j < |sorted| ==> sorted[i].0 != sorted[j].0
  {
    var e := Entries(values);
    var sorted := SortWith(e, ByCountBefore());
    KeysRules(values);
    SortWithPermutes(e, ByCountBefore());
    SortedAreEntries(values);
    forall i, j | 0 <= i < j < |sorted| ensures sorted[i].0 != sorted[j].0 {
      if sorted[i].0 == sorted[j].0 {
        assert sorted[i] == sorted[j];
        DuplicateCount(sorted, i, j);
        assert forall a, b :: 0 <= a < b < |e| ==> e[a] != e[b];
        DistinctCount(e, sorted[i]);
        assert false;
      }
    }
  }

  /** Every value is sorted, with its count. */
  lemma SortedComplete(values: seq<int>)
    ensures var sorted := SortWith(Entries(values), ByCountBefore());
      forall v :: v in values ==> (v, Count(values, v)) in sorted
  {
    var keys := Keys(values);
    var e := Entries(values);
    var sorted := SortWith(e, ByCountBefore());
    KeysRules(values);
    SortWithPermutes(e, ByCountBefore());
    forall v | v in values ensures (v, Count(values, v)) in sorted {
      var t :| 0 <= t < |keys| && keys[t] == v;
      assert e[t] == (v, Count(values, v));
      assert e[t] in multiset(sorted);
    }
  }

  /** The sorted entries are the counted keys, each once, with their counts, largest first. */
  lemma SortedEntries(values: seq<int>)
    ensures var sorted := SortWith(Entries(values), ByCountBefore());
      && (forall k :: 0 <= k < |sorted| ==> sorted[k].0 in values && sorted[k].1 == Count(values, sorted[k].0))
      && (forall i, j :: 0 <= i < j < |sorted| ==> sorted[i].0 != sorted[j].0)
      && (forall i, j :: 0 <= i < j < |sorted| ==> sorted[i].1 >= sorted[j].1)
      && (forall v :: v in values ==> (v, Count(values, v)) in sorted)
  {
    SortedAreEntries(values);
    SortedDistinct(values);
    SortedComplete(values);
    SortWithDescending(Entries(values), ByCountBefore(), (x: Entry) => x.1 as real);
  }

  lemma TopNElements(values: seq<int>, n: nat)
    ensures var sorted := SortWith(Entries(values), ByCountBefore());
      && |TopN(values, n)| == (if n < |sorted| then n else |sorted|)
      && forall j :: 0 <= j < |TopN(values, n)| ==> TopN(values, n)[j] == sorted[j].0
  {
  }

  /** No value left out is more frequent than a returned one. */
  lemma TopNLeavesLessFrequent(values: seq<int>, n: nat, v: int, j: int)
    requires v in values && v !in TopN(values, n) && 0 <= j < |TopN(values, n)|
    ensures Count(values, v) <= Count(values, TopN(values, n)[j])
  {
    var sorted := SortWith(Entries(values), ByCountBefore());
    SortedEntries(values);
    TopNElements(values, n);
    var top := TopN(values, n);
    var k :| 0 <= k < |sorted| && sorted[k] == (v, Count(values, v));
    assert forall t :: 0 <= t < |top| ==> sorted[t].0 != v by {
      forall t | 0 <= t < |top| ensures sorted[t].0 != v {
        assert top[t] in top;
      }
    }
    assert j < k;
  }

  /** What the page relies on: at most `n` keys, all different, all among the values,
      most frequent first, every value when there are fewer than `n`, no left-out value
      more frequent than any returned one, and ties in first-seen order. */
  lemma TopNRules(values: seq<int>, n: nat)
    ensures var top := TopN(values, n);
      && |top| <= n
      && (|top| < n ==> forall v :: v in values ==> v in top)
      && (forall i, j :: 0 <= i < j < |top| ==> top[i] != top[j])
      && (forall j :: 0 <= j < |top| ==> top[j] in values)
      && (forall i, j :: 0 <= i < j < |top| ==> Count(values, top[i]) >= Count(values, top[j]))
      && (forall v, j :: v in values && v !in top && 0 <= j < |top| ==> Count(values, v) <= Count(values, top[j]))
      && (forall c: nat :: WithCount(top, values, c) <= WithCount(Keys(values), values, c))
  {
    var sorted := SortWith(Entries(values), ByCountBefore());
    SortedEntries(values);
    TopNElements(values, n);
    var top := TopN(values, n);
    forall v, j | v in values && v !in top && 0 <= j < |top|
      ensures Count(values, v) <= Count(values, top[j])
    {
      TopNLeavesLessFrequent(values, n, v, j);
    }
    if |top| < n {
      forall v | v in values ensures v in top {
        var k :| 0 <= k < |sorted| && sorted[k] == (v, Count(values, v));
        assert top[k] == v;
      }
    }
    forall c: nat ensures WithCount(top, values, c) <= WithCount(Keys(values), values, c) {
      TopNKeepsFirstSeen(values, n, c);
    }
  }

  /** The values among `vals` that occur exactly `c` times in `values`, in order. */
  function WithCount(vals: seq<int>, values: seq<int>, c: nat): (r: seq<int>)
    ensures |r| <= |vals|
  {
    if vals == [] then []
    else (if Count(values, vals[0]) == c then [vals[0]] else []) + WithCount(vals[1..], values, c)
  }

  /** The sort key of an entry: its count. */
  function CountOf(e: Entry): real { e.1 as real }

  /** The keys of a run of entries, in order. */
  function KeysOfEntries(entries: seq<Entry>): (r: seq<int>)
    ensures |r| == |entries| && forall j :: 0 <= j < |r| ==> r[j] == entries[j].0
  {
    if entries == [] then [] else [entries[0].0] + KeysOfEntries(entries[1..])
  }

  /** When every entry carries its key's count, picking the entries of count `c` and then
      their keys is picking the keys of count `c`. */
  lemma {:induction false} KeysWithCount(entries: seq<Entry>, values: seq<int>, c: nat)
    requires forall j :: 0 <= j < |entries| ==> entries[j].1 == Count(values, entries[j].0)
    ensures KeysOfEntries(WithKey(entries, CountOf, c as real)) == WithCount(KeysOfEntries(entries), values, c)
  {
    if entries != [] {
      var rest := entries[1..];
      KeysWithCount(rest, values, c);
      var w := WithKey(rest, CountOf, c as real);
      assert KeysOfEntries(entries)[1..] == KeysOfEntries(rest);
      if CountOf(entries[0]) == c as real {
        assert ([entries[0]] + w)[1..] == w;
      }
    }
  }

  /** Ties keep the order in which the map first saw them: for each count, the returned values of
      that count are the first values of that count in first-seen order, so a tie that is cut
      loses its later-seen values. */
  lemma TopNKeepsFirstSeen(values: seq<int>, n: nat, c: nat)
    ensures WithCount(TopN(values, n), values, c) <= WithCount(Keys(values), values, c)
  {
    var sorted := SortWith(Entries(values), ByCountBefore());
    var m := if n < |sorted| then n else |sorted|;
    var top := TopN(values, n);
    SortedAreEntries(values);
    assert top == KeysOfEntries(sorted[..m]);
    assert KeysOfEntries(Entries(values)) == Keys(values);
    var front := sorted[..m];
    forall j | 0 <= j < |front| ensures front[j].1 == Count(values, front[j].0) {
      assert front[j] == sorted[j];
    }
    KeysWithCount(front, values, c);
    KeysWithCount(Entries(values), values, c);
    WithKeyPrefix(sorted, CountOf, c as real, m);
    SortWithStable(Entries(values), ByCountBefore(), CountOf, c as real);
    var short := WithKey(sorted[..m], CountOf, c as real);
    var whole := WithKey(sorted, CountOf, c as real);
    assert KeysOfEntries(short) == KeysOfEntries(whole)[..|short|];
  }

  /** The numbers of a JSON array, in order. */
  function NumbersIn(items: seq<Json>): (r: seq<int>)
    ensures forall v :: v in r <==> Num(v) in items
  {
    if items == [] then []
    else
      assert items == [items[0]] + items[1..];
      (if items[0].Num? then [items[0].n] else []) + NumbersIn(items[1..])
  }

  /** `x.genreIds || []`; the entries `readMyList` returns hold an array of numbers there. */
  function GenreIdsIn(x: Json): seq<int>
  {
    if x.Obj? && "genreIds" in x.fields && x.fields["genreIds"].Arr? then NumbersIn(x.fields["genreIds"].items) else []
  }

  /** `list.filter((x) => x.type === kind).flatMap((x) => x.genreIds || [])`. */
  function GenreValues(list: seq<Json>, kind: string): seq<int>
  {
    if list == [] then []
    else (if Prop(list[0], "type") == Some(Str(kind)) then GenreIdsIn(list[0]) else []) + GenreValues(list[1..], kind)
  }

  /** Some entry of `list` of type `kind` lists genre `g`. */
  predicate GenreOfKind(list: seq<Json>, kind: string, g: int)
  {
    exists j :: 0 <= j < |list| && Prop(list[j], "type") == Some(Str(kind)) && g in GenreIdsIn(list[j])
  }

  /** Every value comes from a list entry of the asked type. */
  lemma {:induction false} GenreValuesFromKind(list: seq<Json>, kind: string, v: int)
    requires v in GenreValues(list, kind)
    ensures GenreOfKind(list, kind, v)
  {
    if Prop(list[0], "type") == Some(Str(kind)) && v in GenreIdsIn(list[0]) {
      assert 0 < |list|;
    } else {
      GenreValuesFromKind(list[1..], kind, v);
      var j :| 0 <= j < |list[1..]| && Prop(list[1..][j], "type") == Some(Str(kind)) && v in GenreIdsIn(list[1..][j]);
      assert list[j + 1] == list[1..][j];
    }
  }

  /** `preferredShowGenreIds` (kind `show`) and `preferredMovieGenreIds` (kind `movie`):
      the two genres most frequent among the entries of that kind in `list`, which the page
      reads once with `readMyList()`. */
  method PreferredGenreIds(list: seq<Json>, kind: string) returns (ids: seq<int>)
    ensures ids == TopN(GenreValues(list, kind), 2)
    ensures |ids| <= 2 && (forall i, j :: 0 <= i < j < |ids| ==> ids[i] != ids[j])
    ensures forall k :: 0 <= k < |ids| ==> GenreOfKind(list, kind, ids[k])
  {
    var values := GenreValues(list, kind);
    ids := TopNCounts(values, 2);
    assert |ids| <= 2 && (forall i, j :: 0 <= i < j < |ids| ==> ids[i] != ids[j])
        && (forall k :: 0 <= k < |ids| ==> ids[k] in values) by {
      TopNRules(values, 2);
    }
    forall k | 0 <= k < |ids| ensures GenreOfKind(list, kind, ids[k]) {
      GenreValuesFromKind(list, kind, ids[k]);
    }
  }

  /** A card of a "for you" row; only its id takes part in the merge. */
  datatype Card = Card(id: int, title: string)

  /** The ids of some cards: the `seen` set once they are pushed. */
  function IdsOf(cards: seq<Card>): set<int>
  {
    if cards == [] then {} else IdsOf(cards[..|cards| - 1]) + {cards[|cards| - 1].id}
  }

  lemma {:induction false} IdsOfMembers(cards: seq<Card>, k: int)
    ensures k in IdsOf(cards) <==> exists j :: 0 <= j < |cards| && cards[j].id == k
  {
    if cards != [] {
      var front := cards[..|cards| - 1];
      IdsOfMembers(front, k);
      if exists j :: 0 <= j < |cards| && cards[j].id == k {
        var j :| 0 <= j < |cards| && cards[j].id == k;
        if j < |cards| - 1 {
          assert front[j].id == k;
        }
      }
    }
  }

  /** The cards kept when each one is pushed only if its id has not been seen before. */
  function Deduped(cards: seq<Card>): (r: seq<Card>)
    ensures |r| <= |cards|
  {
    if cards == [] then []
    else
      var kept := Deduped(cards[..|cards| - 1]);
      var c := cards[|cards| - 1];
      if c.id in IdsOf(kept) then kept else kept + [c]
  }

  /** No two kept cards share an id, every kept card was fetched, and every fetched id is
      kept. */
  lemma {:induction false} DedupedRules(cards: seq<Card>)
    ensures var r := Deduped(cards);
      && (forall i, j :: 0 <= i < j < |r| ==> r[i].id != r[j].id)
      && (forall c :: c in r ==> c in cards)
      && IdsOf(r) == IdsOf(cards)
  {
    if cards != [] {
      var front := cards[..|cards| - 1];
      var c := cards[|cards| - 1];
      DedupedRules(front);
      var kept := Deduped(front);
      if c.id !in IdsOf(kept) {
        var r := kept + [c];
        assert r[..|r| - 1] == kept;
        forall i, j | 0 <= i < j < |r| ensures r[i].id != r[j].id {
          if j == |r| - 1 {
            IdsOfMembers(kept, c.id);
          }
        }
      }
    }
  }

  lemma DedupedSnoc(cards: seq<Card>, c: Card)
    ensures Deduped(cards + [c]) == if c.id in IdsOf(Deduped(cards)) then Deduped(cards) else Deduped(cards) + [c]
  {
    assert (cards + [c])[..|cards|] == cards;
  }

  lemma IdsOfSnoc(cards: seq<Card>, c: Card)
    ensures IdsOf(cards + [c]) == IdsOf(cards) + {c.id}
  {
    assert (cards + [c])[..|cards|] == cards;
  }

  function Flatten<T>(batches: seq<seq<T>>): seq<T>
  {
    if batches == [] then [] else Flatten(batches[..|batches| - 1]) + batches[|batches| - 1]
  }

  const RowLimit: nat := 12

  /** The row the page shows: the merged cards, first twelve. */
  function ForYouRow(batches: seq<seq<Card>>): seq<Card>
  {
    var merged := Deduped(Flatten(batches));
    if |merged| <= RowLimit then merged else merged[..RowLimit]
  }

  /** One step of the inner loop: the card at `i` is pushed exactly when its id is new. */
  lemma MergeStep(done: seq<Card>, batch: seq<Card>, i: int)
    requires 0 <= i < |batch|
    ensures var kept := Deduped(done + batch[..i]);
      && Deduped(done + batch[..i + 1])
         == (if batch[i].id in IdsOf(kept) then kept else kept + [batch[i]])
      && IdsOf(kept + [batch[i]]) == IdsOf(kept) + {batch[i].id}
  {
    assert done + batch[..i + 1] == (done + batch[..i]) + [batch[i]];
    DedupedSnoc(done + batch[..i], batch[i]);
    IdsOfSnoc(Deduped(done + batch[..i]), batch[i]);
  }

  /** The inner loop of the merge: push each card of one batch whose id is not yet seen. */
  method MergeBatch(merged: seq<Card>, seen: set<int>, batch: seq<Card>, ghost done: seq<Card>)
    returns (merged': seq<Card>, seen': set<int>)
    requires merged == Deduped(done) && seen == IdsOf(merged)
    ensures merged' == Deduped(done + batch) && seen' == IdsOf(merged')
  {
    merged', seen' := merged, seen;
    var i := 0;
    assert done + batch[..0] == done;
    while i < |batch|
      invariant 0 <= i <= |batch|
      invariant merged' == Deduped(done + batch[..i]) && seen' == IdsOf(merged')
    {
      MergeStep(done, batch, i);
      var s := batch[i];
      if s.id !in seen' {
        seen' := seen' + {s.id};
        merged' := merged' + [s];
      }
      i := i + 1;
    }
    assert batch[..i] == batch;
  }

  /** The merge loop: for each preferred genre's results, push each card whose id is not yet
      in `seen`; then `merged.slice(0, 12)`. */
  method MergeForYou(batches: seq<seq<Card>>) returns (row: seq<Card>)
    ensures row == ForYouRow(batches)
  {
    var merged: seq<Card> := [];
    var seen: set<int> := {};
    var b := 0;
    while b < |batches|
      invariant 0 <= b <= |batches|
      invariant merged == Deduped(Flatten(batches[..b])) && seen == IdsOf(merged)
    {
      assert batches[..b + 1][..b] == batches[..b];
      merged, seen := MergeBatch(merged, seen, batches[b], Flatten(batches[..b]));
      b := b + 1;
    }
    assert batches[..b] == batches;
    row := if |merged| <= RowLimit then merged else merged[..RowLimit];
  }

  /** The row never repeats an id, holds at most twelve cards, shows only fetched cards, and
      is cut only when more than twelve distinct ids came back. */
  lemma ForYouRowRules(batches: seq<seq<Card>>)
    ensures var row := ForYouRow(batches);
      && |row| <= RowLimit
      && (forall i, j :: 0 <= i < j < |row| ==> row[i].id != row[j].id)
      && (forall c :: c in row ==> c in Flatten(batches))
      && (|row| < RowLimit ==> IdsOf(row) == IdsOf(Flatten(batches)))
  {
    var merged := Deduped(Flatten(batches));
    DedupedRules(Flatten(batches));
    var row := ForYouRow(batches);
    forall i, j | 0 <= i < j < |row| ensures row[i].id != row[j].id {
      assert row[i] == merged[i] && row[j] == merged[j];
    }
    forall c | c in row ensures c in Flatten(batches) {
      assert c in merged;
    }
  }
}
