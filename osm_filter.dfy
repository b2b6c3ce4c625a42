/**
 * `filter_important_places`: sort the places by (rating, length of the Wikidata id) descending,
 * in place and stably, then keep at most a fixed number of places per category.
 */
module OsmFilter {
  import opened OsmPlace

  /** The sort key `(rating, len(wikidata_id))` of `p` is smaller than that of `q` (tuple order). */
  predicate KeyLess(p: Place, q: Place) {
    p.rating < q.rating || (p.rating == q.rating && |p.wikidataId| < |q.wikidataId|)
  }

  /** Ordered by the sort key, largest first. */
  predicate SortedDesc(s: seq<Place>) {
    forall i, j :: 0 <= i < j < |s| ==> !KeyLess(s[i], s[j])
  }

  /** Inserts `p` after every element of `s` whose key is not smaller than `p`'s, so that among
      equal keys the earlier element stays first (a stable insertion). */
  function Insert(s: seq<Place>, p: Place): (r: seq<Place>)
    ensures |r| == |s| + 1
  {
    if s == [] || !KeyLess(s[|s| - 1], p) then s + [p]
    else Insert(s[..|s| - 1], p) + [s[|s| - 1]]
  }

  /** `places.sort(key=…, reverse=True)`: Python's stable sort, largest key first, equal keys in
      input order; defined as insertion of each element, left to right. */
  function SortDesc(s: seq<Place>): (r: seq<Place>)
    ensures |r| == |s|
  {
    if s == [] then [] else Insert(SortDesc(s[..|s| - 1]), s[|s| - 1])
  }

  lemma {:induction false} InsertPermutes(s: seq<Place>, p: Place)
    ensures multiset(Insert(s, p)) == multiset(s) + multiset{p}
  {
    if s != [] && KeyLess(s[|s| - 1], p) {
      var init := s[..|s| - 1];
      assert s == init + [s[|s| - 1]];
      InsertPermutes(init, p);
    }
  }

  lemma {:induction false} InsertSorted(s: seq<Place>, p: Place)
    requires SortedDesc(s)
    ensures SortedDesc(Insert(s, p))
  {
    if s != [] && KeyLess(s[|s| - 1], p) {
      var init := s[..|s| - 1];
      var last := s[|s| - 1];
      InsertSorted(init, p);
      InsertPermutes(init, p);
      var r := Insert(init, p);
      forall i | 0 <= i < |r| ensures !KeyLess(r[i], last) {
        assert r[i] in multiset(r);
        if r[i] != p {
          assert r[i] in multiset(init);
          var k :| 0 <= k < |init| && init[k] == r[i];
          assert s[k] == r[i];
        }
      }
      assert Insert(s, p) == r + [last];
    }
  }

  /** The sort orders by key, largest first, and keeps exactly the same places. */
  lemma {:induction false} SortDescCorrect(s: seq<Place>)
    ensures SortedDesc(SortDesc(s))
    ensures multiset(SortDesc(s)) == multiset(s)
  {
    if s != [] {
      var init := s[..|s| - 1];
      SortDescCorrect(init);
      InsertSorted(SortDesc(init), s[|s| - 1]);
      InsertPermutes(SortDesc(init), s[|s| - 1]);
      assert s == init + [s[|s| - 1]];
    }
  }

  /** Sorting a list that is already in order leaves it unchanged. */
  lemma {:induction false} SortDescKeepsSorted(s: seq<Place>)
    requires SortedDesc(s)
    ensures SortDesc(s) == s
  {
    if s != [] {
      var init := s[..|s| - 1];
      assert SortedDesc(init);
      SortDescKeepsSorted(init);
      assert s == init + [s[|s| - 1]];
      if init != [] {
        assert !KeyLess(init[|init| - 1], s[|s| - 1]);
      }
    }
  }

  /** The places of `s` whose sort key is `(rating, idLength)`, in their order in `s`. */
  function SameKey(s: seq<Place>, rating: int, idLength: nat): seq<Place> {
    if s == [] then []
    else
      var p := s[|s| - 1];
      SameKey(s[..|s| - 1], rating, idLength)
        + (if p.rating == rating && |p.wikidataId| == idLength then [p] else [])
  }

  lemma {:induction false} SameKeyAppend(s: seq<Place>, p: Place, rating: int, idLength: nat)
    ensures SameKey(s + [p], rating, idLength)
              == SameKey(s, rating, idLength) + (if p.rating == rating && |p.wikidataId| == idLength then [p] else [])
  {
    assert (s + [p])[..|s|] == s;
  }

  /** Insertion moves `p` only past places with a strictly smaller key, so among the places of
      any one key the order is that of `s + [p]`. */
  lemma {:induction false} InsertStable(s: seq<Place>, p: Place, rating: int, idLength: nat)
    ensures SameKey(Insert(s, p), rating, idLength) == SameKey(s + [p], rating, idLength)
  {
    if s != [] && KeyLess(s[|s| - 1], p) {
      var init := s[..|s| - 1];
      var last := s[|s| - 1];
      var ofP := if p.rating == rating && |p.wikidataId| == idLength then [p] else [];
      var ofLast := if last.rating == rating && |last.wikidataId| == idLength then [last] else [];
      calc {
        SameKey(Insert(s, p), rating, idLength);
        SameKey(Insert(init, p) + [last], rating, idLength);
        { SameKeyAppend(Insert(init, p), last, rating, idLength); }
        SameKey(Insert(init, p), rating, idLength) + ofLast;
        { InsertStable(init, p, rating, idLength); SameKeyAppend(init, p, rating, idLength); }
        SameKey(init, rating, idLength) + ofP + ofLast;
        { assert ofP == [] || ofLast == []; }
        SameKey(init, rating, idLength) + ofLast + ofP;
        { SameKeyAppend(init, last, rating, idLength); assert s == init + [last]; }
        SameKey(s, rating, idLength) + ofP;
        { SameKeyAppend(s, p, rating, idLength); }
        SameKey(s + [p], rating, idLength);
      }
    }
  }

  /** The sort is stable: for every key, the places with that key come out in their input order. */
  lemma {:induction false} SortDescStable(s: seq<Place>, rating: int, idLength: nat)
    ensures SameKey(SortDesc(s), rating, idLength) == SameKey(s, rating, idLength)
  {
    if s != [] {
      var init := s[..|s| - 1];
      var last := s[|s| - 1];
      SortDescStable(init, rating, idLength);
      InsertStable(SortDesc(init), last, rating, idLength);
      SameKeyAppend(SortDesc(init), last, rating, idLength);
    }
  }

  /** `Insert` puts `p` at the position `j` before which no key is smaller and after which every
      key is smaller. */
  lemma {:induction false} InsertPosition(s: seq<Place>, p: Place, j: nat)
    requires j <= |s|
    requires j == 0 || !KeyLess(s[j - 1], p)
    requires forall k :: j <= k < |s| ==> KeyLess(s[k], p)
    ensures Insert(s, p) == s[..j] + [p] + s[j..]
  {
    if j == |s| {
      assert s[..j] == s && s[j..] == [];
    } else {
      var init := s[..|s| - 1];
      var last := s[|s| - 1];
      assert KeyLess(last, p);
      assert Insert(s, p) == Insert(init, p) + [last];
      assert j == 0 || init[j - 1] == s[j - 1];
      assert forall k :: j <= k < |init| ==> init[k] == s[k];
      InsertPosition(init, p, j);
      assert init[..j] == s[..j];
      assert s[j..] == init[j..] + [last];
    }
  }

  /** An array holding `sorted` with `p` at position `j` and the later elements one place
      further right, followed by `rest`. */
  lemma Shifted(arr: seq<Place>, sorted: seq<Place>, p: Place, rest: seq<Place>, j: nat)
    requires j <= |sorted| && |arr| == |sorted| + 1 + |rest|
    requires forall k :: 0 <= k < j ==> arr[k] == sorted[k]
    requires arr[j] == p
    requires forall k :: j < k <= |sorted| ==> arr[k] == sorted[k - 1]
    requires forall k :: |sorted| < k < |arr| ==> arr[k] == rest[k - |sorted| - 1]
    ensures arr == sorted[..j] + [p] + sorted[j..] + rest
  {
  }

  /** The loop of an insertion step: the elements of `sorted` at the end of it whose key is
      smaller than `p`'s move one position right, and `j` is the gap they leave. */
  method ShiftSmaller(a: array<Place>, i: nat, p: Place, ghost sorted: seq<Place>, ghost rest: seq<Place>)
    returns (j: nat)
    requires i < a.Length && a[..] == sorted + [p] + rest && |sorted| == i
    modifies a
    ensures j <= i
    ensures forall k :: 0 <= k < j ==> a[k] == sorted[k]
    ensures forall k :: j < k <= i ==> a[k] == sorted[k - 1]
    ensures forall k :: i < k < a.Length ==> a[k] == rest[k - i - 1]
    ensures j == 0 || !KeyLess(sorted[j - 1], p)
    ensures forall k :: j <= k < i ==> KeyLess(sorted[k], p)
  {
    assert forall k :: 0 <= k < i ==> a[k] == a[..][k];
    j := i;
    while j > 0 && KeyLess(a[j - 1], p)
      invariant 0 <= j <= i
      invariant forall k :: 0 <= k < j ==> a[k] == sorted[k]
      invariant forall k :: j < k <= i ==> a[k] == sorted[k - 1]
      invariant forall k :: i < k < a.Length ==> a[k] == rest[k - i - 1]
      invariant forall k :: j <= k < i ==> KeyLess(sorted[k], p)
    {
      a[j] := a[j - 1];
      j := j - 1;
    }
  }

  /** One step of the in-place insertion sort: `a[i]` moves left past every element with a
      strictly smaller key, the elements it passes shift one position right. */
  method InsertAt(a: array<Place>, i: nat)
    requires i < a.Length
    modifies a
    ensures a[..] == Insert(old(a[..i]), old(a[i])) + old(a[i + 1..])
  {
    var p := a[i];
    ghost var sorted := a[..i];
    ghost var rest := a[i + 1..];
    assert a[..] == sorted + [p] + rest;
    var j := ShiftSmaller(a, i, p, sorted, rest);
    a[j] := p;
    InsertPosition(sorted, p, j);
    Shifted(a[..], sorted, p, rest, j);
  }

  /** The in-place sort of `places`: insertion of each element in turn into the sorted prefix. */
  method SortPlaces(a: array<Place>)
    modifies a
    ensures a[..] == SortDesc(old(a[..]))
  {
    var i := 0;
    while i < a.Length
      invariant 0 <= i <= a.Length
      invariant a[..i] == SortDesc(old(a[..])[..i])
      invariant a[i..] == old(a[..])[i..]
    {
      assert old(a[..])[..i + 1][..i] == old(a[..])[..i];
      InsertAt(a, i);
      assert a[..] == a[..i + 1] + a[i + 1..];
      i := i + 1;
    }
    assert a[..] == a[..a.Length];
    assert old(a[..]) == old(a[..])[..a.Length];
  }

  /** `category_limits`; any other category is limited to `DefaultLimit`. */
  const CategoryLimits: map<string, nat> := map[
    "museo" := 15, "mirador" := 20, "iglesia" := 12, "basilica" := 5, "mercado" := 8,
    "plaza" := 10, "patrimonio_historico" := 20, "teatro" := 5, "teleferico" := 15,
    "parque" := 8, "atraccion_natural" := 15, "otros" := 15
  ]

  const DefaultLimit: nat := 10

  /** `category_limits.get(category, 10)` */
  function LimitFor(category: string): nat {
    if category in CategoryLimits then CategoryLimits[category] else DefaultLimit
  }

  /** How many places of `s` are in `category`. */
  function CountCat(s: seq<Place>, category: string): nat {
    if s == [] then 0
    else CountCat(s[..|s| - 1], category) + (if s[|s| - 1].categoria == category then 1 else 0)
  }

  /** The places the selection loop keeps from `s`, in order: a place is kept while fewer than
      its category's limit have been kept before it. */
  function Capped(s: seq<Place>): seq<Place> {
    if s == [] then []
    else
      var kept := Capped(s[..|s| - 1]);
      var p := s[|s| - 1];
      if CountCat(kept, p.categoria) < LimitFor(p.categoria) then kept + [p] else kept
  }

  /** `t` is `s` with some elements left out, the rest in their order. */
  predicate IsSubsequence(t: seq<Place>, s: seq<Place>) {
    if t == [] then true
    else if s == [] then false
    else (t[|t| - 1] == s[|s| - 1] && IsSubsequence(t[..|t| - 1], s[..|s| - 1]))
         || IsSubsequence(t, s[..|s| - 1])
  }

  lemma {:induction false} CountCatAppend(s: seq<Place>, p: Place, category: string)
    ensures CountCat(s + [p], category) == CountCat(s, category) + (if p.categoria == category then 1 else 0)
  {
    assert (s + [p])[..|s|] == s;
  }

  /** Each category keeps min(limit, available) places: never more than its limit, and no place
      is dropped while its category is under the limit. */
  lemma {:induction false} CappedCounts(s: seq<Place>, category: string)
    ensures CountCat(Capped(s), category) == if CountCat(s, category) < LimitFor(category)
                                             then CountCat(s, category) else LimitFor(category)
  {
    if s != [] {
      var init := s[..|s| - 1];
      var p := s[|s| - 1];
      CappedCounts(init, category);
      CappedCounts(init, p.categoria);
      var kept := Capped(init);
      if CountCat(kept, p.categoria) < LimitFor(p.categoria) {
        CountCatAppend(kept, p, category);
      }
    }
  }

  /** The kept places are the sorted places with some left out, in their order. */
  lemma {:induction false} CappedIsSubsequence(s: seq<Place>)
    ensures IsSubsequence(Capped(s), s)
  {
    if s != [] {
      var init := s[..|s| - 1];
      var p := s[|s| - 1];
      CappedIsSubsequence(init);
      var kept := Capped(init);
      if CountCat(kept, p.categoria) < LimitFor(p.categoria) {
        assert (kept + [p])[..|kept|] == kept;
      } else if kept != [] {
        assert s[..|s| - 1] == init;
      }
    }
  }

  /** Every element of a subsequence is an element of the sequence. */
  lemma {:induction false} SubsequenceMembers(t: seq<Place>, s: seq<Place>)
    requires IsSubsequence(t, s)
    ensures forall x :: x in t ==> x in s
  {
    if t != [] {
      var si := s[..|s| - 1];
      assert forall x :: x in si ==> x in s;
      if t[|t| - 1] == s[|s| - 1] && IsSubsequence(t[..|t| - 1], si) {
        SubsequenceMembers(t[..|t| - 1], si);
        assert t == t[..|t| - 1] + [t[|t| - 1]];
      } else {
        SubsequenceMembers(t, si);
      }
    }
  }

  /** Leaving elements out of a sorted sequence keeps it sorted. */
  lemma {:induction false} SubsequenceSorted(t: seq<Place>, s: seq<Place>)
    requires IsSubsequence(t, s) && SortedDesc(s)
    ensures SortedDesc(t)
  {
    if t != [] {
      var si := s[..|s| - 1];
      var ti := t[..|t| - 1];
      assert SortedDesc(si);
      if t[|t| - 1] == s[|s| - 1] && IsSubsequence(ti, si) {
        SubsequenceSorted(ti, si);
        SubsequenceMembers(ti, si);
        forall i | 0 <= i < |ti| ensures !KeyLess(t[i], t[|t| - 1]) {
          assert t[i] == ti[i] && ti[i] in si;
          var k :| 0 <= k < |si| && si[k] == ti[i];
          assert s[k] == t[i];
        }
      } else {
        SubsequenceSorted(t, si);
      }
    }
  }

  lemma {:induction false} CountCatInsert(s: seq<Place>, p: Place, category: string)
    ensures CountCat(Insert(s, p), category) == CountCat(s, category) + (if p.categoria == category then 1 else 0)
  {
    if s == [] || !KeyLess(s[|s| - 1], p) {
      CountCatAppend(s, p, category);
    } else {
      var init := s[..|s| - 1];
      CountCatInsert(init, p, category);
      CountCatAppend(Insert(init, p), s[|s| - 1], category);
      assert s == init + [s[|s| - 1]];
      CountCatAppend(init, s[|s| - 1], category);
    }
  }

  /** Sorting does not change how many places each category has. */
  lemma {:induction false} CountCatSort(s: seq<Place>, category: string)
    ensures CountCat(SortDesc(s), category) == CountCat(s, category)
  {
    if s != [] {
      var init := s[..|s| - 1];
      CountCatSort(init, category);
      CountCatInsert(SortDesc(init), s[|s| - 1], category);
    }
  }

  /** `Capped` unfolded at `s + [p]`. */
  lemma CappedStep(s: seq<Place>, p: Place)
    ensures Capped(s + [p]) == if CountCat(Capped(s), p.categoria) < LimitFor(p.categoria)
                               then Capped(s) + [p] else Capped(s)
  {
    assert (s + [p])[..|s|] == s;
  }

  /** `category_counts.get(category, 0)` */
  function CountOf(counts: map<string, nat>, category: string): nat {
    if category in counts then counts[category] else 0
  }

  /** The `category_counts` dictionary holds how many places of each category `kept` has. */
  ghost predicate CountsMatch(counts: map<string, nat>, kept: seq<Place>) {
    forall c :: CountOf(counts, c) == CountCat(kept, c)
  }

  /** Counting one more kept place: its category goes up by one, every other stays. */
  lemma CountsStep(counts: map<string, nat>, kept: seq<Place>, p: Place)
    requires CountsMatch(counts, kept)
    ensures CountsMatch(counts[p.categoria := CountOf(counts, p.categoria) + 1], kept + [p])
  {
    forall c ensures CountOf(counts[p.categoria := CountOf(counts, p.categoria) + 1], c) == CountCat(kept + [p], c) {
      CountCatAppend(kept, p, c);
    }
  }

  /** No category of the capped places exceeds its limit. */
  lemma CappedWithinLimits(s: seq<Place>)
    ensures forall c :: CountCat(Capped(s), c) <= LimitFor(c)
  {
    forall c ensures CountCat(Capped(s), c) <= LimitFor(c) {
      CappedCounts(s, c);
    }
  }

  /** The selection loop of `filter_important_places` over the sorted places: a place is kept
      when `category_counts.get(category, 0)` is below its limit, and its count goes up. */
  method SelectWithinLimits(places: array<Place>) returns (filtered: seq<Place>)
    ensures filtered == Capped(places[..])
    ensures forall c :: CountCat(filtered, c) <= LimitFor(c)
  {
    filtered := [];
    var categoryCounts: map<string, nat> := map[];
    var i := 0;
    while i < places.Length
      invariant 0 <= i <= places.Length
      invariant filtered == Capped(places[..i])
      invariant CountsMatch(categoryCounts, filtered)
    {
      var place := places[i];
      ghost var prefix := places[..i];
      assert places[..i + 1] == prefix + [place];
      CappedStep(prefix, place);
      var category := place.categoria;
      var currentCount := CountOf(categoryCounts, category);
      assert currentCount == CountCat(filtered, category);
      if currentCount < LimitFor(category) {
        CountsStep(categoryCounts, filtered, place);
        filtered := filtered + [place];
        categoryCounts := categoryCounts[category := currentCount + 1];
      }
      i := i + 1;
    }
    assert places[..i] == places[..];
    CappedWithinLimits(places[..]);
  }

  /** `filter_important_places`: sorts `places` in place, then keeps, in sorted order, each place
      whose category has not yet reached its limit. The result is ordered by (rating, Wikidata id
      length) descending, and each category keeps min(limit, number of its input places). */
  method FilterImportantPlaces(places: array<Place>) returns (filtered: seq<Place>)
    modifies places
    ensures places[..] == SortDesc(old(places[..]))
    ensures filtered == Capped(places[..])
    ensures IsSubsequence(filtered, places[..]) && SortedDesc(filtered)
    ensures forall c :: CountCat(filtered, c) == if CountCat(old(places[..]), c) < LimitFor(c)
                                                 then CountCat(old(places[..]), c) else LimitFor(c)
  {
    if places.Length == 0 {
      return [];
    }
    SortPlaces(places);
    filtered := SelectWithinLimits(places);
    CappedIsSubsequence(places[..]);
    SortDescCorrect(old(places[..]));
    SubsequenceSorted(filtered, places[..]);
    forall c ensures CountCat(filtered, c) == if CountCat(old(places[..]), c) < LimitFor(c)
                                               then CountCat(old(places[..]), c) else LimitFor(c)
    {
      CappedCounts(places[..], c);
      CountCatSort(old(places[..]), c);
    }
  }
}
