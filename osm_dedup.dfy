/**
 * `remove_duplicate_names`: one place per case-folded, stripped name, keeping the best rated
 * (the first of them on a tie), in the order in which the names first appear.
 *
 * The dictionary logic is stated for any key function `key`; the extractor uses `NameKey`.
 */
module OsmDedup {
  import opened Text
  import opened OsmPlace

  /** `place['nombre'].strip().lower()` */
  function NameKey(p: Place): string {
    Lower(Strip(p.nombre))
  }

  /** The `unique_names` dictionary: its keys in insertion order and the place stored per key. */
  datatype Names = Names(keys: seq<string>, kept: map<string, Place>)

  /** The keys are distinct, are exactly the dictionary's keys, and each stored place has its key. */
  ghost predicate WellFormed(d: Names, key: Place -> string) {
    && (forall k :: k in d.kept <==> k in d.keys)
    && (forall a, b :: 0 <= a < b < |d.keys| ==> d.keys[a] != d.keys[b])
    && (forall k :: k in d.kept ==> key(d.kept[k]) == k)
  }

  /** The dictionary after the loop has seen `s`: a new name is appended; a known name is
      replaced only by a strictly better rating. */
  function Dedup(s: seq<Place>, key: Place -> string): (d: Names)
    ensures forall k :: k in d.keys ==> k in d.kept
    ensures |d.keys| <= |s|
  {
    if s == [] then Names([], map[])
    else
      var d := Dedup(s[..|s| - 1], key);
      var p := s[|s| - 1];
      var k := key(p);
      if k !in d.kept then Names(d.keys + [k], d.kept[k := p])
      else if p.rating > d.kept[k].rating then Names(d.keys, d.kept[k := p])
      else d
  }

  /** The dictionary is well formed after any prefix of the input. */
  lemma {:induction false} DedupWellFormed(s: seq<Place>, key: Place -> string)
    ensures WellFormed(Dedup(s, key), key)
  {
    if s != [] {
      DedupWellFormed(s[..|s| - 1], key);
    }
  }

  /** `Dedup` unfolded at `s + [p]`; the loop proof uses it. */
  lemma DedupStep(s: seq<Place>, key: Place -> string, p: Place)
    ensures var d := Dedup(s, key);
            Dedup(s + [p], key) ==
              if key(p) !in d.kept then Names(d.keys + [key(p)], d.kept[key(p) := p])
              else if p.rating > d.kept[key(p)].rating then Names(d.keys, d.kept[key(p) := p])
              else d
  {
    assert (s + [p])[..|s|] == s;
  }

  /** The key order after one more place: its key is appended exactly when it is new. */
  lemma DedupKeysStep(s: seq<Place>, key: Place -> string, p: Place)
    ensures Dedup(s + [p], key).keys == if key(p) in Dedup(s, key).kept then Dedup(s, key).keys
                                        else Dedup(s, key).keys + [key(p)]
  {
    DedupStep(s, key, p);
  }

  /** `Dedup` of the prefix of length `i + 1` in terms of the prefix of length `i`. */
  lemma DedupPrefixStep(s: seq<Place>, key: Place -> string, i: nat)
    requires i < |s|
    ensures var d := Dedup(s[..i], key);
            Dedup(s[..i + 1], key) ==
              if key(s[i]) !in d.kept then Names(d.keys + [key(s[i])], d.kept[key(s[i]) := s[i]])
              else if s[i].rating > d.kept[key(s[i])].rating then Names(d.keys, d.kept[key(s[i]) := s[i]])
              else d
  {
    assert s[..i + 1][..i] == s[..i];
  }

  /** `list(unique_names.values())`: the stored places in key insertion order. */
  function Values(d: Names): (r: seq<Place>)
    requires forall k :: k in d.keys ==> k in d.kept
    ensures |r| == |d.keys|
    ensures forall i :: 0 <= i < |r| ==> r[i] == d.kept[d.keys[i]]
  {
    seq(|d.keys|, i requires 0 <= i < |d.keys| => d.kept[d.keys[i]])
  }

  /** Some place of `s` has key `k`. */
  predicate HasKey(s: seq<Place>, key: Place -> string, k: string) {
    exists i :: 0 <= i < |s| && key(s[i]) == k
  }

  /** Every name of the input has an entry, and nothing else does. */
  lemma {:induction false} DedupKeys(s: seq<Place>, key: Place -> string)
    ensures forall k :: k in Dedup(s, key).kept <==> HasKey(s, key, k)
  {
    if s != [] {
      var init := s[..|s| - 1];
      DedupKeys(init, key);
      forall k ensures HasKey(s, key, k) <==> HasKey(init, key, k) || key(s[|s| - 1]) == k {
        if HasKey(s, key, k) && key(s[|s| - 1]) != k {
          var i :| 0 <= i < |s| && key(s[i]) == k;
          assert init[i] == s[i];
        }
        if HasKey(init, key, k) {
          var i :| 0 <= i < |init| && key(init[i]) == k;
          assert s[i] == init[i];
        }
      }
    }
  }

  /** No place of `s` with key `k` is rated above the one kept for `k`. */
  lemma {:induction false} DedupKeepsBest(s: seq<Place>, key: Place -> string, k: string)
    requires k in Dedup(s, key).kept
    ensures forall i :: 0 <= i < |s| && key(s[i]) == k ==> s[i].rating <= Dedup(s, key).kept[k].rating
  {
    var n := |s| - 1;
    var init, p := s[..n], s[n];
    assert s == init + [p];
    DedupStep(init, key, p);
    var d := Dedup(init, key);
    var q := Dedup(s, key).kept[k];
    if k in d.kept {
      DedupKeepsBest(init, key, k);
      assert d.kept[k].rating <= q.rating;
    } else {
      DedupKeys(init, key);
      assert !HasKey(init, key, k);
    }
  }

  /** The place kept for `k` is the place of `s` at index `j`, and every place with key `k`
      before it is rated strictly lower: on a tie the first one stays. */
  lemma {:induction false} DedupKeepsFirst(s: seq<Place>, key: Place -> string, k: string) returns (j: nat)
    requires k in Dedup(s, key).kept
    ensures j < |s| && s[j] == Dedup(s, key).kept[k]
    ensures forall i :: 0 <= i < j && key(s[i]) == k ==> s[i].rating < s[j].rating
  {
    var n := |s| - 1;
    var init, p := s[..n], s[n];
    assert s == init + [p];
    DedupStep(init, key, p);
    var d := Dedup(init, key);
    if k in d.kept && Dedup(s, key).kept[k] == d.kept[k] {
      j := DedupKeepsFirst(init, key, k);
      assert forall i :: 0 <= i <= j ==> s[i] == init[i];
    } else {
      j := n;
      assert forall i :: 0 <= i < n ==> s[i] == init[i];
      if k in d.kept {
        DedupKeepsBest(init, key, k);
      } else {
        DedupKeys(init, key);
        assert !HasKey(init, key, k);
      }
    }
  }

  /** Names are listed in the order of their first appearance: the place at index `i` is the
      first named `keys[a]`, and no place up to it is named `keys[b]` when `a < b`. */
  lemma {:induction false} DedupFirstAppearanceOrder(s: seq<Place>, key: Place -> string, a: nat, b: nat)
    returns (i: nat)
    requires a < b < |Dedup(s, key).keys|
    ensures i < |s| && key(s[i]) == Dedup(s, key).keys[a]
    ensures forall m :: 0 <= m <= i ==> key(s[m]) != Dedup(s, key).keys[b]
  {
    var n := |s| - 1;
    var init := s[..n];
    var d := Dedup(init, key);
    var keys := Dedup(s, key).keys;
    assert s == init + [s[n]];
    DedupKeysStep(init, key, s[n]);
    if b < |d.keys| {
      assert keys[a] == d.keys[a] && keys[b] == d.keys[b];
      i := DedupFirstAppearanceOrder(init, key, a, b);
      assert forall m :: 0 <= m <= i ==> s[m] == init[m];
    } else {
      // keys[b] is the name of the last place, new to the dictionary
      assert keys == d.keys + [key(s[n])];
      DedupKeys(init, key);
      assert HasKey(init, key, d.keys[a]);
      i :| 0 <= i < n && key(init[i]) == d.keys[a];
      assert !HasKey(init, key, keys[b]);
      assert forall m :: 0 <= m <= i ==> s[m] == init[m];
    }
  }

  /** No two values share a key. */
  lemma ValuesDistinct(s: seq<Place>, key: Place -> string)
    ensures var u := Values(Dedup(s, key));
            forall a, b :: 0 <= a < b < |u| ==> key(u[a]) != key(u[b])
  {
    DedupWellFormed(s, key);
  }

  /** Some place of `u` has the key of `p`. */
  predicate KeyPresent(u: seq<Place>, key: Place -> string, p: Place) {
    exists j :: 0 <= j < |u| && key(u[j]) == key(p)
  }

  /** Every key of the input is the key of some value. */
  lemma ValuesCover(s: seq<Place>, key: Place -> string)
    ensures forall i :: 0 <= i < |s| ==> KeyPresent(Values(Dedup(s, key)), key, s[i])
  {
    var d := Dedup(s, key);
    var u := Values(d);
    DedupWellFormed(s, key);
    DedupKeys(s, key);
    forall i | 0 <= i < |s| ensures KeyPresent(u, key, s[i]) {
      assert HasKey(s, key, key(s[i]));
      var j :| 0 <= j < |d.keys| && d.keys[j] == key(s[i]);
      assert key(u[j]) == key(s[i]);
    }
  }

  /** Every value is a place of the input. */
  lemma ValuesFromInput(s: seq<Place>, key: Place -> string)
    ensures var u := Values(Dedup(s, key));
            forall j :: 0 <= j < |u| ==> u[j] in s
  {
    var d := Dedup(s, key);
    var u := Values(d);
    forall j | 0 <= j < |u| ensures u[j] in s {
      var i := DedupKeepsFirst(s, key, d.keys[j]);
      assert s[i] == u[j];
    }
  }

  /** The loop of `remove_duplicate_names`: walks the places keeping a dictionary from key to the
      best place so far. Python dictionaries keep insertion order; `order` holds it here. */
  method CollectNames(places: seq<Place>, key: Place -> string)
    returns (order: seq<string>, uniqueNames: map<string, Place>)
    ensures Names(order, uniqueNames) == Dedup(places, key)
  {
    uniqueNames := map[];
    order := [];
    var i := 0;
    while i < |places|
      invariant 0 <= i <= |places|
      invariant Names(order, uniqueNames) == Dedup(places[..i], key)
    {
      var place := places[i];
      DedupPrefixStep(places, key, i);
      var name := key(place);
      if name !in uniqueNames {
        uniqueNames := uniqueNames[name := place];
        order := order + [name];
      } else {
        var existingPlace := uniqueNames[name];
        if place.rating > existingPlace.rating {
          uniqueNames := uniqueNames[name := place];
        }
      }
      i := i + 1;
    }
    assert places[..i] == places;
  }

  /** `remove_duplicate_names`: one place per stripped, lower-cased name, the dictionary's values
      in the order in which the names first appear. */
  method RemoveDuplicateNames(places: seq<Place>) returns (unique: seq<Place>)
    ensures unique == Values(Dedup(places, NameKey))
    ensures forall a, b :: 0 <= a < b < |unique| ==> NameKey(unique[a]) != NameKey(unique[b])
    ensures forall i :: 0 <= i < |places| ==> KeyPresent(unique, NameKey, places[i])
    ensures forall j :: 0 <= j < |unique| ==> unique[j] in places
  {
    if |places| == 0 {
      return places;
    }
    var order, uniqueNames := CollectNames(places, NameKey);
    unique := Values(Names(order, uniqueNames));
    ValuesDistinct(places, NameKey);
    ValuesCover(places, NameKey);
    ValuesFromInput(places, NameKey);
  }
}
