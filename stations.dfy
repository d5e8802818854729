/**
 * The station catalog as the client reads it: the proximity ranking of
 * `findNearestStations` and the name search behind the location autocomplete.
 */
module Stations {
  import opened Wrappers
  import opened Text
  import opened Lists
  import opened StableSort

  /** A catalog entry, with the fields the client reads besides its coordinates. */
  datatype Station = Station(id: string, uid: string, name: string)

  /** A station paired with its distance from the user, rounded to whole metres. */
  datatype Ranked = Ranked(station: Station, distance: nat)

  /** Every station of the catalog with its rounded distance, in catalog order. */
  function Annotate(catalog: seq<Station>, distance: Station -> nat): (r: seq<Ranked>)
    ensures |r| == |catalog|
    ensures forall i :: 0 <= i < |r| ==> r[i].station == catalog[i] && r[i].distance == distance(catalog[i])
  {
    seq(|catalog|, i requires 0 <= i < |catalog| => Ranked(catalog[i], distance(catalog[i])))
  }

  /**
   * `item.distance <= maxDistance`, where `maxDistance` is `parseInt` of the
   * distance input; `None` stands for `NaN`, against which every comparison is false.
   */
  predicate WithinReach(r: Ranked, maxDistance: Option<int>): (b: bool)
    ensures maxDistance.None? ==> !b
    ensures b ==> 0 <= maxDistance.value && r.distance <= maxDistance.value
  {
    maxDistance.Some? && r.distance <= maxDistance.value
  }

  /** `(a, b) => a.distance - b.distance`. */
  function CompareDistance(a: Ranked, b: Ranked): (c: int)
    ensures c < 0 <==> a.distance < b.distance
    ensures c == 0 <==> a.distance == b.distance
  {
    a.distance - b.distance
  }

  /** The key the sort orders by: the distance alone. */
  function DistanceKey(r: Ranked): Key
  {
    Key(r.distance, 0)
  }

  /**
   * The comparator and the key agree: the comparator is positive exactly when
   * the key puts `a` after `b`, and zero exactly when the keys tie.
   */
  lemma CompareDistanceIsKeyOrder(a: Ranked, b: Ranked)
    ensures CompareDistance(a, b) > 0 <==> !NotAfter(DistanceKey(a), DistanceKey(b))
    ensures CompareDistance(a, b) == 0 <==> DistanceKey(a) == DistanceKey(b)
  {
  }

  /** The map/filter/sort pipeline of `findNearestStations`. */
  function RankByProximity(catalog: seq<Station>, distance: Station -> nat, maxDistance: Option<int>): (r: seq<Ranked>)
    ensures |r| <= |catalog|
    ensures forall x :: x in r ==> x.station in catalog && x.distance == distance(x.station) && WithinReach(x, maxDistance)
  {
    var all := Annotate(catalog, distance);
    var p := (x: Ranked) => WithinReach(x, maxDistance);
    var kept := Filter(all, p);
    var sorted := Sort(kept, DistanceKey);
    assert forall x :: x in sorted ==> x.station in catalog && x.distance == distance(x.station) && p(x) by {
      forall x | x in sorted ensures x.station in catalog && x.distance == distance(x.station) && p(x) {
        SortPermutes(kept, DistanceKey);
        assert x in multiset(sorted);
        FilterMembers(all, p, x);
        var i :| 0 <= i < |all| && all[i] == x;
      }
    }
    sorted
  }

  /** The ranking lists nearer stations first. */
  lemma ProximityOrdered(catalog: seq<Station>, distance: Station -> nat, maxDistance: Option<int>)
    ensures var r := RankByProximity(catalog, distance, maxDistance);
            forall i, j :: 0 <= i < j < |r| ==> r[i].distance <= r[j].distance
  {
    SortSorted(Filter(Annotate(catalog, distance), x => WithinReach(x, maxDistance)), DistanceKey);
  }

  /**
   * The ranking holds exactly the catalog stations within reach, each paired
   * with its own distance, and each as often as the catalog lists it.
   */
  lemma ProximityMembers(catalog: seq<Station>, distance: Station -> nat, maxDistance: Option<int>, x: Ranked)
    ensures var r := RankByProximity(catalog, distance, maxDistance);
            multiset(r)[x] == if WithinReach(x, maxDistance) then multiset(Annotate(catalog, distance))[x] else 0
    ensures x in RankByProximity(catalog, distance, maxDistance) <==>
            x.station in catalog && x.distance == distance(x.station) && WithinReach(x, maxDistance)
  {
    var all := Annotate(catalog, distance);
    var p := (y: Ranked) => WithinReach(y, maxDistance);
    SortPermutes(Filter(all, p), DistanceKey);
    FilterCount(all, p, x);
    FilterMembers(all, p, x);
    if x.station in catalog && x.distance == distance(x.station) {
      var i :| 0 <= i < |catalog| && catalog[i] == x.station;
      assert all[i] == x;
    }
  }

  /** Raising the maximum distance never drops a station from the ranking. */
  lemma ProximityMonotone(catalog: seq<Station>, distance: Station -> nat, m1: int, m2: int, x: Ranked)
    requires m1 <= m2
    ensures x in RankByProximity(catalog, distance, Some(m1)) ==> x in RankByProximity(catalog, distance, Some(m2))
  {
    ProximityMembers(catalog, distance, Some(m1), x);
    ProximityMembers(catalog, distance, Some(m2), x);
  }

  /**
   * Ties keep catalog order: the stations at any one distance appear in the
   * ranking in the order the catalog lists them, and not at all beyond reach.
   */
  lemma ProximityTies(catalog: seq<Station>, distance: Station -> nat, maxDistance: Option<int>, d: nat)
    ensures var tie := Key(d, 0);
            Class(RankByProximity(catalog, distance, maxDistance), tie, DistanceKey) ==
            if maxDistance.Some? && d <= maxDistance.value then Class(Annotate(catalog, distance), tie, DistanceKey) else []
  {
    var all := Annotate(catalog, distance);
    var p := (y: Ranked) => WithinReach(y, maxDistance);
    SortStable(Filter(all, p), Key(d, 0), DistanceKey);
    FilteredClass(all, p, Key(d, 0), DistanceKey, maxDistance.Some? && d <= maxDistance.value);
  }

  /** When `p` treats a whole class alike, filtering keeps that class whole or drops it. */
  lemma {:induction false} FilteredClass<T>(s: seq<T>, p: T -> bool, k: Key, key: T -> Key, keep: bool)
    requires forall x :: key(x) == k ==> p(x) == keep
    ensures Class(Filter(s, p), k, key) == if keep then Class(s, k, key) else []
  {
    if s != [] {
      var init, last := s[..|s| - 1], s[|s| - 1];
      FilteredClass(init, p, k, key, keep);
      assert Class(s, k, key) == Class(init, k, key) + (if key(last) == k then [last] else []);
      if p(last) {
        ClassAppend(Filter(init, p), last, k, key);
      } else {
        assert Filter(s, p) == Filter(init, p);
      }
    }
  }

  /** Nothing within reach gives an empty ranking rather than an error. */
  lemma ProximityEmpty(catalog: seq<Station>, distance: Station -> nat, maxDistance: Option<int>)
    ensures RankByProximity(catalog, distance, maxDistance) == [] <==>
            forall i :: 0 <= i < |catalog| ==> !(maxDistance.Some? && distance(catalog[i]) <= maxDistance.value)
  {
    var all := Annotate(catalog, distance);
    var p := (y: Ranked) => WithinReach(y, maxDistance);
    FilterEmpty(all, p);
  }

  /** Five stations `a` to `e` at 50, 4000, 10, 2500 and 9999 metres. */
  function ExampleCatalog(): seq<Station>
  {
    [Station("a", "1", "A"), Station("b", "2", "B"), Station("c", "3", "C"), Station("d", "4", "D"), Station("e", "5", "E")]
  }

  /** Their rounded distances from the user. */
  function ExampleDistance(st: Station): nat
  {
    if st.id == "a" then 50 else if st.id == "b" then 4000 else if st.id == "c" then 10
    else if st.id == "d" then 2500 else 9999
  }

  /** Of the five, `a`, `c` and `d` are within 3000 metres. */
  lemma ExampleFilter()
    ensures var c := ExampleCatalog();
            Filter(Annotate(c, ExampleDistance), y => WithinReach(y, Some(3000))) ==
            [Ranked(c[0], 50), Ranked(c[2], 10), Ranked(c[3], 2500)]
  {
    var c := ExampleCatalog();
    var p := (y: Ranked) => WithinReach(y, Some(3000));
    var all := Annotate(c, ExampleDistance);
    var s1 := [Ranked(c[0], 50)];
    var s2 := s1 + [Ranked(c[1], 4000)];
    var s3 := s2 + [Ranked(c[2], 10)];
    var s4 := s3 + [Ranked(c[3], 2500)];
    assert all == s4 + [Ranked(c[4], 9999)];
    assert s1[..0] == [];
    assert Filter(s2, p) == s1 by { assert s2[..1] == s1; }
    assert Filter(s3, p) == s1 + [Ranked(c[2], 10)] by { assert s3[..2] == s2; }
    assert Filter(s4, p) == s1 + [Ranked(c[2], 10), Ranked(c[3], 2500)] by { assert s4[..3] == s3; }
    assert all[..4] == s4;
  }

  /** Stations at 50, 10 and 2500 metres sort as 10, 50, 2500. */
  lemma ExampleSort(x: Ranked, y: Ranked, z: Ranked)
    requires x.distance == 50 && y.distance == 10 && z.distance == 2500
    ensures Sort([x, y, z], DistanceKey) == [y, x, z]
  {
    assert [x, y, z][..2] == [x, y];
    assert [x, y][..1] == [x];
    assert Sort([x], DistanceKey) == [x];
    assert Sort([x, y], DistanceKey) == [y, x];
  }

  /** Within 3000 metres of the five: `c` at 10, `a` at 50, `d` at 2500, in that order. */
  lemma ProximityExample()
    ensures var c := ExampleCatalog();
            RankByProximity(c, ExampleDistance, Some(3000)) == [Ranked(c[2], 10), Ranked(c[0], 50), Ranked(c[3], 2500)]
  {
    var c := ExampleCatalog();
    ExampleFilter();
    ExampleSort(Ranked(c[0], 50), Ranked(c[2], 10), Ranked(c[3], 2500));
  }
  /** `station.name.toLowerCase().includes(query.toLowerCase())`. */
  predicate NameMatches(st: Station, query: string): (b: bool)
    ensures b <==> exists i :: OccursAt(Lower(st.name), Lower(query), i)
    ensures query == [] ==> b
    ensures b ==> |query| <= |st.name|
  {
    assert query == [] ==> OccursAt(Lower(st.name), Lower(query), 0);
    Includes(Lower(st.name), Lower(query))
  }

  /** `searchLocations`: the catalog stations whose name contains the query, ignoring case. */
  function SearchLocations(catalog: seq<Station>, query: string): (r: seq<Station>)
    ensures |r| <= |catalog|
  {
    Filter(catalog, st => NameMatches(st, query))
  }

  /**
   * A station is offered exactly when the catalog holds it and its name
   * contains the query at some position once both are lower-cased.
   */
  lemma SearchLocationsMembers(catalog: seq<Station>, query: string, st: Station)
    ensures st in SearchLocations(catalog, query) <==>
            st in catalog && exists i :: OccursAt(Lower(st.name), Lower(query), i)
  {
    FilterMembers(catalog, s => NameMatches(s, query), st);
  }

  /** Queries that differ only in letter case find the same stations. */
  lemma SearchIgnoresCase(catalog: seq<Station>, q1: string, q2: string)
    requires Lower(q1) == Lower(q2)
    ensures SearchLocations(catalog, q1) == SearchLocations(catalog, q2)
  {
    FilterAgrees(catalog, st => NameMatches(st, q1), st => NameMatches(st, q2));
  }

  /** Searching for the lower-cased query finds the same stations as the query itself. */
  lemma SearchLowered(catalog: seq<Station>, query: string)
    ensures SearchLocations(catalog, Lower(query)) == SearchLocations(catalog, query)
  {
    LowerIdempotent(query);
    SearchIgnoresCase(catalog, Lower(query), query);
  }

  /** A query in capitals finds "Železnička stanica": `toLowerCase` folds the Ž. */
  lemma SearchFoldsCaron()
    ensures var st := Station("2", "", "\U{17D}elezni\U{10D}ka stanica");
            SearchLocations([st], "\U{17D}ELE") == [st]
  {
    var st := Station("2", "", "\U{17D}elezni\U{10D}ka stanica");
    var name, query := Lower(st.name), Lower("\U{17D}ELE");
    assert name[..4] == query;
    assert OccursAt(name, query, 0);
    assert Filter([st], s => NameMatches(s, "\U{17D}ELE")) == Filter([], s => NameMatches(s, "\U{17D}ELE")) + [st];
  }

  /** At most five suggestions are shown. */
  const MaxSuggestions := 5

  /** `stations.slice(0, 5)`: the first matches, in catalog order. */
  function Suggestions(stations: seq<Station>): (r: seq<Station>)
    ensures |r| <= MaxSuggestions && |r| <= |stations|
    ensures r == stations[..|r|]
    ensures |r| < MaxSuggestions ==> r == stations
  {
    Take(stations, MaxSuggestions)
  }

  /**
   * The autocomplete's query: the trimmed input, searched for only when its
   * `length`, counted in UTF-16 units, is at least two.
   */
  function AutocompleteQuery(input: string): (q: Option<string>)
    ensures q.Some? <==> Utf16Length(Trim(input)) >= 2
    ensures q.Some? ==> q.value == Trim(input)
  {
    var t := Trim(input);
    if Utf16Length(t) >= 2 then Some(t) else None
  }

  /**
   * A searched query is the input without its surrounding whitespace: not
   * empty, and starting and ending with a non-whitespace character.
   */
  lemma AutocompleteQueryTrimmed(input: string)
    requires AutocompleteQuery(input).Some?
    ensures var q := AutocompleteQuery(input).value;
            Utf16Length(q) >= 2 && |q| >= 1 && !IsWhitespace(q[0]) && !IsWhitespace(q[|q| - 1])
            && exists k :: TrimmedAt(input, q, k)
  {
  }

  /**
   * Two characters always start a search; a single character does exactly
   * when it lies beyond U+FFFF, where it takes two UTF-16 units.
   */
  lemma AutocompleteQueryLength(input: string)
    ensures |Trim(input)| >= 2 ==> AutocompleteQuery(input).Some?
    ensures |Trim(input)| == 1 ==> (AutocompleteQuery(input).Some? <==> Trim(input)[0] as int > 0xFFFF)
    ensures |Trim(input)| == 0 ==> AutocompleteQuery(input).None?
  {
    var t := Trim(input);
    if |t| == 1 {
      assert t[..0] == [];
    }
  }
}
