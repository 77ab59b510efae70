/** Facility recommendation: keep the facilities within the radius, label
    each with its category, mission text and whether it matches the weak
    point's category, and order the list with matching facilities first and
    nearer ones first within each group, keeping input order on ties. */
module Ranking {
  import opened Results
  import opened Text
  import opened Categories

  /** A facility row: identity, position, address, the optional equipment
      text (`None` when the cell is missing or not a string) and the
      category flags. */
  datatype Facility = Facility(
    id: int,
    name: string,
    lat: real,
    lon: real,
    address: string,
    detailEquip: Option<string>,
    flags: Flags
  )

  /** One entry of the `/recommend/facilities` response. */
  datatype Recommendation = Recommendation(
    id: int,
    name: string,
    lat: real,
    lon: real,
    address: string,
    mission: string,
    category: Category,
    distanceKm: real,
    matchCategory: bool
  )

  /** A great-circle distance in kilometres between two (lat, lon) points;
      the trigonometry of `haversine_km` is not part of this model. */
  type Distance = (real, real, real, real) -> real

  // ---------------------------------------------------------------------
  // round(d, 3)
  // ---------------------------------------------------------------------

  /** Python's `round` to an integer: the nearest integer, and the even one
      when `y` lies exactly halfway between two. */
  function RoundHalfEven(y: real): (n: int)
    ensures -0.5 <= y - n as real <= 0.5
    ensures (y - n as real == 0.5 || n as real - y == 0.5) ==> n % 2 == 0
  {
    var n := y.Floor;
    var frac := y - n as real;
    if frac < 0.5 then n
    else if frac > 0.5 then n + 1
    else if n % 2 == 0 then n
    else n + 1
  }

  /** The two properties above single out the rounded integer: any integer
      within 0.5 of `y` that is even when `y` is a half is `RoundHalfEven(y)`. */
  lemma RoundHalfEvenUnique(y: real, m: int)
    requires -0.5 <= y - m as real <= 0.5
    requires (y - m as real == 0.5 || m as real - y == 0.5) ==> m % 2 == 0
    ensures m == RoundHalfEven(y)
  {
  }

  /** Rounding to an integer never reverses the order of two values. */
  lemma RoundHalfEvenMonotone(x: real, y: real)
    requires x <= y
    ensures RoundHalfEven(x) <= RoundHalfEven(y)
  {
    assert x.Floor <= y.Floor;
  }

  /** `round(d, 3)` on exact reals: the nearest multiple of 0.001, halves
      to the even multiple. */
  function Round3(d: real): (r: real)
    ensures (r * 1000.0).Floor as real == r * 1000.0
    ensures -0.0005 <= r - d <= 0.0005
    ensures (r - d == 0.0005 || d - r == 0.0005) ==> (r * 1000.0).Floor % 2 == 0
  {
    var n := RoundHalfEven(d * 1000.0);
    assert -0.5 <= d * 1000.0 - n as real <= 0.5;
    var r := n as real / 1000.0;
    assert r * 1000.0 == n as real;
    assert (r * 1000.0).Floor == n;
    r
  }

  /** The three properties above determine the rounded distance: a multiple
      of 0.001 within 0.0005 of `d`, with an even number of thousandths when
      `d` lies exactly halfway, is `Round3(d)`. */
  lemma Round3Unique(d: real, r: real)
    requires (r * 1000.0).Floor as real == r * 1000.0
    requires -0.0005 <= r - d <= 0.0005
    requires (r - d == 0.0005 || d - r == 0.0005) ==> (r * 1000.0).Floor % 2 == 0
    ensures r == Round3(d)
  {
    var m := (r * 1000.0).Floor;
    RoundHalfEvenUnique(d * 1000.0, m);
    assert m == RoundHalfEven(d * 1000.0);
  }

  /** Rounding keeps the order of distances: a nearer facility never gets a
      larger rounded distance than a farther one (distinct distances may
      round to the same value, though). */
  lemma Round3Monotone(d1: real, d2: real)
    requires d1 <= d2
    ensures Round3(d1) <= Round3(d2)
  {
    RoundHalfEvenMonotone(d1 * 1000.0, d2 * 1000.0);
  }

  /** A rounded distance rounds to itself. */
  lemma Round3Idempotent(d: real)
    ensures Round3(Round3(d)) == Round3(d)
  {
    var n := RoundHalfEven(d * 1000.0);
    assert Round3(d) * 1000.0 == n as real;
    assert (n as real).Floor == n;
  }

  // ---------------------------------------------------------------------
  // One facility
  // ---------------------------------------------------------------------

  /** The mission text: the equipment text when it is a string that is not
      blank after stripping, otherwise "{category} 운동". */
  function Mission(equip: Option<string>, c: Category): (m: string)
    ensures equip.Some? && Strip(equip.value) != "" ==> m == equip.value
    ensures !(equip.Some? && Strip(equip.value) != "") ==> m == c.Label() + " 운동"
  {
    if equip.Some? && Strip(equip.value) != "" then equip.value
    else c.Label() + " 운동"
  }

  /** A mission is never blank. */
  lemma MissionNotBlank(equip: Option<string>, c: Category)
    ensures Strip(Mission(equip, c)) != ""
  {
    var m := Mission(equip, c);
    if !(equip.Some? && Strip(equip.value) != "") {
      assert m[|m| - 1] == '동';
      StripBlank(m);
    }
  }

  /** The category to look for: only a weak point that is present and
      non-empty selects one (`if weak_point:`). */
  function Target(weakPoint: Option<string>): (t: Option<Category>)
    ensures t.Some? <==> weakPoint.Some? && weakPoint.value != ""
    ensures t.Some? ==> t.value == WeakPointToCategory(weakPoint.value)
  {
    if weakPoint.Some? && weakPoint.value != "" then Some(WeakPointToCategory(weakPoint.value))
    else None
  }

  /** The response entry for a facility at (rounded) distance `d`. */
  function Describe(f: Facility, d: real, target: Option<Category>): (r: Recommendation)
    ensures r.id == f.id && r.name == f.name && r.address == f.address
    ensures r.lat == f.lat && r.lon == f.lon
    ensures r.category == InferCategory(f.flags)
    ensures r.mission == Mission(f.detailEquip, r.category)
    ensures r.distanceKm == Round3(d)
    ensures r.matchCategory <==> target.Some? && target.value == r.category
  {
    var c := InferCategory(f.flags);
    Recommendation(
      id := f.id,
      name := f.name,
      lat := f.lat,
      lon := f.lon,
      address := f.address,
      mission := Mission(f.detailEquip, c),
      category := c,
      distanceKm := Round3(d),
      matchCategory := target.Some? && target.value == c)
  }

  // ---------------------------------------------------------------------
  // The radius filter
  // ---------------------------------------------------------------------

  /** Facility `f` is within `radius` of (lat, lon). */
  predicate Within(dist: Distance, lat: real, lon: real, radius: real, f: Facility) {
    dist(lat, lon, f.lat, f.lon) <= radius
  }

  /** The loop of `recommend_facilities` before sorting: every facility
      within the radius, described, in input order. */
  function Candidates(fs: seq<Facility>, dist: Distance, lat: real, lon: real, radius: real,
                      target: Option<Category>): (r: seq<Recommendation>)
    ensures |r| <= |fs|
    ensures forall i :: 0 <= i < |fs| && Within(dist, lat, lon, radius, fs[i]) ==>
      Describe(fs[i], dist(lat, lon, fs[i].lat, fs[i].lon), target) in r
    ensures forall x :: x in r ==>
      exists i :: 0 <= i < |fs| && Within(dist, lat, lon, radius, fs[i])
        && x == Describe(fs[i], dist(lat, lon, fs[i].lat, fs[i].lon), target)
  {
    if |fs| == 0 then []
    else
      var rest := Candidates(fs[1..], dist, lat, lon, radius, target);
      var f := fs[0];
      var d := dist(lat, lon, f.lat, f.lon);
      assert forall i :: 1 <= i < |fs| ==> fs[i] == fs[1..][i - 1];
      if d > radius then rest
      else [Describe(f, d, target)] + rest
  }

  /** The filter distributes over concatenation: the entries of a longer
      list are those of its parts, in the same order. */
  lemma {:induction false} CandidatesAppend(fs1: seq<Facility>, fs2: seq<Facility>, dist: Distance,
                                            lat: real, lon: real, radius: real, target: Option<Category>)
    ensures Candidates(fs1 + fs2, dist, lat, lon, radius, target)
         == Candidates(fs1, dist, lat, lon, radius, target) + Candidates(fs2, dist, lat, lon, radius, target)
  {
    if |fs1| > 0 {
      assert (fs1 + fs2)[1..] == fs1[1..] + fs2;
      assert (fs1 + fs2)[0] == fs1[0];
      CandidatesAppend(fs1[1..], fs2, dist, lat, lon, radius, target);
    } else {
      assert fs1 + fs2 == fs2;
    }
  }

  /** A single facility gives one entry when it is within the radius and
      none otherwise. */
  lemma CandidatesOne(f: Facility, dist: Distance, lat: real, lon: real, radius: real, target: Option<Category>)
    ensures Candidates([f], dist, lat, lon, radius, target)
         == if Within(dist, lat, lon, radius, f) then [Describe(f, dist(lat, lon, f.lat, f.lon), target)] else []
  {
    assert [f][1..] == [];
  }

  // ---------------------------------------------------------------------
  // The stable sort by (not match, distance)
  // ---------------------------------------------------------------------

  /** The sort key `(not f.match_category, f.distance_km)`. */
  datatype SortKey = SortKey(unmatched: bool, distance: real)

  function KeyOf(r: Recommendation): SortKey {
    SortKey(!r.matchCategory, r.distanceKm)
  }

  /** Tuple order on keys: `False` before `True`, then by distance. */
  predicate KeyLe(a: SortKey, b: SortKey) {
    (!a.unmatched && b.unmatched) || (a.unmatched == b.unmatched && a.distance <= b.distance)
  }

  /** Keys are totally ordered. */
  lemma KeyLeTotal(a: SortKey, b: SortKey)
    ensures KeyLe(a, b) || KeyLe(b, a)
    ensures KeyLe(a, b) && KeyLe(b, a) ==> a == b
  {
  }

  predicate SortedByKey(s: seq<Recommendation>) {
    forall i, j :: 0 <= i < j < |s| ==> KeyLe(KeyOf(s[i]), KeyOf(s[j]))
  }

  /** The entries of `s` whose key is `k`, in order. */
  function WithKey(s: seq<Recommendation>, k: SortKey): (r: seq<Recommendation>)
    ensures |r| <= |s|
    ensures forall x :: x in r <==> x in s && KeyOf(x) == k
  {
    if |s| == 0 then []
    else
      var rest := WithKey(s[1..], k);
      assert forall x :: x in s <==> x == s[0] || x in s[1..];
      if KeyOf(s[0]) == k then [s[0]] + rest
      else rest
  }

  /** Selecting by key distributes over concatenation, so the selection
      keeps the relative order of the input. */
  lemma {:induction false} WithKeyAppend(s1: seq<Recommendation>, s2: seq<Recommendation>, k: SortKey)
    ensures WithKey(s1 + s2, k) == WithKey(s1, k) + WithKey(s2, k)
  {
    if |s1| > 0 {
      assert (s1 + s2)[1..] == s1[1..] + s2;
      WithKeyAppend(s1[1..], s2, k);
    } else {
      assert s1 + s2 == s2;
    }
  }

  /** Puts `x` before the first entry whose key is not smaller than its own,
      so `x` ends up ahead of every entry with an equal key. */
  function InsertStable(x: Recommendation, s: seq<Recommendation>): (r: seq<Recommendation>)
    requires SortedByKey(s)
    ensures SortedByKey(r)
    ensures multiset(r) == multiset(s) + multiset{x}
  {
    if |s| == 0 then [x]
    else if KeyLe(KeyOf(x), KeyOf(s[0])) then
      ConsSorted(x, s);
      [x] + s
    else
      var rest := InsertStable(x, s[1..]);
      KeyLeTotal(KeyOf(x), KeyOf(s[0]));
      HeadBelowRest(s, x, rest);
      ConsSorted(s[0], rest);
      assert s == [s[0]] + s[1..];
      [s[0]] + rest
  }

  /** A head whose key is no larger than any key of a sorted tail keeps it
      sorted. */
  lemma ConsSorted(h: Recommendation, s: seq<Recommendation>)
    requires SortedByKey(s)
    requires forall i :: 0 <= i < |s| ==> KeyLe(KeyOf(h), KeyOf(s[i]))
    ensures SortedByKey([h] + s)
  {
    var r := [h] + s;
    forall i, j | 0 <= i < j < |r| ensures KeyLe(KeyOf(r[i]), KeyOf(r[j])) {
      assert r[j] == s[j - 1];
      if i > 0 {
        assert r[i] == s[i - 1];
      }
    }
  }

  /** The head of a key-sorted list lies below every entry of its tail with
      one larger entry added. */
  lemma HeadBelowRest(s: seq<Recommendation>, x: Recommendation, rest: seq<Recommendation>)
    requires |s| > 0 && SortedByKey(s) && KeyLe(KeyOf(s[0]), KeyOf(x))
    requires multiset(rest) == multiset(s[1..]) + multiset{x}
    ensures forall i :: 0 <= i < |rest| ==> KeyLe(KeyOf(s[0]), KeyOf(rest[i]))
  {
    forall i | 0 <= i < |rest|
      ensures KeyLe(KeyOf(s[0]), KeyOf(rest[i]))
    {
      assert rest[i] in multiset(rest);
      if rest[i] != x {
        assert rest[i] in multiset(s[1..]);
        var k :| 0 <= k < |s[1..]| && s[1..][k] == rest[i];
        assert s[k + 1] == rest[i];
      }
    }
  }

  /** Inserting `x` adds it in front of the entries with its key and leaves
      every other key's entries alone. */
  lemma {:induction false} InsertStableWithKey(x: Recommendation, s: seq<Recommendation>, k: SortKey)
    requires SortedByKey(s)
    ensures WithKey(InsertStable(x, s), k) == if KeyOf(x) == k then [x] + WithKey(s, k) else WithKey(s, k)
  {
    if |s| == 0 {
    } else if KeyLe(KeyOf(x), KeyOf(s[0])) {
      var r := [x] + s;
      assert r[1..] == s;
    } else {
      var rest := InsertStable(x, s[1..]);
      var r := [s[0]] + rest;
      assert r[1..] == rest;
      InsertStableWithKey(x, s[1..], k);
      KeyLeTotal(KeyOf(x), KeyOf(s[0]));
      assert KeyOf(x) != KeyOf(s[0]);
    }
  }

  /** `list.sort` with a key: a stable sort, here as insertion from the back. */
  function SortStable(s: seq<Recommendation>): (r: seq<Recommendation>)
    ensures multiset(r) == multiset(s)
    ensures SortedByKey(r)
  {
    if |s| == 0 then []
    else
      assert s == [s[0]] + s[1..];
      InsertStable(s[0], SortStable(s[1..]))
  }

  /** Stability: for every key, the entries with that key keep their input
      order. */
  lemma {:induction false} SortStableKeepsOrder(s: seq<Recommendation>, k: SortKey)
    ensures WithKey(SortStable(s), k) == WithKey(s, k)
  {
    if |s| > 0 {
      SortStableKeepsOrder(s[1..], k);
      InsertStableWithKey(s[0], SortStable(s[1..]), k);
    }
  }

  // ---------------------------------------------------------------------
  // The whole endpoint
  // ---------------------------------------------------------------------

  /** `recommend_facilities` once the facility list is loaded. */
  function Recommend(fs: seq<Facility>, dist: Distance, lat: real, lon: real, radius: real,
                     weakPoint: Option<string>): (r: seq<Recommendation>)
    ensures multiset(r) == multiset(Candidates(fs, dist, lat, lon, radius, Target(weakPoint)))
    ensures SortedByKey(r)
  {
    SortStable(Candidates(fs, dist, lat, lon, radius, Target(weakPoint)))
  }

  /** Ties keep input order: for every key, the response lists the entries
      with that key in the order their facilities were read. */
  lemma RecommendStable(fs: seq<Facility>, dist: Distance, lat: real, lon: real, radius: real,
                        weakPoint: Option<string>, k: SortKey)
    ensures WithKey(Recommend(fs, dist, lat, lon, radius, weakPoint), k)
         == WithKey(Candidates(fs, dist, lat, lon, radius, Target(weakPoint)), k)
  {
    SortStableKeepsOrder(Candidates(fs, dist, lat, lon, radius, Target(weakPoint)), k);
  }

  /** The response holds exactly the facilities within the radius, each
      described with its own distance. */
  lemma RecommendMembers(fs: seq<Facility>, dist: Distance, lat: real, lon: real, radius: real,
                         weakPoint: Option<string>, x: Recommendation)
    ensures x in Recommend(fs, dist, lat, lon, radius, weakPoint) <==>
      exists i :: 0 <= i < |fs| && Within(dist, lat, lon, radius, fs[i])
        && x == Describe(fs[i], dist(lat, lon, fs[i].lat, fs[i].lon), Target(weakPoint))
  {
    var r := Recommend(fs, dist, lat, lon, radius, weakPoint);
    var c := Candidates(fs, dist, lat, lon, radius, Target(weakPoint));
    assert x in r <==> x in multiset(r);
    assert x in c <==> x in multiset(c);
  }

  /** Matching facilities come first, and within each group the distances
      never decrease. */
  lemma RecommendOrder(fs: seq<Facility>, dist: Distance, lat: real, lon: real, radius: real,
                       weakPoint: Option<string>, i: int, j: int)
    requires 0 <= i < j < |Recommend(fs, dist, lat, lon, radius, weakPoint)|
    ensures var r := Recommend(fs, dist, lat, lon, radius, weakPoint);
      && (r[j].matchCategory ==> r[i].matchCategory)
      && (r[i].matchCategory == r[j].matchCategory ==> r[i].distanceKm <= r[j].distanceKm)
  {
  }

  /** An entry matches exactly when a weak point was given and the
      facility's category is the weak point's category. */
  lemma RecommendMatchRule(fs: seq<Facility>, dist: Distance, lat: real, lon: real, radius: real,
                           weakPoint: Option<string>, x: Recommendation)
    requires x in Recommend(fs, dist, lat, lon, radius, weakPoint)
    ensures x.matchCategory <==>
      weakPoint.Some? && weakPoint.value != "" && x.category == WeakPointToCategory(weakPoint.value)
  {
    RecommendMembers(fs, dist, lat, lon, radius, weakPoint, x);
  }

  /** A `jump_power` weak point asks for strength facilities, which no
      facility is classified as, so nothing in the response matches. */
  lemma JumpPowerNeverMatches(fs: seq<Facility>, dist: Distance, lat: real, lon: real, radius: real,
                              x: Recommendation)
    requires x in Recommend(fs, dist, lat, lon, radius, Some("jump_power"))
    ensures !x.matchCategory
  {
    JumpPowerCategory();
    RecommendMembers(fs, dist, lat, lon, radius, Some("jump_power"), x);
  }

  /** A matching entry overtakes a non-matching one listed before it,
      whatever their distances. */
  lemma MatchOvertakes(a: Recommendation, b: Recommendation)
    requires !a.matchCategory && b.matchCategory
    ensures SortStable([a, b]) == [b, a]
  {
    assert SortStable([b]) == [b] by {
      assert [b][1..] == [];
    }
    assert !KeyLe(KeyOf(a), KeyOf(b));
    assert InsertStable(a, [b]) == [b, a] by {
      assert [b][1..] == [];
    }
    assert [a, b][1..] == [b];
  }

  /** A nearer facility outside the weak point's category is listed after a
      farther one inside it. */
  lemma MatchBeatsDistanceExample()
    ensures var near := Facility(1, "near", 1.0, 0.0, "", None, Flags(0, 0, 0, 0));
      var far := Facility(2, "far", 2.0, 0.0, "", None, Flags(1, 0, 0, 0));
      var r := Recommend([near, far], (a, b, c, d) => c, 0.0, 0.0, 2.0, Some("cardio_endurance"));
      |r| == 2 && r[0].id == 2 && r[0].matchCategory && r[1].id == 1 && !r[1].matchCategory
  {
    var near := Facility(1, "near", 1.0, 0.0, "", None, Flags(0, 0, 0, 0));
    var far := Facility(2, "far", 2.0, 0.0, "", None, Flags(1, 0, 0, 0));
    var dist: Distance := (a, b, c, d) => c;
    var t := Target(Some("cardio_endurance"));
    assert t == Some(Cardio) by {
      CardioEnduranceCategory();
    }
    var a := Describe(near, 1.0, t);
    var b := Describe(far, 2.0, t);
    assert Candidates([far], dist, 0.0, 0.0, 2.0, t) == [b] by {
      assert [far][1..] == [];
    }
    assert Candidates([near, far], dist, 0.0, 0.0, 2.0, t) == [a, b] by {
      assert [near, far][1..] == [far];
    }
    MatchOvertakes(a, b);
  }
}
