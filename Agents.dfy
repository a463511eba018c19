/** The itinerary planner's allocation core: the distance with its
    "infinitely far" sentinel, the nearest-hotel choice, and the day-by-day
    allocation of tours and attractions under a never-repeat policy. */
module Agents {
  import opened Wrappers
  import opened Values

  /** A distance in kilometres, or the `float('inf')` sentinel. */
  datatype Distance = Finite(km: real) | Infinite

  predicate Le(a: Distance, b: Distance)
  {
    match (a, b)
    case (_, Infinite) => true
    case (Infinite, Finite(_)) => false
    case (Finite(x), Finite(y)) => x <= y
  }

  predicate Lt(a: Distance, b: Distance) { !Le(b, a) }

  /** The great-circle formula on four finite coordinates. Its trigonometry
      is not modelled: every caller takes it as a parameter. */
  type Haversine = (real, real, real, real) -> real

  ghost predicate NonNegative(hav: Haversine)
  {
    forall a, b, c, d :: hav(a, b, c, d) >= 0.0
  }

  /** `calculate_distance`: `+inf` as soon as one coordinate is `None` or
      fails `float()`, otherwise the haversine of the four floats. */
  function CalculateDistance(hav: Haversine, lat1: Value, lon1: Value, lat2: Value, lon2: Value): (d: Distance)
    ensures d == Infinite <==>
      (ToFloat(lat1).None? || ToFloat(lon1).None? || ToFloat(lat2).None? || ToFloat(lon2).None?)
    ensures d.Finite? ==>
      d.km == hav(ToFloat(lat1).value, ToFloat(lon1).value, ToFloat(lat2).value, ToFloat(lon2).value)
    ensures (lat1 == Null || lon1 == Null || lat2 == Null || lon2 == Null) ==> d == Infinite
  {
    if lat1 == Null || lon1 == Null || lat2 == Null || lon2 == Null then Infinite
    else
      match (ToFloat(lat1), ToFloat(lon1), ToFloat(lat2), ToFloat(lon2))
      case (Some(a), Some(b), Some(c), Some(e)) => Finite(hav(a, b, c, e))
      case _ => Infinite
  }

  lemma DistanceNonNegative(hav: Haversine, lat1: Value, lon1: Value, lat2: Value, lon2: Value)
    requires NonNegative(hav)
    ensures Le(Finite(0.0), CalculateDistance(hav, lat1, lon1, lat2, lon2))
  {
  }

  /** Index of the first minimum of `keys`: what Python's `min(..., key=...)`
      picks, since it replaces its candidate only on a strictly smaller key. */
  predicate IsFirstMinimum(keys: seq<Distance>, i: int)
  {
    && 0 <= i < |keys|
    && (forall j :: 0 <= j < |keys| ==> Le(keys[i], keys[j]))
    && (forall j :: 0 <= j < i ==> Lt(keys[i], keys[j]))
  }

  function ArgMin(keys: seq<Distance>): (i: nat)
    requires |keys| > 0
    ensures IsFirstMinimum(keys, i)
  {
    if |keys| == 1 then 0
    else
      var k := ArgMin(keys[..|keys| - 1]);
      if Lt(keys[|keys| - 1], keys[k]) then |keys| - 1 else k
  }

  /** The first minimum is unique: any index with the same properties is it. */
  lemma FirstMinimumUnique(keys: seq<Distance>, i: int, j: int)
    requires IsFirstMinimum(keys, i) && IsFirstMinimum(keys, j)
    ensures i == j
  {
    assert Le(keys[i], keys[j]) && Le(keys[j], keys[i]);
  }

  /** `sum(float(a.get(key, 0)) for a in attractions)`; `None` when some
      `float()` raises. */
  function SumCoordinate(attractions: seq<Record>, key: string): Option<real>
  {
    if attractions == [] then Some(0.0)
    else
      match (ToFloat(GetOr(attractions[0], key, Num(0.0))), SumCoordinate(attractions[1..], key))
      case (Some(x), Some(rest)) => Some(x + rest)
      case _ => None
  }

  lemma {:induction false} SumCoordinateDefined(attractions: seq<Record>, key: string)
    ensures SumCoordinate(attractions, key).Some? <==>
      forall k :: 0 <= k < |attractions| ==> ToFloat(GetOr(attractions[k], key, Num(0.0))).Some?
  {
    if attractions != [] {
      SumCoordinateDefined(attractions[1..], key);
      assert forall k :: 1 <= k < |attractions| ==> attractions[1..][k - 1] == attractions[k];
    }
  }

  /** Distance from the point `(lat, lon)` to each hotel, in pool order. */
  function HotelDistances(hav: Haversine, hotels: seq<Record>, lat: real, lon: real): (ds: seq<Distance>)
    ensures |ds| == |hotels|
  {
    seq(|hotels|, j requires 0 <= j < |hotels| =>
      CalculateDistance(hav, Num(lat), Num(lon), Get(hotels[j], "LATITUDE"), Get(hotels[j], "LONGITUDE")))
  }

  /** `find_closest_hotel`: `None` for an empty pool, the first hotel when
      the day has no attractions, otherwise the first hotel nearest to the
      centroid of the attractions. Converting an attraction coordinate that
      is `None` or not numeric raises. */
  function FindClosestHotel(hav: Haversine, hotels: seq<Record>, attractions: seq<Record>): (r: Result<Option<Record>>)
    ensures hotels == [] ==> r == Ok(None)
    ensures hotels != [] && attractions == [] ==> r == Ok(Some(hotels[0]))
    ensures r.Err? <==>
      hotels != [] && attractions != []
      && (SumCoordinate(attractions, "LATITUDE").None? || SumCoordinate(attractions, "LONGITUDE").None?)
    ensures r.Ok? && hotels != [] ==> r.value.Some? && r.value.value in hotels
    ensures r.Ok? && hotels != [] && attractions != [] ==>
      var lat := SumCoordinate(attractions, "LATITUDE").value / (|attractions| as real);
      var lon := SumCoordinate(attractions, "LONGITUDE").value / (|attractions| as real);
      exists i :: IsFirstMinimum(HotelDistances(hav, hotels, lat, lon), i) && r.value.value == hotels[i]
  {
    if hotels == [] then Ok(None)
    else if attractions == [] then Ok(Some(hotels[0]))
    else
      match (SumCoordinate(attractions, "LATITUDE"), SumCoordinate(attractions, "LONGITUDE"))
      case (Some(sumLat), Some(sumLon)) =>
        var n := |attractions| as real;
        var i := ArgMin(HotelDistances(hav, hotels, sumLat / n, sumLon / n));
        Ok(Some(hotels[i]))
      case _ => Err("attraction coordinate is not a number")
  }

  // ---------------------------------------------------------------------
  // Day allocation

  /** Identity of a tour is `TITLE or URL`, of an attraction `PLACENAME or URL`. */
  const TourKey: string := "TITLE"
  const AttractionKey: string := "PLACENAME"

  /** At most this many tours, and this many attractions, per day. */
  const PerDay: nat := 2

  function Identity(item: Record, key: string): Value
  {
    Or(Get(item, key), Get(item, "URL"))
  }

  /** The identities occurring in `items`. */
  function IdSet(items: seq<Record>, key: string): set<Value>
  {
    if items == [] then {} else {Identity(items[0], key)} + IdSet(items[1..], key)
  }

  lemma {:induction false} IdSetMember(items: seq<Record>, key: string, id: Value)
    ensures id in IdSet(items, key) <==> exists i :: 0 <= i < |items| && Identity(items[i], key) == id
  {
    if items != [] {
      IdSetMember(items[1..], key, id);
      if id in IdSet(items[1..], key) {
        var i :| 0 <= i < |items[1..]| && Identity(items[1..][i], key) == id;
        assert Identity(items[i + 1], key) == id;
      }
      if exists i :: 0 <= i < |items| && Identity(items[i], key) == id {
        var i :| 0 <= i < |items| && Identity(items[i], key) == id;
        if i > 0 { assert Identity(items[1..][i - 1], key) == id; }
      }
    }
  }

  lemma {:induction false} IdSetAppend(a: seq<Record>, b: seq<Record>, key: string)
    ensures IdSet(a + b, key) == IdSet(a, key) + IdSet(b, key)
  {
    if a == [] {
      assert a + b == b;
    } else {
      assert (a + b)[1..] == a[1..] + b;
      IdSetAppend(a[1..], b, key);
    }
  }

  /** No identity occurs twice in `items`. */
  predicate IdsDistinct(items: seq<Record>, key: string)
  {
    forall i, j :: 0 <= i < j < |items| ==> Identity(items[i], key) != Identity(items[j], key)
  }

  lemma {:induction false} DistinctIdSetSize(items: seq<Record>, key: string)
    requires IdsDistinct(items, key)
    ensures |IdSet(items, key)| == |items|
  {
    if items != [] {
      var id := Identity(items[0], key);
      IdSetMember(items[1..], key, id);
      assert forall i :: 0 <= i < |items[1..]| ==> items[1..][i] == items[i + 1];
      assert id !in IdSet(items[1..], key);
      DistinctIdSetSize(items[1..], key);
    }
  }

  /** The identity sets of two pools that are permutations of each other agree. */
  lemma IdSetPermutation(a: seq<Record>, b: seq<Record>, key: string)
    requires multiset(a) == multiset(b)
    ensures IdSet(a, key) == IdSet(b, key)
  {
    forall id | id in IdSet(a, key) ensures id in IdSet(b, key) {
      IdSetMember(a, key, id);
      IdSetMember(b, key, id);
      var i :| 0 <= i < |a| && Identity(a[i], key) == id;
      assert a[i] in multiset(b);
      var j :| 0 <= j < |b| && b[j] == a[i];
    }
    forall id | id in IdSet(b, key) ensures id in IdSet(a, key) {
      IdSetMember(a, key, id);
      IdSetMember(b, key, id);
      var i :| 0 <= i < |b| && Identity(b[i], key) == id;
      assert b[i] in multiset(a);
      var j :| 0 <= j < |a| && a[j] == b[i];
    }
  }

  /** One day's scan of a shuffled pool (the inner `for` loop): take the
      items whose identity is not yet used, marking each as used, and stop
      once `PerDay` items are taken. Returns the day's items and the new
      used set. */
  function Scan(pool: seq<Record>, key: string, used: set<Value>, today: seq<Record>): (seq<Record>, set<Value>)
    requires |today| < PerDay
    decreases |pool|
  {
    if pool == [] then (today, used)
    else
      var id := Identity(pool[0], key);
      if id in used then Scan(pool[1..], key, used, today)
      else if |today| + 1 == PerDay then (today + [pool[0]], used + {id})
      else Scan(pool[1..], key, used + {id}, today + [pool[0]])
  }

  /** The items a scan adds to `today`. */
  function Taken(pool: seq<Record>, key: string, used: set<Value>, today: seq<Record>): seq<Record>
    requires |today| < PerDay
  {
    var t := Scan(pool, key, used, today).0;
    if |today| <= |t| then t[|today|..] else []
  }

  /** A scan only appends to `today`, and only items of the pool. */
  lemma {:induction false} ScanAppends(pool: seq<Record>, key: string, used: set<Value>, today: seq<Record>)
    requires |today| < PerDay
    ensures var t := Scan(pool, key, used, today).0;
      |today| <= |t| <= PerDay && t == today + Taken(pool, key, used, today)
    ensures forall x :: x in Taken(pool, key, used, today) ==> x in pool
    decreases |pool|
  {
    if pool != [] {
      var id := Identity(pool[0], key);
      if id in used {
        ScanAppends(pool[1..], key, used, today);
      } else if |today| + 1 < PerDay {
        ScanAppends(pool[1..], key, used + {id}, today + [pool[0]]);
        var t := Scan(pool[1..], key, used + {id}, today + [pool[0]]).0;
        assert t[|today|..] == [pool[0]] + t[|today| + 1..];
      }
    }
  }

  /** A scan takes exactly `min(PerDay - |today|, #unused identities)` items. */
  lemma {:induction false} ScanCount(pool: seq<Record>, key: string, used: set<Value>, today: seq<Record>)
    requires |today| < PerDay
    ensures |Taken(pool, key, used, today)| == Min(PerDay - |today|, |IdSet(pool, key) - used|)
    decreases |pool|
  {
    ScanAppends(pool, key, used, today);
    if pool != [] {
      var id := Identity(pool[0], key);
      var rest := pool[1..];
      assert IdSet(pool, key) == {id} + IdSet(rest, key);
      if id in used {
        ScanCount(rest, key, used, today);
        assert IdSet(pool, key) - used == IdSet(rest, key) - used;
      } else {
        assert IdSet(pool, key) - used == {id} + (IdSet(rest, key) - (used + {id}));
        assert |IdSet(pool, key) - used| == 1 + |IdSet(rest, key) - (used + {id})|;
        if |today| + 1 < PerDay {
          ScanCount(rest, key, used + {id}, today + [pool[0]]);
          ScanAppends(rest, key, used + {id}, today + [pool[0]]);
        }
      }
    }
  }

  /** The items a scan takes have new, pairwise distinct identities, and the
      used set grows by exactly those identities. */
  lemma {:induction false} ScanMarks(pool: seq<Record>, key: string, used: set<Value>, today: seq<Record>)
    requires |today| < PerDay
    ensures var taken := Taken(pool, key, used, today);
      && IdsDistinct(taken, key)
      && IdSet(taken, key) !! used
      && Scan(pool, key, used, today).1 == used + IdSet(taken, key)
    decreases |pool|
  {
    ScanAppends(pool, key, used, today);
    if pool != [] {
      var id := Identity(pool[0], key);
      var rest := pool[1..];
      if id in used {
        ScanMarks(rest, key, used, today);
      } else if |today| + 1 == PerDay {
        assert Taken(pool, key, used, today) == [pool[0]];
        assert IdSet([pool[0]], key) == {id};
      } else {
        var today' := today + [pool[0]];
        ScanMarks(rest, key, used + {id}, today');
        ScanAppends(rest, key, used + {id}, today');
        var taken' := Taken(rest, key, used + {id}, today');
        assert Taken(pool, key, used, today) == [pool[0]] + taken';
        IdSetAppend([pool[0]], taken', key);
        assert IdSet([pool[0]], key) == {id};
        IdSetMember(taken', key, id);
        ConsDistinct(pool[0], taken', key);
      }
    }
  }

  lemma ConsDistinct(x: Record, s: seq<Record>, key: string)
    requires IdsDistinct(s, key)
    requires forall i :: 0 <= i < |s| ==> Identity(s[i], key) != Identity(x, key)
    ensures IdsDistinct([x] + s, key)
  {
    forall i, j | 0 <= i < j < |[x] + s|
      ensures Identity(([x] + s)[i], key) != Identity(([x] + s)[j], key)
    {
      assert ([x] + s)[j] == s[j - 1];
      if i > 0 { assert ([x] + s)[i] == s[i - 1]; }
    }
  }

  /** The used set after `n` days. */
  function UsedAfter(pool: seq<Record>, key: string, n: nat): set<Value>
  {
    if n == 0 then {} else Scan(pool, key, UsedAfter(pool, key, n - 1), []).1
  }

  lemma UsedAfterNext(pool: seq<Record>, key: string, k: nat)
    ensures UsedAfter(pool, key, k + 1) == Scan(pool, key, UsedAfter(pool, key, k), []).1
  {
  }

  /** The items day `k` (counted from 0) receives from `pool`. */
  function PicksOn(pool: seq<Record>, key: string, k: nat): seq<Record>
  {
    Scan(pool, key, UsedAfter(pool, key, k), []).0
  }

  /** Everything the first `n` days receive from `pool`, day after day. */
  function AllPicked(pool: seq<Record>, key: string, n: nat): seq<Record>
  {
    if n == 0 then [] else AllPicked(pool, key, n - 1) + PicksOn(pool, key, n - 1)
  }

  /** Day `n` (counted from 1) takes identities that are pairwise distinct and
      not yet used, and the used set grows by exactly those. */
  lemma DayMarks(pool: seq<Record>, key: string, n: nat)
    requires n > 0
    ensures IdSet(PicksOn(pool, key, n - 1), key) !! UsedAfter(pool, key, n - 1)
    ensures UsedAfter(pool, key, n) == UsedAfter(pool, key, n - 1) + IdSet(PicksOn(pool, key, n - 1), key)
  {
    var used := UsedAfter(pool, key, n - 1);
    var today := PicksOn(pool, key, n - 1);
    ScanAppends(pool, key, used, []);
    ScanMarks(pool, key, used, []);
    assert today == Taken(pool, key, used, []);
  }

  /** No identity occurs twice within one day. */
  lemma DayDistinct(pool: seq<Record>, key: string, k: nat)
    ensures IdsDistinct(PicksOn(pool, key, k), key)
  {
    var used := UsedAfter(pool, key, k);
    ScanAppends(pool, key, used, []);
    ScanMarks(pool, key, used, []);
    assert PicksOn(pool, key, k) == Taken(pool, key, used, []);
  }

  /** Day `k` takes `min(PerDay, #identities not yet used)` items. */
  lemma DayCount(pool: seq<Record>, key: string, k: nat)
    ensures |PicksOn(pool, key, k)| <= PerDay
    ensures |PicksOn(pool, key, k)| == Min(PerDay, |IdSet(pool, key) - UsedAfter(pool, key, k)|)
  {
    var used := UsedAfter(pool, key, k);
    ScanAppends(pool, key, used, []);
    ScanCount(pool, key, used, []);
    assert PicksOn(pool, key, k) == Taken(pool, key, used, []);
  }

  /** Day `k` takes `min(PerDay, #identities not yet used)` distinct identities. */
  lemma DayIdCount(pool: seq<Record>, key: string, k: nat)
    ensures |IdSet(PicksOn(pool, key, k), key)| == |PicksOn(pool, key, k)|
    ensures |IdSet(PicksOn(pool, key, k), key)| == Min(PerDay, |IdSet(pool, key) - UsedAfter(pool, key, k)|)
  {
    DayCount(pool, key, k);
    DayDistinct(pool, key, k);
    DistinctIdSetSize(PicksOn(pool, key, k), key);
  }

  /** Day `k` takes items of the pool only. */
  lemma DayFromPool(pool: seq<Record>, key: string, k: nat)
    ensures forall x :: x in PicksOn(pool, key, k) ==> x in pool
  {
    var used := UsedAfter(pool, key, k);
    ScanAppends(pool, key, used, []);
    assert PicksOn(pool, key, k) == Taken(pool, key, used, []);
  }

  /** The used set never leaves the pool's identities, and after `n` days
      it holds `min(#distinct identities, PerDay * n)` of them. */
  lemma {:induction false} UsedFacts(pool: seq<Record>, key: string, n: nat)
    ensures UsedAfter(pool, key, n) <= IdSet(pool, key)
    ensures |UsedAfter(pool, key, n)| == Min(|IdSet(pool, key)|, PerDay * n)
  {
    if n > 0 {
      UsedFacts(pool, key, n - 1);
      UsedGrowth(pool, key, UsedAfter(pool, key, n - 1));
    }
  }

  /** One scan, from a used set within the pool's identities, adds
      `min(PerDay, #unused identities)` identities of the pool. */
  lemma UsedGrowth(pool: seq<Record>, key: string, used: set<Value>)
    requires used <= IdSet(pool, key)
    ensures Scan(pool, key, used, []).1 <= IdSet(pool, key)
    ensures |Scan(pool, key, used, []).1| == |used| + Min(PerDay, |IdSet(pool, key)| - |used|)
  {
    var ids := IdSet(pool, key);
    var taken := Taken(pool, key, used, []);
    var picked := IdSet(taken, key);
    assert Scan(pool, key, used, []).1 == used + picked && picked !! used && IdsDistinct(taken, key) by {
      ScanMarks(pool, key, used, []);
    }
    assert |taken| == Min(PerDay, |ids - used|) by {
      ScanCount(pool, key, used, []);
    }
    assert picked <= ids by {
      ScanAppends(pool, key, used, []);
      IdSetSubseq(taken, pool, key);
    }
    DistinctIdSetSize(taken, key);
    SubsetDifferenceSize(used, ids);
    DisjointUnionSize(used, picked);
  }

  /** Items drawn from `b` carry identities of `b`. */
  lemma IdSetSubseq(a: seq<Record>, b: seq<Record>, key: string)
    requires forall x :: x in a ==> x in b
    ensures IdSet(a, key) <= IdSet(b, key)
  {
    forall id | id in IdSet(a, key) ensures id in IdSet(b, key) {
      IdSetMember(a, key, id);
      IdSetMember(b, key, id);
      var i :| 0 <= i < |a| && Identity(a[i], key) == id;
      assert a[i] in a;
      var j :| 0 <= j < |b| && b[j] == a[i];
    }
  }

  /** What the first `n` days receive has pairwise distinct identities,
      exactly the used ones. */
  lemma {:induction false} AllPickedDistinct(pool: seq<Record>, key: string, n: nat)
    ensures IdsDistinct(AllPicked(pool, key, n), key)
    ensures IdSet(AllPicked(pool, key, n), key) == UsedAfter(pool, key, n)
  {
    if n > 0 {
      AllPickedDistinct(pool, key, n - 1);
      var today := PicksOn(pool, key, n - 1);
      var used := UsedAfter(pool, key, n - 1);
      assert IdSet(today, key) !! used && UsedAfter(pool, key, n) == used + IdSet(today, key) by {
        DayMarks(pool, key, n);
      }
      assert IdsDistinct(today, key) by {
        DayDistinct(pool, key, n - 1);
      }
      var before := AllPicked(pool, key, n - 1);
      assert AllPicked(pool, key, n) == before + today;
      PickedStep(before, today, used, key);
    }
  }

  /** Appending a day whose identities are distinct and unused keeps the
      picks distinct and their identity set equal to the used set. */
  lemma PickedStep(before: seq<Record>, today: seq<Record>, used: set<Value>, key: string)
    requires IdsDistinct(before, key) && IdSet(before, key) == used
    requires IdsDistinct(today, key) && IdSet(today, key) !! used
    ensures IdsDistinct(before + today, key)
    ensures IdSet(before + today, key) == used + IdSet(today, key)
  {
    IdSetAppend(before, today, key);
    DistinctConcat(before, today, key);
  }

  /** The first `n` days receive `min(#distinct identities, PerDay * n)` items. */
  lemma AllocationFacts(pool: seq<Record>, key: string, n: nat)
    ensures IdsDistinct(AllPicked(pool, key, n), key)
    ensures IdSet(AllPicked(pool, key, n), key) == UsedAfter(pool, key, n)
    ensures |AllPicked(pool, key, n)| == Min(|IdSet(pool, key)|, PerDay * n)
  {
    UsedFacts(pool, key, n);
    AllPickedDistinct(pool, key, n);
    DistinctIdSetSize(AllPicked(pool, key, n), key);
  }

  /** Two distinct runs with disjoint identity sets concatenate to a distinct run. */
  lemma DistinctConcat(a: seq<Record>, b: seq<Record>, key: string)
    requires IdsDistinct(a, key) && IdsDistinct(b, key) && IdSet(a, key) !! IdSet(b, key)
    ensures IdsDistinct(a + b, key)
  {
    forall i, j | 0 <= i < j < |a + b|
      ensures Identity((a + b)[i], key) != Identity((a + b)[j], key)
    {
      if j < |a| {
        assert (a + b)[i] == a[i] && (a + b)[j] == a[j];
      } else if i >= |a| {
        assert (a + b)[i] == b[i - |a|];
        assert (a + b)[j] == b[j - |a|];
      } else {
        assert (a + b)[i] == a[i] && (a + b)[j] == b[j - |a|];
        IdSetMember(a, key, Identity(a[i], key));
        IdSetMember(b, key, Identity(b[j - |a|], key));
      }
    }
  }

  lemma DisjointUnionSize<T>(a: set<T>, b: set<T>)
    requires a !! b
    ensures |a + b| == |a| + |b|
  {
  }

  lemma SubsetDifferenceSize<T>(a: set<T>, b: set<T>)
    requires a <= b
    ensures |b - a| == |b| - |a|
  {
    assert b == a + (b - a);
  }

  /** A day receives fewer than `PerDay` items only when, after that day,
      every identity of the pool has been used. */
  lemma UnderfillOnlyWhenExhausted(pool: seq<Record>, key: string, k: nat)
    requires |PicksOn(pool, key, k)| < PerDay
    ensures IdSet(pool, key) <= UsedAfter(pool, key, k + 1)
  {
    DayMarks(pool, key, k + 1);
    DayIdCount(pool, key, k);
    var p := PicksOn(pool, key, k);
    var used := UsedAfter(pool, key, k);
    var ids := IdSet(pool, key);
    DayFromPool(pool, key, k);
    IdSetSubseq(p, pool, key);
    SubsetDifferenceSize(IdSet(p, key), ids - used);
    assert (ids - used) - IdSet(p, key) == {};
  }

  /** A single tour over three days: day 1 gets it, days 2 and 3 get none. */
  lemma SingleItemThreeDays(item: Record, key: string)
    ensures |PicksOn([item], key, 0)| == 1
    ensures |PicksOn([item], key, 1)| == 0
    ensures |PicksOn([item], key, 2)| == 0
  {
    assert IdSet([item], key) == {Identity(item, key)};
    UsedFacts([item], key, 1);
    UsedFacts([item], key, 2);
    DayCount([item], key, 0);
    DayCount([item], key, 1);
    DayCount([item], key, 2);
  }

  // ---------------------------------------------------------------------
  // The allocation loop of run_crew_with_data

  /** One day of the plan; `date` is the day's ordinal (days since an epoch). */
  datatype DayPlan = DayPlan(day: int, date: int, hotel: Option<Record>, tours: seq<Record>, attractions: seq<Record>)

  /** `(end - start).days + 1`, and `range` of a non-positive count is empty. */
  function NumDays(startDate: int, endDate: int): nat
  {
    Max(0, endDate - startDate + 1)
  }

  /** The inner `for t in tours` loop, as written, with its early `break`. */
  method PickForDay(pool: seq<Record>, key: string, used: set<Value>) returns (today: seq<Record>, used': set<Value>)
    ensures (today, used') == Scan(pool, key, used, [])
  {
    today, used' := [], used;
    var j := 0;
    while j < |pool|
      invariant 0 <= j <= |pool| && |today| < PerDay
      invariant Scan(pool[j..], key, used', today) == Scan(pool, key, used, [])
    {
      ghost var before := (today, used');
      assert pool[j..][1..] == pool[j + 1..];
      var t := pool[j];
      var id := Identity(t, key);
      if id !in used' {
        today := today + [t];
        used' := used' + {id};
      }
      if |today| == PerDay {
        break;
      }
      j := j + 1;
    }
  }

  /** Day `k` of a successful run: its number, its date, the scans' picks and
      the hotel chosen for that day's attractions. */
  predicate PlannedDay(hav: Haversine, startDate: int, hotels: seq<Record>,
                       shuffledTours: seq<Record>, shuffledAttractions: seq<Record>, k: nat, plan: DayPlan)
  {
    PlannedDayBy(hav, startDate, hotels, shuffledTours, shuffledAttractions, TourKey, AttractionKey, k, plan)
  }

  /** `PlannedDay` for any pair of identity keys. */
  predicate PlannedDayBy(hav: Haversine, startDate: int, hotels: seq<Record>,
                         tourPool: seq<Record>, attractionPool: seq<Record>,
                         tourKey: string, attractionKey: string, k: nat, plan: DayPlan)
  {
    && plan.day == k + 1
    && plan.date == startDate + k
    && plan.tours == PicksOn(tourPool, tourKey, k)
    && plan.attractions == PicksOn(attractionPool, attractionKey, k)
    && FindClosestHotel(hav, hotels, plan.attractions) == Ok(plan.hotel)
  }

  /** The day-plan part of `run_crew_with_data`. The shuffles are the two
      permutations the caller passes in; the caller's pools are untouched
      (sequences are values). The run fails exactly when the hotel choice
      of some day raises. */
  method RunCrewWithData(hav: Haversine, startDate: int, endDate: int, hotels: seq<Record>,
                         tours: seq<Record>, attractions: seq<Record>,
                         shuffledTours: seq<Record>, shuffledAttractions: seq<Record>)
    returns (r: Result<seq<DayPlan>>)
    requires multiset(shuffledTours) == multiset(tours)
    requires multiset(shuffledAttractions) == multiset(attractions)
    ensures r.Ok? <==> forall k :: 0 <= k < NumDays(startDate, endDate) ==>
      FindClosestHotel(hav, hotels, PicksOn(shuffledAttractions, AttractionKey, k)).Ok?
    ensures r.Ok? ==> |r.value| == NumDays(startDate, endDate)
    ensures r.Ok? ==> forall k :: 0 <= k < |r.value| ==>
      PlannedDay(hav, startDate, hotels, shuffledTours, shuffledAttractions, k, r.value[k])
  {
    r := PlanDays(hav, startDate, endDate, hotels, shuffledTours, shuffledAttractions, TourKey, AttractionKey);
  }

  /** The loop of `run_crew_with_data` over the days, for any identity keys. */
  method PlanDays(hav: Haversine, startDate: int, endDate: int, hotels: seq<Record>,
                  tourPool: seq<Record>, attractionPool: seq<Record>, tourKey: string, attractionKey: string)
    returns (r: Result<seq<DayPlan>>)
    ensures r.Ok? <==> forall k :: 0 <= k < NumDays(startDate, endDate) ==>
      FindClosestHotel(hav, hotels, PicksOn(attractionPool, attractionKey, k)).Ok?
    ensures r.Ok? ==> |r.value| == NumDays(startDate, endDate)
    ensures r.Ok? ==> forall k :: 0 <= k < |r.value| ==>
      PlannedDayBy(hav, startDate, hotels, tourPool, attractionPool, tourKey, attractionKey, k, r.value[k])
  {
    var numDays := endDate - startDate + 1;
    var usedTours: set<Value> := {};
    var usedAttractions: set<Value> := {};
    var days: seq<DayPlan> := [];
    var i := 0;
    while i < numDays
      invariant 0 <= i <= NumDays(startDate, endDate) && |days| == i
      invariant usedTours == UsedAfter(tourPool, tourKey, i)
      invariant usedAttractions == UsedAfter(attractionPool, attractionKey, i)
      invariant forall k :: 0 <= k < i ==>
        PlannedDayBy(hav, startDate, hotels, tourPool, attractionPool, tourKey, attractionKey, k, days[k])
    {
      var todayTours, todayAttractions;
      todayTours, usedTours := PickForDay(tourPool, tourKey, usedTours);
      todayAttractions, usedAttractions := PickForDay(attractionPool, attractionKey, usedAttractions);
      assert todayAttractions == PicksOn(attractionPool, attractionKey, i);
      assert todayTours == PicksOn(tourPool, tourKey, i);
      UsedAfterNext(tourPool, tourKey, i);
      UsedAfterNext(attractionPool, attractionKey, i);
      var hotel := FindClosestHotel(hav, hotels, todayAttractions);
      if hotel.Err? {
        return Err("Failed to generate itinerary: " + hotel.message);
      }
      days := days + [DayPlan(i + 1, startDate + i, hotel.value, todayTours, todayAttractions)];
      i := i + 1;
    }
    assert forall k :: 0 <= k < NumDays(startDate, endDate) ==>
      FindClosestHotel(hav, hotels, PicksOn(attractionPool, attractionKey, k)) == Ok(days[k].hotel);
    r := Ok(days);
  }

  /** All tours of a plan, day after day. */
  function PlanTours(days: seq<DayPlan>): seq<Record>
  {
    if days == [] then [] else PlanTours(days[..|days| - 1]) + days[|days| - 1].tours
  }

  /** All attractions of a plan, day after day. */
  function PlanAttractions(days: seq<DayPlan>): seq<Record>
  {
    if days == [] then [] else PlanAttractions(days[..|days| - 1]) + days[|days| - 1].attractions
  }

  lemma {:induction false} PlanToursArePicks(days: seq<DayPlan>, pool: seq<Record>)
    requires forall k :: 0 <= k < |days| ==> days[k].tours == PicksOn(pool, TourKey, k)
    ensures PlanTours(days) == AllPicked(pool, TourKey, |days|)
  {
    if days != [] { PlanToursArePicks(days[..|days| - 1], pool); }
  }

  lemma {:induction false} PlanAttractionsArePicks(days: seq<DayPlan>, pool: seq<Record>)
    requires forall k :: 0 <= k < |days| ==> days[k].attractions == PicksOn(pool, AttractionKey, k)
    ensures PlanAttractions(days) == AllPicked(pool, AttractionKey, |days|)
  {
    if days != [] { PlanAttractionsArePicks(days[..|days| - 1], pool); }
  }

  /** The promises of a successful run: one plan per day, numbered from 1
      and dated from the start; at most two tours and two attractions per
      day; no tour or attraction identity twice across the whole plan; and
      the plan holds `min(#distinct identities in the pool, 2 * days)` tours
      and as many attractions by the same rule. */
  lemma {:induction false} RunCrewPromises(hav: Haversine, startDate: int, endDate: int, hotels: seq<Record>,
                                           tours: seq<Record>, attractions: seq<Record>,
                                           shuffledTours: seq<Record>, shuffledAttractions: seq<Record>,
                                           days: seq<DayPlan>)
    requires multiset(shuffledTours) == multiset(tours)
    requires multiset(shuffledAttractions) == multiset(attractions)
    requires |days| == NumDays(startDate, endDate)
    requires forall k :: 0 <= k < |days| ==>
      PlannedDay(hav, startDate, hotels, shuffledTours, shuffledAttractions, k, days[k])
    ensures forall k :: 0 <= k < |days| ==> days[k].day == k + 1 && days[k].date == startDate + k
    ensures forall k :: 0 <= k < |days| ==> |days[k].tours| <= PerDay && |days[k].attractions| <= PerDay
    ensures IdsDistinct(PlanTours(days), TourKey)
    ensures IdsDistinct(PlanAttractions(days), AttractionKey)
    ensures |PlanTours(days)| == Min(|IdSet(tours, TourKey)|, PerDay * |days|)
    ensures |PlanAttractions(days)| == Min(|IdSet(attractions, AttractionKey)|, PerDay * |days|)
  {
    forall k | 0 <= k < |days|
      ensures |days[k].tours| <= PerDay && |days[k].attractions| <= PerDay
    {
      DayCount(shuffledTours, TourKey, k);
      DayCount(shuffledAttractions, AttractionKey, k);
    }
    PlanToursArePicks(days, shuffledTours);
    PlanAttractionsArePicks(days, shuffledAttractions);
    AllocationFacts(shuffledTours, TourKey, |days|);
    AllocationFacts(shuffledAttractions, AttractionKey, |days|);
    IdSetPermutation(shuffledTours, tours, TourKey);
    IdSetPermutation(shuffledAttractions, attractions, AttractionKey);
  }
}
