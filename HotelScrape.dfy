/** The scraping step's bookkeeping: merging the hotels an API returns into
    those already scraped without repeating a name, reading brand patterns
    off hotel names, and sharing out how many synthetic hotels each city
    gets when fewer than 220 were found. */
module HotelScrape {
  import opened Wrappers
  import opened Values
  import Text

  /** A scraped hotel: its city, its name and its other columns. */
  datatype Hotel = Hotel(city: string, name: string, details: Record)

  /** The cities scraped, in the order of the city table. */
  const Cities: seq<string> := ["New York", "San Francisco", "Chicago", "Seattle", "Las Vegas", "Los Angeles"]

  /** The brands a city without patterns of its own is given. */
  const DefaultBrands: seq<string> := ["Holiday Inn", "Crowne Plaza", "InterContinental", "Hotel Indigo", "Staybridge Suites"]

  /** The number of hotels the pipeline aims for. */
  const Target: nat := 220

  function Names(hotels: seq<Hotel>): set<string>
  {
    set h | h in hotels :: h.name
  }

  // ----- Merging the API hotels -----

  /** The hotels and the seen names after admitting the API hotels one by
      one: a hotel is appended when its name has not been seen. */
  function Merge(all: seq<Hotel>, seen: set<string>, api: seq<Hotel>): (seq<Hotel>, set<string>)
  {
    if |api| == 0 then (all, seen)
    else
      var (m, s) := Merge(all, seen, api[..|api| - 1]);
      var h := api[|api| - 1];
      if h.name in s then (m, s) else (m + [h], s + {h.name})
  }

  /** The merge loop over the API results. */
  method MergeApiHotels(all: seq<Hotel>, api: seq<Hotel>) returns (merged: seq<Hotel>)
    ensures merged == Merge(all, Names(all), api).0
  {
    merged := all;
    var existing := Names(all);
    var i := 0;
    while i < |api|
      invariant 0 <= i <= |api|
      invariant (merged, existing) == Merge(all, Names(all), api[..i])
    {
      assert api[..i + 1][..i] == api[..i];
      var h := api[i];
      if h.name !in existing {
        merged := merged + [h];
        existing := existing + {h.name};
      }
      i := i + 1;
    }
    assert api[..|api|] == api;
  }

  /** The merge keeps the existing hotels untouched in front and appends
      only API hotels whose name was not seen before. */
  lemma {:induction false} MergeKeeps(all: seq<Hotel>, seen: set<string>, api: seq<Hotel>)
    ensures var (m, s) := Merge(all, seen, api);
            && |all| <= |m| && m[..|all|] == all && seen <= s
            && (forall i :: |all| <= i < |m| ==> m[i] in api && m[i].name !in seen)
  {
    if |api| > 0 {
      var init := api[..|api| - 1];
      MergeKeeps(all, seen, init);
      var (m, s) := Merge(all, seen, init);
      assert forall x :: x in init ==> x in api;
      assert (m + [api[|api| - 1]])[..|all|] == m[..|all|];
    }
  }

  /** Starting from the names of the existing hotels, the seen names are
      the names of the merged hotels, and they cover every API name. */
  lemma {:induction false} MergeSeen(all: seq<Hotel>, api: seq<Hotel>)
    ensures var (m, s) := Merge(all, Names(all), api);
            s == Names(m) && forall h :: h in api ==> h.name in s
  {
    if |api| > 0 {
      var init := api[..|api| - 1];
      MergeSeen(all, init);
      var (m, s) := Merge(all, Names(all), init);
      var h := api[|api| - 1];
      assert forall x :: x in api ==> x in init || x == h;
      if h.name !in s {
        assert forall x :: x in m + [h] <==> x in m || x == h;
      }
    }
  }

  /** No two appended hotels share a name. */
  lemma {:induction false} MergeDistinct(all: seq<Hotel>, api: seq<Hotel>)
    ensures var (m, s) := Merge(all, Names(all), api);
            forall i, j :: |all| <= i < j < |m| ==> m[i].name != m[j].name
  {
    if |api| > 0 {
      var init := api[..|api| - 1];
      MergeDistinct(all, init);
      MergeSeen(all, init);
      MergeKeeps(all, Names(all), init);
      var (m, s) := Merge(all, Names(all), init);
      var h := api[|api| - 1];
      if h.name !in s {
        var m' := m + [h];
        forall i, j | |all| <= i < j < |m'|
          ensures m'[i].name != m'[j].name
        {
          if j == |m| {
            assert m'[i] == m[i] && m[i] in m;
          }
        }
      }
    }
  }

  // ----- Brand patterns -----

  /** `" ".join(name.split()[:-2])` for a name of three words or more;
      shorter names give no pattern. */
  function Brand(name: string): (b: Option<string>)
    ensures b.Some? <==> |Text.SplitWords(name)| >= 3
  {
    var words := Text.SplitWords(name);
    if |words| >= 3 then Some(Text.Join(words[..|words| - 2], " ")) else None
  }

  /** The brand is the name without its last two words. */
  lemma BrandWords(name: string)
    requires Brand(name).Some?
    ensures var words := Text.SplitWords(name);
            Text.SplitWords(Brand(name).value) == words[..|words| - 2]
  {
    var words := Text.SplitWords(name);
    Text.SplitWordsJoin(words[..|words| - 2]);
  }

  /** The brands read off the hotels of `city`, in hotel order. */
  function CityBrands(hotels: seq<Hotel>, city: string): seq<string>
  {
    if |hotels| == 0 then []
    else
      var h := hotels[|hotels| - 1];
      CityBrands(hotels[..|hotels| - 1], city)
        + (if h.city == city && Brand(h.name).Some? then [Brand(h.name).value] else [])
  }

  /** The cities with a pattern, in order of their first patterned hotel. */
  function PatternCities(hotels: seq<Hotel>): seq<string>
  {
    if |hotels| == 0 then []
    else
      var prev := PatternCities(hotels[..|hotels| - 1]);
      var h := hotels[|hotels| - 1];
      if Brand(h.name).None? || h.city in prev then prev else prev + [h.city]
  }

  /** The cities of `cities` not in `present`, in order. */
  function Missing(cities: seq<string>, present: seq<string>): seq<string>
  {
    if |cities| == 0 then []
    else
      var c := cities[|cities| - 1];
      Missing(cities[..|cities| - 1], present) + (if c in present then [] else [c])
  }

  /** `Missing` holds exactly the cities not present. */
  lemma {:induction false} MissingMembers(cities: seq<string>, present: seq<string>, c: string)
    ensures c in Missing(cities, present) <==> c in cities && c !in present
  {
    if |cities| > 0 {
      var init := cities[..|cities| - 1];
      MissingMembers(init, present, c);
      assert cities == init + [cities[|cities| - 1]];
    }
  }

  /** A city has patterns exactly when it is among the patterned cities. */
  lemma {:induction false} PatternCitiesBrands(hotels: seq<Hotel>, city: string)
    ensures city in PatternCities(hotels) <==> CityBrands(hotels, city) != []
  {
    if |hotels| > 0 {
      PatternCitiesBrands(hotels[..|hotels| - 1], city);
    }
  }

  /** The patterned cities are listed once each. */
  lemma {:induction false} PatternCitiesDistinct(hotels: seq<Hotel>)
    ensures forall i, j :: 0 <= i < j < |PatternCities(hotels)| ==> PatternCities(hotels)[i] != PatternCities(hotels)[j]
  {
    if |hotels| > 0 {
      PatternCitiesDistinct(hotels[..|hotels| - 1]);
    }
  }

  /** The patterns a city ends up with. */
  function Patterns(hotels: seq<Hotel>, city: string): seq<string>
  {
    if CityBrands(hotels, city) != [] then CityBrands(hotels, city) else DefaultBrands
  }

  /** The first pattern loop's state after `k` hotels. */
  predicate Collected(hotels: seq<Hotel>, k: nat, patterns: map<string, seq<string>>, order: seq<string>)
    requires k <= |hotels|
  {
    && order == PatternCities(hotels[..k])
    && patterns.Keys == (set c | c in order)
    && forall c :: c in patterns ==> patterns[c] == CityBrands(hotels[..k], c)
  }

  /** One more hotel: its brand, if any, joins its city's list, and the
      city joins the order when it is new. */
  lemma CollectStep(hotels: seq<Hotel>, k: nat, patterns: map<string, seq<string>>, order: seq<string>)
    requires k < |hotels| && Collected(hotels, k, patterns, order)
    ensures var h := hotels[k];
            var b := Brand(h.name);
            if b.None? then Collected(hotels, k + 1, patterns, order)
            else if h.city in patterns then Collected(hotels, k + 1, patterns[h.city := patterns[h.city] + [b.value]], order)
            else var started := patterns[h.city := []];
                 Collected(hotels, k + 1, started[h.city := started[h.city] + [b.value]], order + [h.city])
  {
    var h := hotels[k];
    assert hotels[..k + 1][..k] == hotels[..k];
    assert hotels[..k + 1][k] == h;
    assert h.city in patterns <==> h.city in order;
    PatternCitiesBrands(hotels[..k], h.city);
  }

  /** The first pattern loop: the brands of the hotels, by city. */
  method CollectPatterns(hotels: seq<Hotel>) returns (patterns: map<string, seq<string>>, order: seq<string>)
    ensures order == PatternCities(hotels)
    ensures patterns.Keys == set c | c in order
    ensures forall c :: c in patterns ==> patterns[c] == CityBrands(hotels, c)
  {
    patterns := map[];
    order := [];
    var k := 0;
    while k < |hotels|
      invariant 0 <= k <= |hotels|
      invariant Collected(hotels, k, patterns, order)
    {
      var h := hotels[k];
      var brand := Brand(h.name);
      CollectStep(hotels, k, patterns, order);
      if brand.Some? {
        if h.city !in patterns {
          patterns := patterns[h.city := []];
          order := order + [h.city];
        }
        patterns := patterns[h.city := patterns[h.city] + [brand.value]];
      }
      k := k + 1;
    }
    assert hotels[..|hotels|] == hotels;
  }

  /** The two pattern loops: brands by city from the hotels, then the default
      brands for every city of the city table that has none. */
  method BrandPatterns(hotels: seq<Hotel>) returns (patterns: map<string, seq<string>>, order: seq<string>)
    ensures order == PatternCities(hotels) + Missing(Cities, PatternCities(hotels))
    ensures patterns.Keys == set c | c in order
    ensures forall c :: c in patterns ==> patterns[c] == Patterns(hotels, c)
  {
    patterns, order := CollectPatterns(hotels);
    forall c | c in patterns
      ensures patterns[c] != []
    {
      PatternCitiesBrands(hotels, c);
    }
    var found := patterns;
    patterns, order := AddDefaults(patterns, order, Cities, DefaultBrands);
    forall c | c in patterns
      ensures patterns[c] == Patterns(hotels, c)
    {
      PatternCitiesBrands(hotels, c);
    }
  }

  /** The second pattern loop: every city of `cities` not yet a key, or with
      an empty list, gets `defaults` and joins the order. */
  method AddDefaults(patterns0: map<string, seq<string>>, found: seq<string>, cities: seq<string>, defaults: seq<string>)
    returns (patterns: map<string, seq<string>>, order: seq<string>)
    requires patterns0.Keys == set c | c in found
    requires forall c :: c in patterns0 ==> patterns0[c] != []
    requires forall i, j :: 0 <= i < j < |cities| ==> cities[i] != cities[j]
    ensures order == found + Missing(cities, found)
    ensures patterns.Keys == set c | c in order
    ensures forall c :: c in patterns ==> patterns[c] == if c in patterns0 then patterns0[c] else defaults
  {
    patterns := patterns0;
    order := found;
    var j := 0;
    while j < |cities|
      invariant 0 <= j <= |cities|
      invariant order == found + Missing(cities[..j], found)
      invariant patterns.Keys == set c | c in order
      invariant forall c :: c in patterns ==> patterns[c] == if c in patterns0 then patterns0[c] else defaults
      invariant forall c :: c in patterns && c !in patterns0 ==> c in cities[..j]
    {
      assert cities[..j + 1][..j] == cities[..j];
      var city := cities[j];
      assert city !in cities[..j] by {
        forall i | 0 <= i < j ensures cities[i] != city { }
      }
      assert cities[..j + 1][j] == city;
      assert Missing(cities[..j + 1], found) == Missing(cities[..j], found) + (if city in found then [] else [city]);
      assert city in patterns <==> city in found;
      if city !in patterns || patterns[city] == [] {
        assert order + [city] == found + (Missing(cities[..j], found) + [city]);
        patterns := patterns[city := defaults];
        order := order + [city];
      }
      j := j + 1;
    }
    assert cities[..|cities|] == cities;
  }

  /** Every city of the city table has a non-empty pattern list, its own
      brands when its hotels gave any and the default brands otherwise. */
  lemma EveryCityHasPatterns(hotels: seq<Hotel>, city: string)
    requires city in Cities
    ensures city in PatternCities(hotels) + Missing(Cities, PatternCities(hotels))
    ensures Patterns(hotels, city) != []
    ensures CityBrands(hotels, city) == [] ==> Patterns(hotels, city) == DefaultBrands
  {
    MissingMembers(Cities, PatternCities(hotels), city);
  }

  /** The pattern order lists each city once. */
  lemma PatternOrderDistinct(hotels: seq<Hotel>)
    ensures var order := PatternCities(hotels) + Missing(Cities, PatternCities(hotels));
            forall i, j :: 0 <= i < j < |order| ==> order[i] != order[j]
  {
    PatternCitiesDistinct(hotels);
    ExtendDistinct(PatternCities(hotels), Cities);
  }

  /** Extending a list without repeats by the missing cities of another
      list without repeats repeats nothing. */
  lemma ExtendDistinct(found: seq<string>, cities: seq<string>)
    requires forall i, j :: 0 <= i < j < |found| ==> found[i] != found[j]
    requires forall i, j :: 0 <= i < j < |cities| ==> cities[i] != cities[j]
    ensures var order := found + Missing(cities, found);
            forall i, j :: 0 <= i < j < |order| ==> order[i] != order[j]
  {
    var order := found + Missing(cities, found);
    MissingDistinct(cities, found);
    forall i, j | 0 <= i < j < |order|
      ensures order[i] != order[j]
    {
      if j >= |found| && i < |found| {
        assert order[j] in Missing(cities, found);
        MissingMembers(cities, found, order[j]);
        assert order[i] in found;
      }
    }
  }

  /** `Missing` keeps the cities of a list without repeats once each. */
  lemma {:induction false} MissingDistinct(cities: seq<string>, present: seq<string>)
    requires forall i, j :: 0 <= i < j < |cities| ==> cities[i] != cities[j]
    ensures forall i, j :: 0 <= i < j < |Missing(cities, present)| ==> Missing(cities, present)[i] != Missing(cities, present)[j]
  {
    if |cities| > 0 {
      var init := cities[..|cities| - 1];
      MissingDistinct(init, present);
      var c := cities[|cities| - 1];
      forall x | x in Missing(init, present)
        ensures x != c
      {
        MissingMembers(init, present, x);
        var i :| 0 <= i < |init| && init[i] == x;
      }
      var m := Missing(init, present);
      if c !in present {
        var r := m + [c];
        forall i, j | 0 <= i < j < |r|
          ensures r[i] != r[j]
        {
          if j == |m| {
            assert r[i] == m[i] && m[i] in m;
          }
        }
      }
    }
  }

  // ----- The per-city quota of synthetic hotels -----

  /** The sum of the quotas of the cities in `order`. */
  function QuotaSum(order: seq<string>, quotas: map<string, int>): int
    requires forall c :: c in order ==> c in quotas
  {
    if |order| == 0 then 0 else QuotaSum(order[..|order| - 1], quotas) + quotas[order[|order| - 1]]
  }

  lemma {:induction false} QuotaSumUniform(order: seq<string>, quotas: map<string, int>, v: int)
    requires forall c :: c in order ==> c in quotas && quotas[c] == v
    ensures QuotaSum(order, quotas) == |order| * v
  {
    if |order| > 0 {
      QuotaSumUniform(order[..|order| - 1], quotas, v);
    }
  }

  /** Raising one city's quota raises the sum by as much. */
  lemma {:induction false} QuotaSumRaise(order: seq<string>, quotas: map<string, int>, city: string, extra: int)
    requires forall c :: c in order ==> c in quotas
    requires city in quotas
    requires forall i, j :: 0 <= i < j < |order| ==> order[i] != order[j]
    ensures QuotaSum(order, quotas[city := quotas[city] + extra])
         == QuotaSum(order, quotas) + (if city in order then extra else 0)
  {
    if |order| > 0 {
      var init := order[..|order| - 1];
      QuotaSumRaise(init, quotas, city, extra);
      if order[|order| - 1] == city {
        assert city !in init by {
          forall i | 0 <= i < |init| ensures init[i] != city { }
        }
      }
    }
  }

  /** The quota table: `share` stands for `int(count / number of cities)`
      (the float division is not modelled); every city gets at least one
      hotel, and when that falls short of `count` the first city takes the
      rest. No city is a division by zero. */
  method ComputeQuotas(order: seq<string>, count: int, share: nat) returns (r: Result<map<string, int>>)
    requires forall i, j :: 0 <= i < j < |order| ==> order[i] != order[j]
    ensures r.Ok? <==> |order| > 0
    ensures r.Ok? ==> r.value.Keys == set c | c in order
    ensures r.Ok? ==> forall c :: c in r.value ==> r.value[c] >= 1
    ensures r.Ok? ==> forall c :: c in r.value && c != order[0] ==> r.value[c] == Max(1, share)
    ensures r.Ok? ==> QuotaSum(order, r.value) >= count
    ensures r.Ok? ==> (QuotaSum(order, r.value) == count <==> |order| * Max(1, share) <= count)
    ensures r.Ok? ==> r.value[order[0]] == Max(1, share) + Max(0, count - |order| * Max(1, share))
    ensures r.Ok? ==> QuotaSum(order, r.value) == Max(count, |order| * Max(1, share))
  {
    if |order| == 0 {
      return Err("float division by zero");
    }
    var each := Max(1, share);
    var quotas := map c | c in order :: each;
    QuotaSumUniform(order, quotas, each);
    var total := |order| * each;
    if total < count {
      var first := order[0];
      QuotaSumRaise(order, quotas, first, count - total);
      quotas := quotas[first := quotas[first] + (count - total)];
    }
    return Ok(quotas);
  }

  // ----- The scraping step -----

  /** The scraping step, given what the direct scrape and the API returned
      (a failed source is an empty list) and the per-city share: the hotels
      kept, and how many synthetic hotels are generated. Generating for a
      patterned city outside the city table fails, as the lookup of its
      state does. */
  method ScrapeHotels(known: seq<Hotel>, api: seq<Hotel>, share: nat) returns (r: Result<(seq<Hotel>, int)>)
    ensures var merged := if |known| < Target then Merge(known, Names(known), api).0 else known;
            var order := PatternCities(merged) + Missing(Cities, PatternCities(merged));
            && (|merged| >= Target ==> r == Ok((merged, 0)))
            && (|merged| < Target && (forall c :: c in order ==> c in Cities) ==>
                  r.Ok? && r.value.0 == merged && |merged| + r.value.1 >= Target
                  && (|merged| + r.value.1 == Target <==> |order| * Max(1, share) <= Target - |merged|)
                  && r.value.1 == Max(Target - |merged|, |order| * Max(1, share)))
            && (r.Err? <==> |merged| < Target && exists c :: c in order && c !in Cities)
  {
    var all := known;
    if |all| < Target {
      all := MergeApiHotels(all, api);
    }
    if |all| >= Target {
      return Ok((all, 0));
    }
    var patterns, order := BrandPatterns(all);
    PatternOrderDistinct(all);
    EveryCityHasPatterns(all, Cities[0]);
    var quotas := ComputeQuotas(order, Target - |all|, share);
    var generated := CountGenerated(order, quotas.value, Cities);
    if generated.Err? {
      return Err(generated.message);
    }
    return Ok((all, generated.value));
  }

  /** The generation loop's bookkeeping: one hotel per quota slot, city by
      city, failing at the first city without an entry in `table`. */
  method CountGenerated(order: seq<string>, quotas: map<string, int>, table: seq<string>) returns (r: Result<int>)
    requires forall c :: c in order ==> c in quotas
    ensures r.Ok? <==> forall c :: c in order ==> c in table
    ensures r.Ok? ==> r.value == QuotaSum(order, quotas)
    ensures r.Err? ==> exists c :: c in order && c !in table && r.message == "'" + c + "'"
  {
    var generated := 0;
    var k := 0;
    while k < |order|
      invariant 0 <= k <= |order|
      invariant forall c :: c in order[..k] ==> c in table
      invariant generated == QuotaSum(order[..k], quotas)
    {
      assert order[..k + 1][..k] == order[..k];
      var city := order[k];
      if city !in table {
        return Err("'" + city + "'");
      }
      generated := generated + quotas[city];
      k := k + 1;
    }
    assert order[..|order|] == order;
    return Ok(generated);
  }
}
