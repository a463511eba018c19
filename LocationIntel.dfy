/** The map view of an itinerary: its hotels, attractions and tours
    flattened into one list of locations to geocode, and the geocoded
    locations grouped by day. */
module LocationIntel {
  import opened Wrappers
  import opened Values
  import Text

  /** A day of the itinerary as the map view reads it: `attractions` and
      `tours` are empty when the day has none. */
  datatype ItinDay = ItinDay(day: int, hotel: Option<Record>, attractions: seq<Record>, tours: seq<Record>)

  datatype Location = Location(id: string, name: Value, address: Value, kind: string, day: int)

  /** `if hotel:` — no hotel, or an empty one, is skipped. */
  predicate HasHotel(d: ItinDay)
  {
    d.hotel.Some? && d.hotel.value != map[]
  }

  function HotelLocation(d: ItinDay): (l: Location)
    requires HasHotel(d)
    ensures l.kind == "hotel" && l.day == d.day
    ensures l.id == "hotel_day_" + Text.IntToString(d.day)
    ensures "NAME" !in d.hotel.value ==> l.name == Str("Unknown Hotel")
    ensures "NAME" in d.hotel.value ==> l.name == d.hotel.value["NAME"]
  {
    Location("hotel_day_" + Text.IntToString(d.day), GetOr(d.hotel.value, "NAME", Str("Unknown Hotel")),
             GetOr(d.hotel.value, "ADDRESS", Str("")), "hotel", d.day)
  }

  function AttractionLocation(day: int, i: nat, a: Record): (l: Location)
    ensures l.kind == "attraction" && l.day == day
    ensures l.id == "attraction_day_" + Text.IntToString(day) + "_" + Text.IntToString(i)
    ensures "PLACENAME" !in a ==> l.name == Str("Attraction " + Text.IntToString(i + 1))
    ensures "PLACENAME" in a ==> l.name == a["PLACENAME"]
  {
    Location("attraction_day_" + Text.IntToString(day) + "_" + Text.IntToString(i),
             GetOr(a, "PLACENAME", Str("Attraction " + Text.IntToString(i + 1))),
             GetOr(a, "ADDRESS", Str("")), "attraction", day)
  }

  /** Tours carry no address. */
  function TourLocation(day: int, i: nat, t: Record): (l: Location)
    ensures l.kind == "tour" && l.day == day && l.address == Str("")
    ensures l.id == "tour_day_" + Text.IntToString(day) + "_" + Text.IntToString(i)
    ensures "TITLE" !in t ==> l.name == Str("Tour " + Text.IntToString(i + 1))
    ensures "TITLE" in t ==> l.name == t["TITLE"]
  {
    Location("tour_day_" + Text.IntToString(day) + "_" + Text.IntToString(i),
             GetOr(t, "TITLE", Str("Tour " + Text.IntToString(i + 1))), Str(""), "tour", day)
  }

  /** One block per day. */
  function HotelBlock(d: ItinDay): seq<Location>
  {
    if HasHotel(d) then [HotelLocation(d)] else []
  }

  function AttractionBlock(d: ItinDay): (ls: seq<Location>)
    ensures |ls| == |d.attractions|
    ensures forall i :: 0 <= i < |ls| ==> ls[i] == AttractionLocation(d.day, i, d.attractions[i])
  {
    seq(|d.attractions|, i requires 0 <= i < |d.attractions| => AttractionLocation(d.day, i, d.attractions[i]))
  }

  function TourBlock(d: ItinDay): (ls: seq<Location>)
    ensures |ls| == |d.tours|
    ensures forall i :: 0 <= i < |ls| ==> ls[i] == TourLocation(d.day, i, d.tours[i])
  {
    seq(|d.tours|, i requires 0 <= i < |d.tours| => TourLocation(d.day, i, d.tours[i]))
  }

  /** The blocks of all days, in day order. */
  function Blocks(days: seq<ItinDay>, block: ItinDay -> seq<Location>): seq<Location>
  {
    if |days| == 0 then [] else Blocks(days[..|days| - 1], block) + block(days[|days| - 1])
  }

  /** The flattened list: every hotel, then every attraction, then every tour. */
  function Locations(days: seq<ItinDay>): seq<Location>
  {
    Blocks(days, HotelBlock) + Blocks(days, AttractionBlock) + Blocks(days, TourBlock)
  }

  /** The location list of an itinerary, built by three passes over the
      days; `None` stands for an itinerary without `days`. */
  method ExtractItineraryLocations(days: Option<seq<ItinDay>>) returns (locations: seq<Location>)
    ensures locations == Locations(if days.Some? then days.value else [])
  {
    var ds := if days.Some? then days.value else [];
    locations := [];
    var k := 0;
    while k < |ds|
      invariant 0 <= k <= |ds|
      invariant locations == Blocks(ds[..k], HotelBlock)
    {
      assert ds[..k + 1][..k] == ds[..k];
      if HasHotel(ds[k]) {
        locations := locations + [HotelLocation(ds[k])];
      }
      k := k + 1;
    }
    assert ds[..|ds|] == ds;
    locations := AppendItems(locations, ds, AttractionBlock);
    locations := AppendItems(locations, ds, TourBlock);
  }

  /** One pass over the days, appending each day's block item by item. */
  method AppendItems(prefix: seq<Location>, days: seq<ItinDay>, block: ItinDay -> seq<Location>)
    returns (locations: seq<Location>)
    ensures locations == prefix + Blocks(days, block)
  {
    locations := prefix;
    var k := 0;
    while k < |days|
      invariant 0 <= k <= |days|
      invariant locations == prefix + Blocks(days[..k], block)
    {
      assert days[..k + 1][..k] == days[..k];
      var items := block(days[k]);
      var i := 0;
      while i < |items|
        invariant 0 <= i <= |items|
        invariant locations == prefix + Blocks(days[..k], block) + items[..i]
      {
        assert items[..i + 1] == items[..i] + [items[i]];
        locations := locations + [items[i]];
        i := i + 1;
      }
      assert items[..|items|] == items;
      k := k + 1;
    }
    assert days[..|days|] == days;
  }

  /** The number of days with a hotel. */
  function HotelDays(days: seq<ItinDay>): nat
  {
    if |days| == 0 then 0 else HotelDays(days[..|days| - 1]) + (if HasHotel(days[|days| - 1]) then 1 else 0)
  }

  function TotalAttractions(days: seq<ItinDay>): nat
  {
    if |days| == 0 then 0 else TotalAttractions(days[..|days| - 1]) + |days[|days| - 1].attractions|
  }

  function TotalTours(days: seq<ItinDay>): nat
  {
    if |days| == 0 then 0 else TotalTours(days[..|days| - 1]) + |days[|days| - 1].tours|
  }

  lemma {:induction false} HotelCount(days: seq<ItinDay>)
    ensures |Blocks(days, HotelBlock)| == HotelDays(days)
  {
    if |days| > 0 {
      HotelCount(days[..|days| - 1]);
    }
  }

  lemma {:induction false} AttractionCount(days: seq<ItinDay>)
    ensures |Blocks(days, AttractionBlock)| == TotalAttractions(days)
  {
    if |days| > 0 {
      AttractionCount(days[..|days| - 1]);
    }
  }

  lemma {:induction false} TourCount(days: seq<ItinDay>)
    ensures |Blocks(days, TourBlock)| == TotalTours(days)
  {
    if |days| > 0 {
      TourCount(days[..|days| - 1]);
    }
  }

  /** One location per day with a hotel, per attraction and per tour. */
  lemma LocationCount(days: seq<ItinDay>)
    ensures |Locations(days)| == HotelDays(days) + TotalAttractions(days) + TotalTours(days)
  {
    HotelCount(days);
    AttractionCount(days);
    TourCount(days);
  }

  /** Every location of a block built by `block` has the kind `kind`. */
  lemma {:induction false} BlocksKind(days: seq<ItinDay>, block: ItinDay -> seq<Location>, kind: string)
    requires forall d :: forall l :: l in block(d) ==> l.kind == kind
    ensures forall l :: l in Blocks(days, block) ==> l.kind == kind
  {
    if |days| > 0 {
      BlocksKind(days[..|days| - 1], block, kind);
    }
  }

  /** The rank of a kind in the flattened list. */
  function Rank(kind: string): nat
  {
    if kind == "hotel" then 0 else if kind == "attraction" then 1 else 2
  }

  /** All hotels come first, then all attractions, then all tours. */
  lemma LocationsByKind(days: seq<ItinDay>)
    ensures forall i, j :: 0 <= i < j < |Locations(days)| ==>
              Rank(Locations(days)[i].kind) <= Rank(Locations(days)[j].kind)
  {
    BlocksKind(days, HotelBlock, "hotel");
    BlocksKind(days, AttractionBlock, "attraction");
    BlocksKind(days, TourBlock, "tour");
    RankedConcat(Blocks(days, HotelBlock), Blocks(days, AttractionBlock), Blocks(days, TourBlock));
  }

  /** Three lists of one kind each, in rank order, concatenate into a list
      ordered by rank. */
  lemma RankedConcat(h: seq<Location>, a: seq<Location>, t: seq<Location>)
    requires forall l :: l in h ==> l.kind == "hotel"
    requires forall l :: l in a ==> l.kind == "attraction"
    requires forall l :: l in t ==> l.kind == "tour"
    ensures forall i, j :: 0 <= i < j < |h + a + t| ==> Rank((h + a + t)[i].kind) <= Rank((h + a + t)[j].kind)
  {
    var ls := h + a + t;
    forall i | 0 <= i < |ls|
      ensures Rank(ls[i].kind) == (if i < |h| then 0 else if i < |h| + |a| then 1 else 2)
    {
      if i < |h| {
        assert ls[i] == h[i];
      } else if i < |h| + |a| {
        assert ls[i] == a[i - |h|];
      } else {
        assert ls[i] == t[i - |h| - |a|];
      }
    }
  }

  // ----- Grouping the geocoded locations by day -----

  /** The locations whose `day` is `key`, in list order. */
  function Bucket(locs: seq<Record>, key: Value): (b: seq<Record>)
    ensures forall l :: l in b ==> l in locs && Get(l, "day") == key
  {
    if |locs| == 0 then []
    else Bucket(locs[..|locs| - 1], key)
         + (if Get(locs[|locs| - 1], "day") == key then [locs[|locs| - 1]] else [])
  }

  /** The days in order of first appearance: the order of the buckets. */
  function DayOrder(locs: seq<Record>): (order: seq<Value>)
  {
    if |locs| == 0 then []
    else
      var prev := DayOrder(locs[..|locs| - 1]);
      var key := Get(locs[|locs| - 1], "day");
      if key in prev then prev else prev + [key]
  }

  /** The day-order list holds each day once, exactly the days that occur. */
  lemma {:induction false} DayOrderFacts(locs: seq<Record>)
    ensures forall i, j :: 0 <= i < j < |DayOrder(locs)| ==> DayOrder(locs)[i] != DayOrder(locs)[j]
    ensures forall v :: v in DayOrder(locs) <==> exists l :: l in locs && Get(l, "day") == v
  {
    if |locs| > 0 {
      var init := locs[..|locs| - 1];
      DayOrderFacts(init);
      forall v | v in DayOrder(locs)
        ensures exists l :: l in locs && Get(l, "day") == v
      {
        if v in DayOrder(init) {
          var l :| l in init && Get(l, "day") == v;
          assert l in locs;
        } else {
          assert locs[|locs| - 1] in locs;
        }
      }
      forall v | exists l :: l in locs && Get(l, "day") == v
        ensures v in DayOrder(locs)
      {
        var l :| l in locs && Get(l, "day") == v;
        if l in init {
          assert v in DayOrder(init);
        }
      }
    }
  }

  /** Every location lands in the bucket of its day exactly as often as it
      occurs in the list: grouping loses and duplicates nothing. */
  lemma {:induction false} BucketCounts(locs: seq<Record>, l: Record)
    ensures multiset(Bucket(locs, Get(l, "day")))[l] == multiset(locs)[l]
  {
    if |locs| > 0 {
      var init := locs[..|locs| - 1];
      BucketCounts(init, l);
      assert locs == init + [locs[|locs| - 1]];
    }
  }

  /** The grouping loop: each location is appended to the list of its day,
      and a day's list is created when the day is first seen. */
  method GroupByDay(locs: seq<Record>) returns (groups: map<Value, seq<Record>>, order: seq<Value>)
    ensures order == DayOrder(locs)
    ensures groups.Keys == set v | v in order
    ensures forall v :: v in groups ==> groups[v] == Bucket(locs, v)
  {
    groups := map[];
    order := [];
    var k := 0;
    while k < |locs|
      invariant 0 <= k <= |locs|
      invariant order == DayOrder(locs[..k])
      invariant groups.Keys == set v | v in order
      invariant forall v :: v in groups ==> groups[v] == Bucket(locs[..k], v)
    {
      var prefix := locs[..k + 1];
      assert prefix[..k] == locs[..k];
      var day := Get(locs[k], "day");
      if day !in groups {
        groups := groups[day := []];
        order := order + [day];
        assert Bucket(locs[..k], day) == [] by {
          BucketAbsent(locs[..k], day);
        }
      }
      groups := groups[day := groups[day] + [locs[k]]];
      k := k + 1;
    }
    assert locs[..|locs|] == locs;
  }

  /** A day not yet seen has an empty bucket. */
  lemma {:induction false} BucketAbsent(locs: seq<Record>, key: Value)
    requires key !in DayOrder(locs)
    ensures Bucket(locs, key) == []
  {
    if |locs| > 0 {
      BucketAbsent(locs[..|locs| - 1], key);
    }
  }
}
