/** The request-handling logic of the itinerary service: the date check on
    an itinerary request, which venue categories are fetched, which
    category an alternatives request names, and the regeneration of an
    itinerary from a table of replacements. */
module Api {
  import opened Wrappers
  import opened Values
  import Text

  // ----- The date check on an itinerary request -----

  const EndDateMessage: string := "End date must be after start date"

  /** The validator of the end date. Dates are day numbers; `start` is
      absent when the start date itself failed to validate, and then the
      end date is accepted as it is. */
  function ValidateEndDate(start: Option<int>, end: int): (r: Result<int>)
    ensures r.Ok? ==> r.value == end
    ensures r.Err? ==> r.message == EndDateMessage
  {
    if start.Some? && end < start.value then Err(EndDateMessage) else Ok(end)
  }

  /** The end date is refused exactly when it falls before a known start
      date; a one-day trip, ending on the day it starts, is accepted. */
  lemma EndDateRule(start: Option<int>, end: int)
    ensures ValidateEndDate(start, end).Err? <==> (start.Some? && end < start.value)
    ensures start == Some(end) ==> ValidateEndDate(start, end) == Ok(end)
  {
  }

  // ----- Which categories are fetched -----

  datatype ItineraryRequest = ItineraryRequest(
    city: string, startDate: int, endDate: int, travelType: string,
    adults: int, kids: int, budget: string,
    includeTours: bool, includeAccommodation: bool, includeThings: bool)

  /** The structured data handed to the day allocator. */
  datatype ItineraryData = ItineraryData(
    city: string, startDate: int, endDate: int, travelType: string,
    adults: int, kids: int, budget: string,
    hotels: seq<Record>, tours: seq<Record>, attractions: seq<Record>)

  /** A catalogue query by city and budget (the database is not part of
      this model). */
  type Fetch = (string, string) -> seq<Record>

  /** The fetch step: a category is queried only when the request includes
      it, and an excluded category is an empty list. */
  function FetchItineraryData(req: ItineraryRequest, hotels: Fetch, tours: Fetch, attractions: Fetch)
    : (d: ItineraryData)
    ensures d.hotels == (if req.includeAccommodation then hotels(req.city, req.budget) else [])
    ensures d.tours == (if req.includeTours then tours(req.city, req.budget) else [])
    ensures d.attractions == (if req.includeThings then attractions(req.city, req.budget) else [])
    ensures d.city == req.city && d.budget == req.budget && d.travelType == req.travelType
    ensures d.startDate == req.startDate && d.endDate == req.endDate
    ensures d.adults == req.adults && d.kids == req.kids
  {
    ItineraryData(
      req.city, req.startDate, req.endDate, req.travelType, req.adults, req.kids, req.budget,
      if req.includeAccommodation then hotels(req.city, req.budget) else [],
      if req.includeTours then tours(req.city, req.budget) else [],
      if req.includeThings then attractions(req.city, req.budget) else [])
  }

  /** The include flags alone decide which lists can be non-empty, and the
      other flags have no say over a category. */
  lemma IncludeFlagsGate(req: ItineraryRequest, hotels: Fetch, tours: Fetch, attractions: Fetch,
                         req2: ItineraryRequest)
    requires req2 == req.(includeAccommodation := req2.includeAccommodation,
                          includeThings := req2.includeThings)
    ensures FetchItineraryData(req, hotels, tours, attractions).tours
         == FetchItineraryData(req2, hotels, tours, attractions).tours
    ensures FetchItineraryData(req, hotels, tours, attractions).tours != [] ==> req.includeTours
    ensures FetchItineraryData(req, hotels, tours, attractions).hotels != [] ==> req.includeAccommodation
    ensures FetchItineraryData(req, hotels, tours, attractions).attractions != [] ==> req.includeThings
  {
  }

  // ----- The category of an alternatives request -----

  datatype Category = Hotel | Tour | Attraction

  /** The message of the `KeyError` for a missing key. */
  function MissingKey(key: string): string { "'" + key + "'" }

  /** The checks of an alternatives request before its catalogue is
      queried: the four keys must be present (in the order they are read)
      and the category must name one of the three catalogues. */
  function AlternativesCategory(payload: Record): (r: Result<Category>)
    ensures r.Ok? ==> "city" in payload && "category" in payload && "current_url" in payload && "budget" in payload
    ensures r == Ok(Hotel) <==> "city" in payload && "current_url" in payload && "budget" in payload
                                && Get(payload, "category") == Str("hotel")
    ensures r == Ok(Tour) <==> "city" in payload && "current_url" in payload && "budget" in payload
                               && Get(payload, "category") == Str("tour")
    ensures r == Ok(Attraction) <==> "city" in payload && "current_url" in payload && "budget" in payload
                                     && Get(payload, "category") == Str("attraction")
  {
    if "city" !in payload then Err(MissingKey("city"))
    else if "category" !in payload then Err(MissingKey("category"))
    else if "current_url" !in payload then Err(MissingKey("current_url"))
    else if "budget" !in payload then Err(MissingKey("budget"))
    else
      var category := payload["category"];
      if category == Str("hotel") then Ok(Hotel)
      else if category == Str("tour") then Ok(Tour)
      else if category == Str("attraction") then Ok(Attraction)
      else Err("Invalid category")
  }

  /** With the four keys present, anything but the three category names is
      refused as an invalid category. */
  lemma InvalidCategory(payload: Record)
    requires "city" in payload && "category" in payload && "current_url" in payload && "budget" in payload
    requires payload["category"] !in {Str("hotel"), Str("tour"), Str("attraction")}
    ensures AlternativesCategory(payload) == Err("Invalid category")
  {
  }

  // ----- Regenerating an itinerary -----

  /** A hotel, tour or attraction as the client sends it back. */
  type Venue = Record

  /** A day of the itinerary being regenerated; a missing key is `None`,
      and `rest` holds every other key the client sent (such as the date).
      The hotel may be present but JSON `null` (`Some(None)`), which is how
      the allocator records a day planned without accommodation. */
  datatype OriginalDay = OriginalDay(
    day: Option<int>, hotel: Option<Option<Venue>>, tours: Option<seq<Venue>>,
    attractions: Option<seq<Venue>>, rest: map<string, Value>)

  /** A rebuilt day: only these four keys are carried over; a `None` hotel
      is JSON `null`. */
  datatype UpdatedDay = UpdatedDay(day: int, hotel: Option<Venue>, tours: seq<Venue>, attractions: seq<Venue>)

  /** The body of a regeneration request; each of its keys may be absent
      (`None`) or present but `null` (`Some(None)`). */
  datatype RegenerateRequest = RegenerateRequest(
    originalDays: Option<Option<seq<OriginalDay>>>, replacements: Option<Option<map<string, Venue>>>,
    meta: Option<Option<map<string, Value>>>)

  /** A field that is present but JSON `null`. */
  predicate IsNull<T>(f: Option<Option<T>>)
  {
    f == Some(None)
  }

  /** `payload.get(key, default)` for a field that is not `null`. */
  function ValueOr<T>(f: Option<Option<T>>, default: T): (v: T)
    ensures f.None? ==> v == default
    ensures f.Some? && f.value.Some? ==> v == f.value.value
  {
    if f.Some? && f.value.Some? then f.value.value else default
  }

  /** The payload handed back to the day allocator: the request's `meta`
      with its `days` key set to the rebuilt days. */
  datatype Regenerated = Regenerated(meta: map<string, Value>, days: seq<UpdatedDay>)

  const RegenerateMessage: string := "Error regenerating itinerary"

  /** The replacement key `<day>_<tail>`. */
  function DayKey(day: int, tail: string): string
  {
    Text.IntToString(day) + "_" + tail
  }

  function HotelKey(day: int): string { DayKey(day, "hotel") }

  function TourKey(day: int, i: nat): string { DayKey(day, "tour_" + Text.IntToString(i)) }

  function AttractionKey(day: int, i: nat): string { DayKey(day, "attraction_" + Text.IntToString(i)) }

  /** `replacements.get(key, original)`. */
  function Replace<T>(replacements: map<string, T>, key: string, original: T): (v: T)
    ensures key in replacements ==> v == replacements[key]
    ensures key !in replacements ==> v == original
  {
    if key in replacements then replacements[key] else original
  }

  /** The replacements as hotel values: every replacement is a present
      (non-null) venue. */
  function Present(replacements: map<string, Venue>): (m: map<string, Option<Venue>>)
    ensures m.Keys == replacements.Keys
    ensures forall k :: k in m ==> m[k] == Some(replacements[k])
  {
    map k | k in replacements :: Some(replacements[k])
  }

  /** Each slot of a list, replaced when its key is present. */
  function ReplaceSlots(replacements: map<string, Venue>, key: nat -> string, venues: seq<Venue>)
    : (r: seq<Venue>)
    ensures |r| == |venues|
    ensures forall i :: 0 <= i < |venues| ==> r[i] == Replace(replacements, key(i), venues[i])
  {
    seq(|venues|, i requires 0 <= i < |venues| => Replace(replacements, key(i), venues[i]))
  }

  /** One rebuilt day; a day lacking one of its four keys fails, and a
      `null` hotel is kept as `null` unless a replacement is sent for it. */
  function UpdateDay(d: OriginalDay, replacements: map<string, Venue>): (r: Result<UpdatedDay>)
    ensures r.Ok? <==> d.day.Some? && d.hotel.Some? && d.tours.Some? && d.attractions.Some?
    ensures r.Err? ==> r.message == RegenerateMessage
    ensures r.Ok? ==> r.value.day == d.day.value
                      && r.value.hotel == (if HotelKey(d.day.value) in replacements
                                           then Some(replacements[HotelKey(d.day.value)])
                                           else d.hotel.value)
                      && |r.value.tours| == |d.tours.value|
                      && |r.value.attractions| == |d.attractions.value|
    ensures r.Ok? ==> forall i :: 0 <= i < |d.tours.value| ==>
                        r.value.tours[i] == Replace(replacements, TourKey(d.day.value, i), d.tours.value[i])
    ensures r.Ok? ==> forall i :: 0 <= i < |d.attractions.value| ==>
                        r.value.attractions[i] == Replace(replacements, AttractionKey(d.day.value, i), d.attractions.value[i])
  {
    if d.day.None? || d.hotel.None? || d.tours.None? || d.attractions.None? then Err(RegenerateMessage)
    else
      var n := d.day.value;
      Ok(UpdatedDay(
        n,
        Replace(Present(replacements), HotelKey(n), d.hotel.value),
        ReplaceSlots(replacements, (i: nat) => TourKey(n, i), d.tours.value),
        ReplaceSlots(replacements, (i: nat) => AttractionKey(n, i), d.attractions.value)))
  }

  /** The loop over the original days, in order, stopping at the first day
      that cannot be rebuilt (the endpoint passes `UpdateDay`). */
  method RebuildDays(days: seq<OriginalDay>, rebuild: OriginalDay -> Result<UpdatedDay>)
    returns (r: Result<seq<UpdatedDay>>)
    ensures r.Ok? <==> forall k :: 0 <= k < |days| ==> rebuild(days[k]).Ok?
    ensures r.Ok? ==> |r.value| == |days| && forall k :: 0 <= k < |days| ==> rebuild(days[k]) == Ok(r.value[k])
    ensures r.Err? ==> exists k :: 0 <= k < |days| && rebuild(days[k]) == Err(r.message)
                                 && forall j :: 0 <= j < k ==> rebuild(days[j]).Ok?
  {
    var updated: seq<UpdatedDay> := [];
    var k := 0;
    while k < |days|
      invariant 0 <= k <= |days|
      invariant |updated| == k
      invariant forall j :: 0 <= j < k ==> rebuild(days[j]) == Ok(updated[j])
    {
      var u := rebuild(days[k]);
      if u.Err? {
        return Err(u.message);
      }
      updated := updated + [u.value];
      k := k + 1;
    }
    return Ok(updated);
  }

  /** The regeneration endpoint up to the allocator call: every original day
      is rebuilt in order, and the rebuilt days replace `days` in `meta`.
      An absent field takes its default; a `null` one fails where the
      source first uses it: `original_days` in the loop header,
      `replacements` at the first day's lookup, `meta` when `days` is set. */
  method RegenerateItinerary(req: RegenerateRequest) returns (r: Result<Regenerated>)
    ensures var days := ValueOr(req.originalDays, []);
            var replacements := ValueOr(req.replacements, map[]);
            var meta := ValueOr(req.meta, map[]);
            && (r.Ok? <==> !IsNull(req.originalDays) && (days != [] ==> !IsNull(req.replacements))
                           && !IsNull(req.meta)
                           && forall k :: 0 <= k < |days| ==> UpdateDay(days[k], replacements).Ok?)
            && (r.Err? ==> r.message == RegenerateMessage)
            && (r.Ok? ==> r.value.meta == meta - {"days"} && |r.value.days| == |days|
                          && forall k :: 0 <= k < |days| ==> UpdateDay(days[k], replacements) == Ok(r.value.days[k]))
  {
    if IsNull(req.originalDays) {
      return Err(RegenerateMessage);
    }
    var days := ValueOr(req.originalDays, []);
    if days != [] && IsNull(req.replacements) {
      return Err(RegenerateMessage);
    }
    var replacements := ValueOr(req.replacements, map[]);
    var rebuilt := RebuildDays(days, d => UpdateDay(d, replacements));
    if rebuilt.Err? || IsNull(req.meta) {
      return Err(RegenerateMessage);
    }
    var meta := ValueOr(req.meta, map[]);
    return Ok(Regenerated(meta - {"days"}, rebuilt.value));
  }

  // ----- The replacement keys do not collide -----

  /** A number's decimal text has no underscore. */
  lemma NoUnderscore(n: int)
    ensures '_' !in Text.IntToString(n)
  {
    var s := Text.IntToString(n);
    if n >= 0 {
      Text.NonDigitAbsent(s, '_');
    } else {
      Text.NonDigitAbsent(s[1..], '_');
      assert s == [s[0]] + s[1..];
    }
  }

  /** The decimal text of an integer determines it. */
  lemma IntToStringInjective(m: int, n: int)
    requires Text.IntToString(m) == Text.IntToString(n)
    ensures m == n
  {
    Text.IntRoundTrip(m);
    Text.IntRoundTrip(n);
  }

  /** A key `<day>_<tail>` determines the day and the tail. */
  lemma KeySplit(d1: int, t1: string, d2: int, t2: string)
    requires DayKey(d1, t1) == DayKey(d2, t2)
    ensures d1 == d2 && t1 == t2
  {
    var a1 := Text.IntToString(d1);
    var a2 := Text.IntToString(d2);
    NoUnderscore(d1);
    NoUnderscore(d2);
    Text.SplitField(a1, '_', t1);
    Text.SplitField(a2, '_', t2);
    IntToStringInjective(d1, d2);
    assert t1 == DayKey(d1, t1)[|a1| + 1..];
  }

  /** Two tails `<word>_<i>` with the same word agree only on the same `i`. */
  lemma TailInjective(word: string, i1: nat, i2: nat)
    requires word + Text.IntToString(i1) == word + Text.IntToString(i2)
    ensures i1 == i2
  {
    assert Text.IntToString(i1) == (word + Text.IntToString(i1))[|word|..];
    assert Text.IntToString(i2) == (word + Text.IntToString(i2))[|word|..];
    IntToStringInjective(i1, i2);
  }

  /** Different slots have different keys: a replacement names one slot of
      one day. */
  lemma TourKeyInjective(d1: int, i1: nat, d2: int, i2: nat)
    requires TourKey(d1, i1) == TourKey(d2, i2)
    ensures d1 == d2 && i1 == i2
  {
    KeySplit(d1, "tour_" + Text.IntToString(i1), d2, "tour_" + Text.IntToString(i2));
    TailInjective("tour_", i1, i2);
  }

  lemma AttractionKeyInjective(d1: int, i1: nat, d2: int, i2: nat)
    requires AttractionKey(d1, i1) == AttractionKey(d2, i2)
    ensures d1 == d2 && i1 == i2
  {
    KeySplit(d1, "attraction_" + Text.IntToString(i1), d2, "attraction_" + Text.IntToString(i2));
    TailInjective("attraction_", i1, i2);
  }

  /** Keys with different tails differ. */
  lemma DistinctTails(d1: int, t1: string, d2: int, t2: string)
    requires t1 != t2
    ensures DayKey(d1, t1) != DayKey(d2, t2)
  {
    if DayKey(d1, t1) == DayKey(d2, t2) {
      KeySplit(d1, t1, d2, t2);
    }
  }

  /** Hotel, tour and attraction keys never coincide. */
  lemma KeyKindsDistinct(d1: int, d2: int, i: nat, j: nat)
    ensures HotelKey(d1) != TourKey(d2, i)
    ensures HotelKey(d1) != AttractionKey(d2, i)
    ensures TourKey(d1, i) != AttractionKey(d2, j)
  {
    var tour := "tour_" + Text.IntToString(i);
    var attraction := "attraction_" + Text.IntToString(i);
    var attractionJ := "attraction_" + Text.IntToString(j);
    assert "hotel"[0] != tour[0] && "hotel"[0] != attraction[0] && tour[0] != attractionJ[0];
    DistinctTails(d1, "hotel", d2, tour);
    DistinctTails(d1, "hotel", d2, attraction);
    DistinctTails(d1, tour, d2, attractionJ);
  }

  /** A day whose hotel is `null` is rebuilt, not refused: it keeps the
      `null` hotel, or takes the replacement sent for it. */
  lemma NullHotelRebuilt(d: OriginalDay, replacements: map<string, Venue>)
    requires d.day.Some? && d.hotel == Some(None) && d.tours.Some? && d.attractions.Some?
    ensures var r := UpdateDay(d, replacements);
            && r.Ok?
            && (HotelKey(d.day.value) !in replacements ==> r.value.hotel.None?)
            && (HotelKey(d.day.value) in replacements ==> r.value.hotel == Some(replacements[HotelKey(d.day.value)]))
  {
  }

  /** A single replacement for tour slot `i` of a day changes that slot and
      nothing else of the day. */
  lemma SingleTourReplacement(d: OriginalDay, i: nat, v: Venue)
    requires d.day.Some? && d.hotel.Some? && d.tours.Some? && d.attractions.Some?
    requires i < |d.tours.value|
    ensures var r := UpdateDay(d, map[TourKey(d.day.value, i) := v]);
            r.Ok? && r.value.hotel == d.hotel.value
            && r.value.tours == d.tours.value[i := v]
            && r.value.attractions == d.attractions.value
  {
    var n := d.day.value;
    var rep := map[TourKey(n, i) := v];
    var u := UpdateDay(d, rep).value;
    KeyKindsDistinct(n, n, i, 0);
    OneTourReplaced(n, i, v, d.tours.value, u.tours);
    NoAttractionReplaced(n, i, v, d.attractions.value, u.attractions);
  }

  lemma OneTourReplaced(n: int, i: nat, v: Venue, ts: seq<Venue>, us: seq<Venue>)
    requires i < |ts| && |us| == |ts|
    requires forall j :: 0 <= j < |ts| ==> us[j] == Replace(map[TourKey(n, i) := v], TourKey(n, j), ts[j])
    ensures us == ts[i := v]
  {
    forall j | 0 <= j < |ts| && j != i
      ensures us[j] == ts[j]
    {
      if TourKey(n, j) == TourKey(n, i) {
        TourKeyInjective(n, j, n, i);
      }
    }
  }

  lemma NoAttractionReplaced(n: int, i: nat, v: Venue, xs: seq<Venue>, us: seq<Venue>)
    requires |us| == |xs|
    requires forall j :: 0 <= j < |xs| ==> us[j] == Replace(map[TourKey(n, i) := v], AttractionKey(n, j), xs[j])
    ensures us == xs
  {
    forall j | 0 <= j < |xs|
      ensures us[j] == xs[j]
    {
      KeyKindsDistinct(n, n, i, j);
    }
  }
}
