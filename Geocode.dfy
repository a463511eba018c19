/** The geocoding step of the hotel pipeline: every hotel row of the cleaned
    hotel table gains a latitude, a longitude and a note saying how they
    were obtained, worked out from its city's centre and the distance the
    listing quotes. */
module Geocode {
  import opened Wrappers
  import Text

  datatype Point = Point(lat: real, lng: real)

  /** The six cities whose centre the pipeline knows. */
  const CityCenters: map<string, Point> := map[
    "New York" := Point(40.7128, -73.9856),
    "Chicago" := Point(41.8781, -87.6298),
    "San Francisco" := Point(37.7749, -122.4194),
    "Seattle" := Point(47.6062, -122.3321),
    "Las Vegas" := Point(36.1699, -115.1398),
    "Los Angeles" := Point(34.0522, -118.2437)
  ]

  /** The destination a great-circle step from a centre reaches, given the
      distance in km and the bearing in degrees (trigonometry left out). */
  type Projection = (Point, real, int) -> Point

  /** Python's rendering of a float inside an f-string. */
  type ShowFloat = real -> string

  /** A cell of the output table: the text read from the input, or a
      coordinate the step writes as a number. */
  datatype Cell = Text(s: string) | Number(r: real)

  /** An input row, as the CSV reader builds it: column name to text. */
  type Row = map<string, string>

  type OutRow = map<string, Cell>

  /** `row.get(key, '')`. */
  function Field(row: Row, key: string): (v: string)
    ensures key in row ==> v == row[key]
    ensures key !in row ==> v == ""
  {
    if key in row then row[key] else ""
  }

  /** The kilometre figure in the parentheses of a distance such as
      `0.17 mi (0.28 km) from city center`; `None` when there is no
      parenthesis or the first word inside it is not a number. */
  function ParseDistance(s: string): (r: Option<real>)
    ensures r.Some? ==> '(' in s
  {
    var parts := Text.Split(s, '(');
    if |parts| < 2 then None
    else
      assert '(' in s by {
        if '(' !in s { Text.SplitWithout(s, '('); }
      }
      Text.ParseFloat(Text.Split(Text.Split(parts[1], ')')[0], ' ')[0])
  }

  /** A distance without an opening parenthesis yields nothing. */
  lemma ParseDistanceNoParen(s: string)
    requires '(' !in s
    ensures ParseDistance(s) == None
  {
    Text.SplitWithout(s, '(');
  }

  /** With a first parenthesis holding `b`, the figure read is the first
      space-separated word of `b`, whatever comes around it. */
  lemma ParseDistanceReads(a: string, b: string, c: string)
    requires '(' !in a && '(' !in b && ')' !in b
    ensures ParseDistance(a + "(" + (b + ")" + c)) == Text.ParseFloat(Text.Split(b, ' ')[0])
  {
    var s := a + "(" + (b + ")" + c);
    var tail := b + ")" + c;
    var inside := Text.Split(c, '(')[0];
    assert |Text.Split(s, '(')| >= 2 && Text.Split(s, '(')[1] == Text.Split(tail, '(')[0] by {
      Text.SplitField(a, '(', tail);
    }
    assert Text.Split(tail, '(')[0] == b + [')'] + inside by {
      assert '(' !in b + ")";
      Text.SplitHeadAppend(b + ")", c, '(');
    }
    assert Text.Split(b + [')'] + inside, ')')[0] == b by {
      Text.SplitField(b, ')', inside);
    }
  }

  /** The shape the documentation of the parser shows, `0.17 mi (0.28 km)
      from city center`: the figure read is the decimal in front of the
      unit inside the parentheses. */
  lemma ParseDistanceOfKm(a: string, ip: string, fp: string, unit: string, c: string)
    requires '(' !in a && '(' !in unit && ')' !in unit
    requires ip != [] && fp != [] && Text.AllDigits(ip) && Text.AllDigits(fp)
    ensures ParseDistance(a + "(" + (ip + "." + fp + " " + unit + ")" + c)) == Some(Text.DecimalValue(ip, fp))
  {
    var x := ip + "." + fp;
    var b := x + " " + unit;
    assert '(' !in b && ')' !in b by {
      Text.FixedLacks(ip, fp, '(');
      Text.FixedLacks(ip, fp, ')');
    }
    ParseDistanceReads(a, b, c);
    assert Text.Split(b, ' ')[0] == x by {
      Text.FixedLacks(ip, fp, ' ');
      Text.SplitField(x, ' ', unit);
    }
    Text.ParseFixed(ip, fp);
  }

  /** `sum(ord(c) for c in name)`. */
  function NameHash(name: string): (h: nat)
    ensures |name| > 0 ==> h >= name[0] as int
  {
    if |name| == 0 then 0 else name[0] as int + NameHash(name[1..])
  }

  /** The bearing a hotel is placed at: a function of its name alone, so the
      same hotel lands on the same spot on every run. */
  function Bearing(name: string): (angle: int)
    ensures 0 <= angle < 360
  {
    NameHash(name) % 360
  }

  /** Hashing a concatenation adds the hashes of the parts. */
  lemma {:induction false} NameHashAppend(a: string, b: string)
    ensures NameHash(a + b) == NameHash(a) + NameHash(b)
  {
    if |a| > 0 {
      assert (a + b)[1..] == a[1..] + b;
      NameHashAppend(a[1..], b);
    } else {
      assert a + b == b;
    }
  }

  /** The hash, hence the bearing, ignores the order of the letters. */
  lemma {:induction false} NameHashSwap(a: string, x: char, y: char, b: string)
    ensures NameHash(a + [x, y] + b) == NameHash(a + [y, x] + b)
  {
    NameHashAppend(a + [x, y], b);
    NameHashAppend(a + [y, x], b);
    NameHashAppend(a, [x, y]);
    NameHashAppend(a, [y, x]);
    assert [x, y][1..] == [y];
    assert [y, x][1..] == [x];
  }

  const Added: seq<string> := ["Latitude", "Longitude", "CalculationMethod"]

  /** The columns of a cleaned hotel table, used when the input has none. */
  const DefaultColumns: seq<string> := ["City", "Name", "Link", "Image", "Address", "Distance",
    "Rating", "Reviews", "Price (per night)", "Room Fees", "Exclusions", "Certified"]

  /** A copy of the row, every value kept as text. */
  function Copy(row: Row): (out: OutRow)
    ensures out.Keys == row.Keys
    ensures forall k :: k in row ==> out[k] == Text(row[k])
  {
    map k | k in row :: Text(row[k])
  }

  /** The note for a hotel placed by its distance. */
  function DistanceNote(show: ShowFloat, km: real, angle: int): string
  {
    "Distance-based (" + show(km) + " km from city center, angle " + Text.IntToString(angle) + "°)"
  }

  const CenterNote: string := "City center (couldn't parse distance)"

  const UnknownNote: string := "Unknown city"

  /** Where a hotel is put and how: its latitude and longitude cells and
      the note explaining them. */
  datatype Placement = Placement(lat: Cell, lng: Cell, note: string)

  /** The placement rule, on the stripped name, city and distance: a known
      city and a readable distance place the hotel by projection; a known
      city alone places it at the centre; an unknown city leaves both
      coordinates empty. */
  function Place(name: string, city: string, distance: string, project: Projection, show: ShowFloat)
    : (p: Placement)
    ensures p.lat.Number? <==> city in CityCenters
    ensures p.lng.Number? <==> city in CityCenters
  {
    if city in CityCenters then
      var center := CityCenters[city];
      match ParseDistance(distance)
      case Some(km) =>
        var angle := Bearing(name);
        var q := project(center, km, angle);
        Placement(Number(q.lat), Number(q.lng), DistanceNote(show, km, angle))
      case None =>
        Placement(Number(center.lat), Number(center.lng), CenterNote)
    else
      Placement(Text(""), Text(""), UnknownNote)
  }

  /** A known city with a readable distance: the projected point, at the
      bearing the hotel's name fixes. */
  lemma PlaceByDistance(name: string, city: string, distance: string, project: Projection, show: ShowFloat)
    requires city in CityCenters && ParseDistance(distance).Some?
    ensures var km := ParseDistance(distance).value;
            var q := project(CityCenters[city], km, Bearing(name));
            Place(name, city, distance, project, show)
              == Placement(Number(q.lat), Number(q.lng), DistanceNote(show, km, Bearing(name)))
  {
  }

  /** A known city whose distance cannot be read: the city centre itself. */
  lemma PlaceAtCenter(name: string, city: string, distance: string, project: Projection, show: ShowFloat)
    requires city in CityCenters && ParseDistance(distance).None?
    ensures var c := CityCenters[city];
            Place(name, city, distance, project, show) == Placement(Number(c.lat), Number(c.lng), CenterNote)
  {
  }

  /** The note says "Unknown city" exactly when the city is not one of the
      six, and then both coordinates are blank. */
  lemma PlaceUnknownCity(name: string, city: string, distance: string, project: Projection, show: ShowFloat)
    ensures Place(name, city, distance, project, show).note == UnknownNote <==> city !in CityCenters
    ensures city !in CityCenters ==>
              Place(name, city, distance, project, show) == Placement(Text(""), Text(""), UnknownNote)
  {
    if city in CityCenters {
      match ParseDistance(distance)
      case Some(km) =>
        var note := DistanceNote(show, km, Bearing(name));
        assert note[0] == 'D';
      case None =>
        assert CenterNote[0] == 'C';
    }
  }

  /** The placement of an input row, read from its `Name`, `City` and
      `Distance` columns with surrounding whitespace removed. */
  function Placed(row: Row, project: Projection, show: ShowFloat): Placement
  {
    Place(Text.Strip(Field(row, "Name")), Text.Strip(Field(row, "City")),
          Text.Strip(Field(row, "Distance")), project, show)
  }

  /** A copy of the row with the three geocoding columns set from `p`;
      every other column keeps its text. */
  function Annotate(row: Row, p: Placement): (out: OutRow)
    ensures out.Keys == row.Keys + {"Latitude", "Longitude", "CalculationMethod"}
    ensures forall k :: k in row && k !in Added ==> out[k] == Text(row[k])
    ensures out["Latitude"] == p.lat && out["Longitude"] == p.lng && out["CalculationMethod"] == Text(p.note)
  {
    Copy(row)["Latitude" := p.lat]["Longitude" := p.lng]["CalculationMethod" := Text(p.note)]
  }

  /** One row of the geocoding loop. */
  function GeocodeRow(row: Row, project: Projection, show: ShowFloat): OutRow
  {
    Annotate(row, Placed(row, project, show))
  }

  /** Rows that agree on the stripped name, city and distance get the same
      coordinates and note, whatever their other columns hold. */
  lemma GeocodeDeterministic(r1: Row, r2: Row, project: Projection, show: ShowFloat)
    requires Text.Strip(Field(r1, "Name")) == Text.Strip(Field(r2, "Name"))
    requires Text.Strip(Field(r1, "City")) == Text.Strip(Field(r2, "City"))
    requires Text.Strip(Field(r1, "Distance")) == Text.Strip(Field(r2, "Distance"))
    ensures var o1 := GeocodeRow(r1, project, show);
            var o2 := GeocodeRow(r2, project, show);
            o1["Latitude"] == o2["Latitude"] && o1["Longitude"] == o2["Longitude"]
            && o1["CalculationMethod"] == o2["CalculationMethod"]
  {
    assert Placed(r1, project, show) == Placed(r2, project, show);
  }

  /** What the script can find on disk: no cleaned table, a table the CSV
      reader fails on, or a header with its rows. */
  datatype Input = Missing | Unreadable | Table(header: seq<string>, rows: seq<Row>)

  /** A written CSV file: its column names and its rows. */
  datatype Output = Csv(fieldnames: seq<string>, rows: seq<OutRow>)

  /** The whole script: the file it writes and whether it ends by raising. */
  method GeocodeHotels(input: Input, project: Projection, show: ShowFloat)
    returns (written: Output, raised: bool)
    ensures input.Missing? ==> written == Csv(DefaultColumns + Added, []) && !raised
    ensures input.Unreadable? ==> written == Csv(DefaultColumns + Added, []) && raised
    ensures input.Table? ==> !raised
    ensures input.Table? && input.rows == [] ==>
              written.fieldnames == (if input.header == [] then DefaultColumns else input.header) + Added
    ensures input.Table? && input.rows != [] ==> written.fieldnames == input.header + Added
    ensures input.Table? ==> |written.rows| == |input.rows|
    ensures input.Table? ==>
              forall i :: 0 <= i < |input.rows| ==>
                written.rows[i] == GeocodeRow(input.rows[i], project, show)
  {
    match input
    case Missing =>
      return Csv(DefaultColumns + Added, []), false;
    case Unreadable =>
      return Csv(DefaultColumns + Added, []), true;
    case Table(header, rows) =>
      if |rows| == 0 {
        var columns := if header == [] then DefaultColumns else header;
        return Csv(columns + Added, []), false;
      }
      var results := GeocodeRows(rows, row => GeocodeRow(row, project, show));
      return Csv(header + Added, results), false;
  }

  /** The loop over the rows, in order: one output row per input row, each
      the result of `geocode` on it (the script passes `GeocodeRow`). */
  method GeocodeRows(rows: seq<Row>, geocode: Row -> OutRow) returns (results: seq<OutRow>)
    ensures |results| == |rows|
    ensures forall i :: 0 <= i < |rows| ==> results[i] == geocode(rows[i])
  {
    results := [];
    var idx := 0;
    while idx < |rows|
      invariant 0 <= idx <= |rows|
      invariant |results| == idx
      invariant forall i :: 0 <= i < idx ==> results[i] == geocode(rows[i])
    {
      var out := geocode(rows[idx]);
      results := results + [out];
      idx := idx + 1;
    }
  }
}
